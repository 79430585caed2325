/**
 * The math-expression block: the text typed into it becomes the block's only
 * inline item, and the text is handed to the TeX renderer with every line
 * feed turned into a TeX line break (two backslashes).
 */
module MathBlock {
  import opened Wrappers
  import opened Blocks

  /** The TeX line break that replaces a line feed. */
  const LineBreak := "\\\\"

  /** `blockText`: the text of a first item that has one, and "" otherwise. */
  function BlockText(content: BlockContent): (text: string)
    ensures FirstItem(content).Some? && FirstItem(content).value.Text? ==> text == FirstItem(content).value.text
    ensures FirstItem(content).None? || !FirstItem(content).value.Text? ==> text == ""
  {
    match FirstItem(content)
    case Some(Text(text, _)) => text
    case _ => ""
  }

  function CountNewlines(s: string): nat {
    if s == [] then 0 else (if s[0] == '\n' then 1 else 0) + CountNewlines(s[1..])
  }

  /** `text.replace(/\n/g, "\\\\")`: every line feed becomes a TeX line break. */
  function EscapeNewlines(s: string): (r: string)
    ensures forall k :: 0 <= k < |r| ==> r[k] != '\n'
    ensures |r| == |s| + CountNewlines(s)
  {
    if s == [] then []
    else (if s[0] == '\n' then LineBreak else [s[0]]) + EscapeNewlines(s[1..])
  }

  /** The rewrite works character by character, so it distributes over concatenation. */
  lemma {:induction false} EscapeConcat(a: string, b: string)
    ensures EscapeNewlines(a + b) == EscapeNewlines(a) + EscapeNewlines(b)
  {
    if a == [] {
      assert a + b == b;
    } else {
      assert (a + b)[0] == a[0];
      assert (a + b)[1..] == a[1..] + b;
      EscapeConcat(a[1..], b);
    }
  }

  /** The text is passed on unchanged exactly when it holds no line feed. */
  lemma {:induction false} EscapeUnchangedIff(s: string)
    ensures EscapeNewlines(s) == s <==> '\n' !in s
  {
    if s == [] {
    } else {
      EscapeUnchangedIff(s[1..]);
      assert s == [s[0]] + s[1..];
      if s[0] == '\n' {
        assert EscapeNewlines(s)[0] == '\\';
      } else {
        assert EscapeNewlines(s) == [s[0]] + EscapeNewlines(s[1..]);
        if EscapeNewlines(s) == s {
          assert EscapeNewlines(s[1..]) == EscapeNewlines(s)[1..];
        }
      }
    }
  }

  /** A line feed between two letters becomes a TeX line break between them. */
  lemma EscapeNewlineExample()
    ensures EscapeNewlines("a\nb") == "a\\\\b"
  {
    assert "a\nb" == "a" + "\n" + "b";
    EscapeConcat("a" + "\n", "b");
    EscapeConcat("a", "\n");
  }

  /** The block's state: its inline content. */
  class MathBlockState {
    var content: BlockContent

    constructor ()
      ensures content == Some([])
    {
      content := Some([]);
    }

    /**
     * The input handler: the element's text content (`""` when it has none)
     * replaces the block's content as a single unstyled text item, so the
     * block then renders exactly that text.
     */
    method OnInput(textContent: Option<string>)
      modifies this
      ensures content == Some([Text(textContent.GetOr(""), map[])])
      ensures BlockText(content) == textContent.GetOr("")
    {
      var text := if textContent.Some? then textContent.value else "";
      content := Some([Text(text, map[])]);
    }

    /** What the renderer receives. */
    function Rendered(): (tex: string)
      reads this
      ensures '\n' !in tex
    {
      EscapeNewlines(BlockText(content))
    }
  }
}

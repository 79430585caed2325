/**
 * The navigation bar's "open a message" box: the pasted text is cleaned with
 * `replace(/.*message\//, '').trim()` and, when something is left, the app
 * navigates to `/message/<id>` and empties the box.
 *
 * The regular expression is modelled as the engine runs it: the leftmost
 * start position that can match wins, `.*` is greedy, and `.` matches any
 * character except a line terminator.
 */
module NavBar {
  import opened Wrappers
  import opened Strings
  import Page

  const Marker := "message/"
  const MessagePath := "/message/"

  /** The characters `.` does not match. */
  predicate IsLineTerminator(c: char) {
    c == '\n' || c == '\r' || c == '\U{2028}' || c == '\U{2029}'
  }

  predicate SingleLine(s: string) {
    forall k :: 0 <= k < |s| ==> !IsLineTerminator(s[k])
  }

  predicate HasMarkerFrom(s: string, i: nat) {
    exists j: nat :: i <= j <= |s| && OccursAt(s, Marker, j)
  }

  lemma MarkerSingleLine()
    ensures SingleLine(Marker)
  {
    assert Marker == ['m', 'e', 's', 's', 'a', 'g', 'e', '/'];
  }

  /** The end of the line that holds index `i`: the first line terminator at or after `i`, or the end of `s`. */
  function LineEnd(s: string, i: nat): (e: nat)
    requires i <= |s|
    ensures i <= e <= |s|
    ensures forall k :: i <= k < e ==> !IsLineTerminator(s[k])
    ensures e < |s| ==> IsLineTerminator(s[e])
    decreases |s| - i
  {
    if i == |s| || IsLineTerminator(s[i]) then i else LineEnd(s, i + 1)
  }

  /** The last occurrence of the marker that lies wholly inside `s[lo..hi]`. */
  function LastMarkerIn(s: string, lo: nat, hi: nat): (r: Option<nat>)
    requires lo <= hi <= |s|
    ensures r.Some? ==> lo <= r.value && r.value + |Marker| <= hi && OccursAt(s, Marker, r.value)
    ensures r.Some? ==> forall j: nat :: r.value < j && j + |Marker| <= hi ==> !OccursAt(s, Marker, j)
    ensures r.None? ==> forall j: nat :: lo <= j && j + |Marker| <= hi ==> !OccursAt(s, Marker, j)
    decreases hi - lo
  {
    if hi - lo < |Marker| then None
    else if OccursAt(s, Marker, hi - |Marker|) then Some(hi - |Marker|)
    else LastMarkerIn(s, lo, hi - 1)
  }

  /**
   * The match of `/.*message\//` found by searching from index `i` on, as the
   * pair (start, end): the first start from which `.*` can reach a marker
   * without crossing a line terminator, extended to the last such marker.
   */
  function MatchFrom(s: string, i: nat): (m: Option<(nat, nat)>)
    requires i <= |s|
    ensures m.Some? ==> i <= m.value.0 && m.value.0 + |Marker| <= m.value.1 <= |s|
    ensures m.Some? ==> OccursAt(s, Marker, m.value.1 - |Marker|)
    ensures m.None? <==> !HasMarkerFrom(s, i)
    decreases |s| - i
  {
    var found := LastMarkerIn(s, i, LineEnd(s, i));
    var m := if found.Some? then Some((i, found.value + |Marker|))
             else if i == |s| then None
             else MatchFrom(s, i + 1);
    assert HasMarkerFrom(s, i) ==> m.Some? by {
      if HasMarkerFrom(s, i) {
        var j: nat :| i <= j <= |s| && OccursAt(s, Marker, j);
        if j == i {
          MarkerWithinLine(s, i);
        } else {
          assert HasMarkerFrom(s, i + 1);
        }
      }
    }
    m
  }

  /** A marker starting at `i` lies wholly on the line that holds `i`. */
  lemma MarkerWithinLine(s: string, i: nat)
    requires OccursAt(s, Marker, i)
    ensures i + |Marker| <= LineEnd(s, i)
  {
    MarkerSingleLine();
    forall k | i <= k < i + |Marker| ensures !IsLineTerminator(s[k]) {
      assert s[k] == Marker[k - i];
    }
  }

  /**
   * `input.replace(/.*message\//, '')`: the text with the first match cut
   * out; text without the marker is returned as is, and otherwise at least
   * the marker goes.
   */
  function StripThroughMarker(s: string): (r: string)
    ensures !HasMarkerFrom(s, 0) ==> r == s
    ensures HasMarkerFrom(s, 0) ==> |r| <= |s| - |Marker|
  {
    match MatchFrom(s, 0)
    case None => s
    case Some((start, end)) => s[..start] + s[end..]
  }

  /**
   * The id the box navigates to: it has no white space at either end, it is
   * the trimmed text when there is no marker, and cleaned single-line text
   * holds no marker.
   */
  function CleanId(input: string): (id: string)
    ensures id == [] || (!IsWhitespace(id[0]) && !IsWhitespace(id[|id| - 1]))
    ensures !HasMarkerFrom(input, 0) ==> id == Trim(input)
    ensures SingleLine(input) ==> !HasMarkerFrom(id, 0)
  {
    var stripped := StripThroughMarker(input);
    assert !HasMarkerFrom(input, 0) ==> stripped == input;
    assert SingleLine(input) ==> !HasMarkerFrom(Trim(stripped), 0) by {
      if SingleLine(input) {
        StrippedLineHasNoMarker(input);
      }
    }
    Trim(stripped)
  }

  /** Stripping and trimming a single line leaves no `message/` behind. */
  lemma StrippedLineHasNoMarker(input: string)
    requires SingleLine(input)
    ensures !HasMarkerFrom(Trim(StripThroughMarker(input)), 0)
  {
    var stripped := StripThroughMarker(input);
    if HasMarkerFrom(input, 0) {
      var j := SingleLineStrip(input);
    }
    var a, b := TrimIsSlice(stripped);
    NoMarkerInSlice(stripped, a, b);
  }

  /** Text without the marker is only trimmed, whatever its lines. */
  lemma CleanIdWithoutMarker(input: string)
    requires !HasMarkerFrom(input, 0)
    ensures CleanId(input) == Trim(input)
  {
  }

  /** On a single line, everything up to and including the last marker is removed, and no marker is left. */
  lemma SingleLineStrip(s: string) returns (j: nat)
    requires SingleLine(s) && HasMarkerFrom(s, 0)
    ensures OccursAt(s, Marker, j) && forall k: nat :: j < k ==> !OccursAt(s, Marker, k)
    ensures StripThroughMarker(s) == s[j + |Marker|..]
    ensures !HasMarkerFrom(StripThroughMarker(s), 0)
  {
    var found := LastMarkerIn(s, 0, |s|);
    assert LineEnd(s, 0) == |s|;
    j := found.value;
    var rest := s[j + |Marker|..];
    if HasMarkerFrom(rest, 0) {
      var p: nat :| p <= |rest| && OccursAt(rest, Marker, p);
      assert rest[p..p + |Marker|] == s[j + |Marker| + p..j + |Marker| + p + |Marker|];
      assert OccursAt(s, Marker, j + |Marker| + p);
      assert false;
    }
  }

  /** A slice of text without the marker has none either. */
  lemma NoMarkerInSlice(s: string, a: nat, b: nat)
    requires a <= b <= |s| && !HasMarkerFrom(s, 0)
    ensures !HasMarkerFrom(s[a..b], 0)
  {
    if HasMarkerFrom(s[a..b], 0) {
      var p: nat :| p <= b - a && OccursAt(s[a..b], Marker, p);
      forall k | 0 <= k < |Marker| ensures s[a + p + k] == Marker[k] {
        assert s[a..b][p..p + |Marker|][k] == Marker[k];
      }
      assert s[a + p..a + p + |Marker|] == Marker;
      assert OccursAt(s, Marker, a + p);
    }
  }

  /** Cleaning single-line input twice gives what cleaning it once does. */
  lemma CleanIdIdempotent(input: string)
    requires SingleLine(input)
    ensures CleanId(CleanId(input)) == CleanId(input)
  {
    CleanIdWithoutMarker(CleanId(input));
    TrimIdempotent(StripThroughMarker(input));
  }

  /** Where submitting the box navigates, if anywhere. */
  function NavigationTarget(input: string): (target: Option<string>)
    ensures target.Some? <==> CleanId(input) != ""
    ensures target.Some? ==> target.value == MessagePath + CleanId(input)
  {
    var id := CleanId(input);
    if id != "" then Some(MessagePath + id) else None
  }

  /** The characters a generated message id is drawn from (URL-safe: letters, digits, `_` and `-`). */
  predicate IdChar(c: char) {
    ('A' <= c <= 'Z') || ('a' <= c <= 'z') || ('0' <= c <= '9') || c == '_' || c == '-'
  }

  lemma SingleLineConcat(a: string, b: string)
    requires SingleLine(a) && SingleLine(b)
    ensures SingleLine(a + b)
  {
    forall k | 0 <= k < |a + b| ensures !IsLineTerminator((a + b)[k]) {
      if k >= |a| {
        assert (a + b)[k] == b[k - |a|];
      }
    }
  }

  /** In `prefix + "/message/" + id` with `id` free of `/`, no marker starts after the one before `id`. */
  lemma LastMarkerBeforeId(prefix: string, id: string, j: nat)
    requires forall k :: 0 <= k < |id| ==> IdChar(id[k])
    requires OccursAt(prefix + MessagePath + id, Marker, j)
    ensures j <= |prefix| + 1
  {
    var s := prefix + MessagePath + id;
    var slash := j + |Marker| - 1;
    assert s[slash] == '/' by {
      assert s[j..j + |Marker|][|Marker| - 1] == '/';
    }
    assert forall k :: |prefix| + |MessagePath| <= k < |s| ==> s[k] == id[k - |prefix| - |MessagePath|];
  }

  /** Cutting through the marker of `origin + "/message/" + id` leaves exactly the id. */
  lemma StripShareLink(o: string, id: string)
    requires SingleLine(o)
    requires forall k :: 0 <= k < |id| ==> IdChar(id[k])
    ensures StripThroughMarker(o + MessagePath + id) == id
  {
    var s := o + MessagePath + id;
    var j := |o| + 1;
    assert s[j..j + |Marker|] == Marker;
    assert OccursAt(s, Marker, j);
    assert SingleLine(MessagePath) by {
      assert MessagePath == ['/', 'm', 'e', 's', 's', 'a', 'g', 'e', '/'];
    }
    assert SingleLine(id);
    SingleLineConcat(o, MessagePath);
    SingleLineConcat(o + MessagePath, id);
    var last := SingleLineStrip(s);
    LastMarkerBeforeId(o, id, last);
    assert s[j + |Marker|..] == id;
  }

  /**
   * Pasting a share link into the box opens the message it names: for a
   * single-line origin and a generated id, cleaning the link gives the id.
   */
  lemma ShareLinkRoundTrip(origin: string, id: string)
    requires SingleLine(origin)
    requires forall k :: 0 <= k < |id| ==> IdChar(id[k])
    ensures CleanId(Page.ShareLink(origin, id)) == id
    ensures id != "" ==> NavigationTarget(Page.ShareLink(origin, id)) == Some(MessagePath + id)
  {
    var o := if origin != "" then origin else Page.DefaultOrigin;
    DefaultOriginSingleLine();
    assert Page.ShareLink(origin, id) == o + MessagePath + id;
    CleanShareLink(o, id);
  }

  /** Cleaning `<o>/message/<id>` gives the id back. */
  lemma CleanShareLink(o: string, id: string)
    requires SingleLine(o)
    requires forall k :: 0 <= k < |id| ==> IdChar(id[k])
    ensures CleanId(o + MessagePath + id) == id
  {
    StripShareLink(o, id);
    if id != "" {
      IdCharNotWhitespace(id[0]);
      IdCharNotWhitespace(id[|id| - 1]);
    }
    TrimKeeps(id);
  }

  lemma IdCharNotWhitespace(c: char)
    requires IdChar(c)
    ensures !IsWhitespace(c)
  {
  }

  lemma DefaultOriginSingleLine()
    ensures SingleLine(Page.DefaultOrigin)
  {
    forall k | 0 <= k < |Page.DefaultOrigin| ensures !IsLineTerminator(Page.DefaultOrigin[k]) {
      assert Page.DefaultOrigin[k] in "http://localhost:3000";
    }
  }

  /** The box's state. */
  class SearchBox {
    var messageId: string

    constructor ()
      ensures messageId == ""
    {
      messageId := "";
    }

    /**
     * `handleSubmit`: navigates to `/message/` and the cleaned id and empties
     * the box when the cleaned id is non-empty; otherwise does nothing.
     */
    method HandleSubmit() returns (navigatedTo: Option<string>)
      modifies this
      ensures navigatedTo == NavigationTarget(old(messageId))
      ensures messageId == if navigatedTo.Some? then "" else old(messageId)
    {
      var cleanId := Trim(StripThroughMarker(messageId));
      if cleanId != "" {
        navigatedTo := Some(MessagePath + cleanId);
        messageId := "";
      } else {
        navigatedTo := None;
      }
    }
  }
}

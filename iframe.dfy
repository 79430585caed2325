/**
 * The embedded-frame block: its source is taken from the block's first inline
 * item, and a short YouTube link is rewritten to the embeddable form.
 */
module Iframe {
  import opened Wrappers
  import opened Strings
  import opened Blocks

  const ShortLinkHost := "youtu.be/"
  const EmbedPath := "www.youtube.com/embed/"

  /** `blockSrc`: the text of a first text item, the target of a first link, and "" otherwise. */
  function BlockSrc(content: BlockContent): (src: string)
    ensures FirstItem(content).Some? && FirstItem(content).value.Text? ==> src == FirstItem(content).value.text
    ensures FirstItem(content).Some? && FirstItem(content).value.Link? ==> src == FirstItem(content).value.href
    ensures FirstItem(content).None? || FirstItem(content).value.Custom? ==> src == ""
  {
    match FirstItem(content)
    case Some(Text(text, _)) => text
    case Some(Link(href, _)) => href
    case _ => ""
  }

  /** The `src` the frame loads: `blockSrc` with its first `youtu.be/` rewritten; it differs from `blockSrc` exactly when that holds one. */
  function FrameSrc(content: BlockContent): (src: string)
    ensures src == BlockSrc(content) <==> IndexOf(BlockSrc(content), ShortLinkHost).None?
  {
    RewriteChangesIffShortLink(BlockSrc(content));
    ReplaceFirst(BlockSrc(content), ShortLinkHost, EmbedPath)
  }

  /**
   * Only the first `youtu.be/` is rewritten: the text before it (which holds
   * none) and everything after it, later occurrences included, are kept.
   */
  lemma RewriteFirstShortLink(src: string, i: nat)
    requires OccursAt(src, ShortLinkHost, i)
    requires forall j: nat :: j < i ==> !OccursAt(src, ShortLinkHost, j)
    ensures ReplaceFirst(src, ShortLinkHost, EmbedPath) == src[..i] + EmbedPath + src[i + |ShortLinkHost|..]
  {
    ReplaceFirstSpec(src, ShortLinkHost, EmbedPath);
  }

  /** The source is changed exactly when it contains `youtu.be/`. */
  lemma RewriteChangesIffShortLink(src: string)
    ensures ReplaceFirst(src, ShortLinkHost, EmbedPath) == src <==> IndexOf(src, ShortLinkHost).None?
  {
    var r := ReplaceFirst(src, ShortLinkHost, EmbedPath);
    if IndexOf(src, ShortLinkHost).Some? {
      var i := IndexOf(src, ShortLinkHost).value;
      assert |r| == |src| + |EmbedPath| - |ShortLinkHost|;
    }
  }

  /** A short link becomes its embed link. */
  lemma ShortLinkEmbedded(videoId: string)
    ensures FrameSrc(Some([Text("https://" + ShortLinkHost + videoId, map[])]))
      == "https://" + EmbedPath + videoId
  {
    var src := "https://" + ShortLinkHost + videoId;
    assert BlockSrc(Some([Text(src, map[])])) == src;
    assert src[8..8 + |ShortLinkHost|] == ShortLinkHost;
    forall j: nat | j < 8 ensures !OccursAt(src, ShortLinkHost, j) {
      assert src[j] == "https://"[j] != ShortLinkHost[0];
      assert j + |ShortLinkHost| <= |src| ==> src[j..j + |ShortLinkHost|][0] == src[j];
    }
    RewriteFirstShortLink(src, 8);
    assert src[..8] == "https://";
    assert src[8 + |ShortLinkHost|..] == videoId;
  }
}

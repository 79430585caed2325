/** The inline content of an editor block, as the custom Iframe and Math blocks see it. */
module Blocks {
  import opened Wrappers

  /** Text styles by name (bold, textColor, ...). */
  type Styles = map<string, string>

  datatype StyledText = StyledText(text: string, styles: Styles)

  /**
   * One inline item: styled text (it has a `text` property), a link (it has
   * an `href` and styled text of its own, but no `text`), or a custom inline
   * item such as a mention (neither).
   */
  datatype InlineItem =
    | Text(text: string, styles: Styles)
    | Link(href: string, content: seq<StyledText>)
    | Custom(kind: string, props: map<string, string>)

  /** A block's content; `None` when the block has no content array. */
  type BlockContent = Option<seq<InlineItem>>

  /** `props.block.content?.[0]`: the first item, if the content exists and is not empty. */
  function FirstItem(content: BlockContent): (first: Option<InlineItem>)
    ensures first.Some? <==> content.Some? && |content.value| > 0
    ensures first.Some? ==> first.value == content.value[0]
  {
    if content.Some? && |content.value| > 0 then Some(content.value[0]) else None
  }
}

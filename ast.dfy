/** The syntax tree the HTML providers walk: typed nodes over half-open
    spans of the source text, with their children in order. */
module Ast {

  /** The element and token types the three providers look at. A list
      carries its `loose` flag, which a list item reads through its
      parent; every type no provider here tests for is `Other`. */
  datatype Kind =
    | WhiteSpace
    | AtxHeader
    | AtxContent
    | Paragraph
    | ListBullet
    | ListItem
    | List(loose: bool)
    | CodeFence
    | CodeFenceStart
    | CodeFenceContent
    | CodeFenceEnd
    | FenceLang
    | Eol
    | Other

  /** A node of the tree: its type, its span `[startOffset, endOffset)` in
      the source text and its children in source order. */
  datatype Node = Node(kind: Kind, startOffset: nat, endOffset: nat, children: seq<Node>)

  /** The node's span lies inside the text it was parsed from. */
  predicate InText(node: Node, text: string)
  {
    node.startOffset <= node.endOffset <= |text|
  }

  /** The source text the node spans. */
  function TextInNode(node: Node, text: string): string
    requires InText(node, text)
  {
    text[node.startOffset..node.endOffset]
  }
}

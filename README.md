# Markdown HTML generating providers

This project models three HTML generating providers of the IntelliJ
Markdown library. The HTML generator walks the Markdown syntax tree. For
each node it calls the provider registered for the node's type, and that
provider writes fragments of HTML into the generating visitor.

- **ATX heading** (`# Title #`): `childrenToRender` picks which children of
  the heading node are inline content. It skips the opening `#` run and the
  space after it. It also skips a closing `#` run and the space before it.
- **List item**: the item is wrapped in `li` tags. A bullet plus a single
  paragraph, inside a list that is not loose, is rendered "silently". That
  means the paragraph's children are rendered without `<p>` tags, which is
  the CommonMark tight-list rule.
- **Fenced code block**: the output is `<pre><code`, the language attribute
  taken from the info string, `>`, and then the lines of the block with the
  fence's own indentation removed. Last comes `</code></pre>`, always on a
  line of its own.

Modules:

- `Ast` (`ast.dfy`): the syntax-tree node. It has a type, offsets into the
  text, and children.
- `KotlinText` (`kotlin_text.dfy`): the Kotlin string functions the code
  fence provider calls. They are `repeat`, `commonPrefixWith`, `trim`
  (with the JVM's whitespace set) and the first piece of `split(' ')`.
- `HtmlVisitor` (`html_visitor.dfy`): the generating visitor as a class.
  Its output is the sequence of fragments consumed so far. It also holds
  the default child traversal. What a child renders to is decided by the
  provider for the child's type, and the model takes that as a parameter
  `render`.
- `AtxGeneratingProvider` (`atx_provider.dfy`): the child range a heading
  renders.
- `ListItemGeneratingProvider` (`list_item_provider.dfy`): the list item
  provider and the silent paragraph provider.
- `CodeFenceGeneratingProvider` (`code_fence_provider.dfy`): the code fence
  provider.

### How the code fence provider is proved

The provider's `processNode` is an imperative loop over two variables:
`state`, which is 0 before the opening fence's line break and 1 after it,
and `lastChildWasEol`. The proof has three layers:

1. `ProcessNode` is a method with that loop. It is proved to emit exactly
   `CodeFenceHtml`.
2. `CodeFenceHtml` is a declarative description of the output. It is built
   around the position of the first line break:
   - the opening tag;
   - the language attributes of the children before that line break;
   - the dedented content after it;
   - a newline unless that content ends with a line break;
   - the closing tags.
3. The loop is also a state machine, `Step` and `Run`. `RunInvariant`
   proves that after every prefix of the children the machine's state is
   the one the description predicts.

The lemmas under "Properties of the output" are stated about the
description.

## Model

| member | source | states |
|---|---|---|
| AtxGeneratingProvider.RenderRange | src/org/intellij/markdown/html/GeneratingProviders.kt:11-24 | `from` is 2 exactly when there are at least two children and child 1 is whitespace, otherwise 1; `to` is below `L` exactly when `L > 1` and the last child is a `#` run; `to == L - 2` exactly when in addition `L > 3` and child `L - 2` is whitespace; always `1 <= from <= to <= L`, so the sub-list is well formed |
| AtxGeneratingProvider.ChildrenToRender | src/org/intellij/markdown/html/GeneratingProviders.kt:10-27 | the rendered children are a contiguous run that starts right after the opening marker (and an optional space); it never includes the opening marker and drops at most four children |
| AtxGeneratingProvider.RendersExactlyContent | src/org/intellij/markdown/html/GeneratingProviders.kt:10-27 | for every heading built from an opening marker, an optional space, content and an optional closing run (with or without a space before it), the rendered children are exactly the content; this includes the empty heading `# #`, where the `L > 3` guard keeps the space from being stripped twice |
| HtmlVisitor.Visitor.ConsumeHtml | src/org/intellij/markdown/html/GeneratingProviders.kt:34 | `consumeHtml` appends exactly one fragment to the output |
| HtmlVisitor.Visitor.VisitNode | src/org/intellij/markdown/html/GeneratingProviders.kt:40 | visiting a child appends what its provider renders for it |
| HtmlVisitor.Visitor.AcceptChildren | src/org/intellij/markdown/html/GeneratingProviders.kt:40 | `acceptChildren` appends the renderings of all children, in order |
| ListItemGeneratingProvider.ListItemHtml | src/org/intellij/markdown/html/GeneratingProviders.kt:34-42 | an item's output starts with the open tag and ends with the close tag |
| ListItemGeneratingProvider.DefaultRendering | src/org/intellij/markdown/html/GeneratingProviders.kt:35-41 | in a loose list, or for an item that is not a bullet plus one paragraph, every child (the bullet included) is rendered between the `li` tags |
| ListItemGeneratingProvider.TightRendering | src/org/intellij/markdown/html/GeneratingProviders.kt:35-53 | in a tight list, a bullet-plus-paragraph item renders only the paragraph's children between the `li` tags, framed by the silent provider's two empty tags; the bullet is not rendered |
| ListItemGeneratingProvider.TightDropsOnlyParagraphTags | src/org/intellij/markdown/html/GeneratingProviders.kt:31-53 | the same item renders in a tight list as in a loose one, except that the paragraph's `<p>` and `</p>` are replaced by empty fragments (when the bullet renders to nothing and the paragraph renders as its tags around its children) |
| ListItemGeneratingProvider.SilentParagraphProcessNode | src/org/intellij/markdown/html/GeneratingProviders.kt:45-53 | the silent paragraph provider emits an empty open tag, the paragraph's children and an empty close tag |
| ListItemGeneratingProvider.ProcessNode | src/org/intellij/markdown/html/GeneratingProviders.kt:31-43 | `processNode` emits exactly `ListItemHtml`: the tight-list test picks the silent paragraph rendering or the default traversal |
| KotlinText.Spaces | src/org/intellij/markdown/html/GeneratingProviders.kt:58 | `" ".repeat(n)` has length `n` and consists only of spaces |
| KotlinText.CommonPrefixLength | src/org/intellij/markdown/html/GeneratingProviders.kt:58 | `commonPrefixWith` gives a prefix that both strings share and that cannot be extended |
| KotlinText.TrimStartDropsLeadingWhitespace | src/org/intellij/markdown/html/GeneratingProviders.kt:78 | `trimStart` leaves a suffix; everything it dropped is whitespace and what is left does not start with whitespace |
| KotlinText.TrimEndDropsTrailingWhitespace | src/org/intellij/markdown/html/GeneratingProviders.kt:78 | `trimEnd` leaves a prefix; everything it dropped is whitespace and what is left does not end with whitespace |
| KotlinText.TrimKeepsTheMiddle | src/org/intellij/markdown/html/GeneratingProviders.kt:78 | `trim` leaves a contiguous piece of the string that neither starts nor ends with whitespace; the piece is empty exactly when the string is all whitespace |
| KotlinText.BeforeFirstSpaceIsFirstPiece | src/org/intellij/markdown/html/GeneratingProviders.kt:78 | `split(' ')[0]` is a prefix with no space in it that runs up to the first space or to the end |
| CodeFenceGeneratingProvider.SpacesFromIsCommonPrefix | src/org/intellij/markdown/html/GeneratingProviders.kt:58 | counting the spaces from a position, up to `n` of them, is the common prefix length with `n` spaces |
| CodeFenceGeneratingProvider.IndentBeforeIsCommonPrefix | src/org/intellij/markdown/html/GeneratingProviders.kt:58 | `indentBefore` is the length of the common prefix of the node's text with ten spaces |
| CodeFenceGeneratingProvider.IndentBeforeCountsSpaces | src/org/intellij/markdown/html/GeneratingProviders.kt:58 | `indentBefore` is at most ten; the text starts with that many spaces, and the character after them is not a space unless the cap of ten was reached |
| CodeFenceGeneratingProvider.ChildrenToConsiderDropsOnlyFenceEnd | src/org/intellij/markdown/html/GeneratingProviders.kt:63-66 | the loop visits a prefix of the children, one shorter exactly when the last child is a fence end |
| CodeFenceGeneratingProvider.LanguageAttributeShape | src/org/intellij/markdown/html/GeneratingProviders.kt:76-79 | the attribute is ` class="language-`, a word and a closing quote; the word has no space, is a prefix of the trimmed info string, and runs to its first space or its end |
| CodeFenceGeneratingProvider.FirstEolIsFirst | src/org/intellij/markdown/html/GeneratingProviders.kt:81-84 | the line break that ends the loop's state 0 is the first line-break child |
| CodeFenceGeneratingProvider.FirstEolSnoc | src/org/intellij/markdown/html/GeneratingProviders.kt:70-84 | visiting one more child keeps the first line break where it was, or places it at that child when it is the first line break |
| CodeFenceGeneratingProvider.Run | src/org/intellij/markdown/html/GeneratingProviders.kt:61-85 | after the loop `state` is 0 or 1, and in state 0 `lastChildWasEol` is still false |
| CodeFenceGeneratingProvider.ExpectedStepFirstLine | src/org/intellij/markdown/html/GeneratingProviders.kt:76-84 | in state 0 one iteration adds an info string's attribute, or `>` and the switch to state 1 on a line break, to the predicted trace |
| CodeFenceGeneratingProvider.ExpectedStepBody | src/org/intellij/markdown/html/GeneratingProviders.kt:71-75 | in state 1 one iteration adds a dedented content or line-break fragment to the predicted trace and records whether it was a line break |
| CodeFenceGeneratingProvider.RunInvariant | src/org/intellij/markdown/html/GeneratingProviders.kt:61-85 | the loop invariant: after any prefix of the children, the state and the emitted fragments are those predicted from the first line break |
| CodeFenceGeneratingProvider.StateOneAfterEol | src/org/intellij/markdown/html/GeneratingProviders.kt:81-84 | `state` is 1 after the loop exactly when some child is a line break |
| CodeFenceGeneratingProvider.RunPrefixStep | src/org/intellij/markdown/html/GeneratingProviders.kt:70-85 | one more iteration of the `for` loop is one more step of the state machine |
| CodeFenceGeneratingProvider.LoopMatchesSpecOneLine | src/org/intellij/markdown/html/GeneratingProviders.kt:86-92 | without a line break, the loop and the closing steps emit the attributes, `>`, a newline and the closing tags |
| CodeFenceGeneratingProvider.LoopMatchesSpecBody | src/org/intellij/markdown/html/GeneratingProviders.kt:70-92 | with a line break, the loop and the closing steps emit the opening tag, the content and a newline only if the content does not end with a line break |
| CodeFenceGeneratingProvider.LoopMatchesSpec | src/org/intellij/markdown/html/GeneratingProviders.kt:70-92 | the loop followed by the closing steps emits exactly the declarative fence output |
| CodeFenceGeneratingProvider.CodeFenceHtmlIsLoop | src/org/intellij/markdown/html/GeneratingProviders.kt:57-93 | the declarative output of a fence node equals `<pre><code` followed by what the loop and the closing steps emit |
| CodeFenceGeneratingProvider.LanguageAttributesPrefixed | src/org/intellij/markdown/html/GeneratingProviders.kt:76-80 | there is at most one attribute per child, and each starts with ` class="language-` |
| CodeFenceGeneratingProvider.OpeningTagClosedOnce | src/org/intellij/markdown/html/GeneratingProviders.kt:60-88 | the opening tag starts with `<pre><code`, ends with a single `>`, and everything between them is language attributes |
| CodeFenceGeneratingProvider.FenceHtmlFrame | src/org/intellij/markdown/html/GeneratingProviders.kt:60-92 | the output starts with the complete opening tag and ends with `</code></pre>` |
| CodeFenceGeneratingProvider.EndsWithEolRendersEol | src/org/intellij/markdown/html/GeneratingProviders.kt:71-74 | when the content ends with a line break, the last content fragment is the rendering of a line-break child |
| CodeFenceGeneratingProvider.CloseOnItsOwnLine | src/org/intellij/markdown/html/GeneratingProviders.kt:86-92 | `</code></pre>` is always preceded either by an added newline or by the rendering of a line break that comes after the opening line |
| CodeFenceGeneratingProvider.FenceEndIgnored | src/org/intellij/markdown/html/GeneratingProviders.kt:63-66 | a trailing fence end contributes nothing to the output |
| CodeFenceGeneratingProvider.FenceWithoutLineBreak | src/org/intellij/markdown/html/GeneratingProviders.kt:86-91 | a fence with no line break at all still gets `>`, its language attributes, a newline and the closing tags |
| CodeFenceGeneratingProvider.CodeFenceHtmlFrame | src/org/intellij/markdown/html/GeneratingProviders.kt:57-93 | every fence's output starts with `<pre><code` and ends with `</code></pre>` |
| CodeFenceGeneratingProvider.EndsWithEolMeaning | src/org/intellij/markdown/html/GeneratingProviders.kt:71-74 | the content ends with a line break exactly when some line-break child is followed by no content child |
| CodeFenceGeneratingProvider.LastChildWasEolMeaning | src/org/intellij/markdown/html/GeneratingProviders.kt:68-75 | after the loop, `lastChildWasEol` holds exactly when a line break after the opening one is followed by no content child |
| CodeFenceGeneratingProvider.IgnoredChildEmitsNothing | src/org/intellij/markdown/html/GeneratingProviders.kt:70-85 | a child that is neither content nor a line break emits nothing, and neither does an info string after the first line break |
| CodeFenceGeneratingProvider.CloseFence | src/org/intellij/markdown/html/GeneratingProviders.kt:86-92 | the closing steps emit `>` if still in state 0, a newline unless the last child was a line break, then `</code></pre>` |
| CodeFenceGeneratingProvider.ProcessNode | src/org/intellij/markdown/html/GeneratingProviders.kt:57-93 | `processNode` emits exactly the declarative fence output for the node |

## Left out

- `MarkdownParser.kt` and the rest of the parser (tree assembly, marker processing, lexing) are not part of this model. The tree is an input.
- `HtmlGenerator.leafText` and `HtmlGenerator.trimIndents` are uninterpreted functions, fields of `LeafOps`. HTML escaping and the per-line dedent are therefore not modelled, and nothing is proved about what text a content line renders to.
- The `li` tags come from `SimpleTagProvider.openTag` and `closeTag`, which are not part of this model. They are parameters of `ListItemGeneratingProvider.ProcessNode`.
- Provider dispatch is not modelled: how the visitor picks the provider for a child is the parameter `render`.
- `SimpleInlineTagProvider`'s rendering of the children `childrenToRender` returns is not modelled. Only the selection is.
- `getTextInNode` is modelled as the slice `text[startOffset..endOffset]`. A node whose offsets lie outside the text, which would throw, is excluded by the precondition `InText`.
- The Kotlin `assert(node is ListItemCompositeNode)` and `parent!!` become the preconditions `item.kind == ListItem` and `parent.kind.List?`. A node has no parent pointer, so the parent list is passed as an argument.
- AtxGeneratingProvider.ChildrenToRender: a heading with no children is excluded by a precondition. The Kotlin code throws there, because `subList(1, 0)` is invalid, so the model follows the code and does not render an empty heading.
- CodeFenceGeneratingProvider.ProcessNode: a fence with no children is excluded by a precondition. The Kotlin code throws there, in `last()`.
- Line 78 splits the info string on the space character only, so a tab inside the trimmed info string stays in the language word. The model follows the code, not a whitespace-delimited reading.
- CodeFenceGeneratingProvider.CloseFence: the three closing steps of `processNode` (lines 86-92) are a separate method that `ProcessNode` calls. It is the same code, in the same order.
- Kotlin's `Char.isWhitespace` is written out as the fixed set of JVM whitespace characters, not as a lookup of Unicode categories.

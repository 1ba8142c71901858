/** The list item provider: `<li>…</li>`, with a single paragraph in an
    item of a tight list rendered without its own paragraph tags. */
module ListItemGeneratingProvider {
  import opened Ast
  import opened HtmlVisitor

  /** The tight-list test: a bullet plus exactly one trailing paragraph,
      in a list that is not loose. */
  predicate RendersSilently(item: Node, parent: Node)
    requires parent.kind.List?
  {
    && |item.children| == 2
    && item.children[|item.children| - 1].kind == Paragraph
    && !parent.kind.loose
  }

  /** What the silent paragraph provider emits: the tag provider's shape,
      open tag, children, close tag, with both tags empty. */
  function SilentParagraphHtml(paragraph: Node, render: Node -> seq<string>): seq<string>
  {
    [""] + ConcatMap(render, paragraph.children) + [""]
  }

  /** The fragments a list item emits. */
  function ListItemHtml(item: Node, parent: Node, openTag: string, closeTag: string,
                        render: Node -> seq<string>): (r: seq<string>)
    requires parent.kind.List?
    ensures |r| >= 2 && r[0] == openTag && r[|r| - 1] == closeTag
  {
    [openTag]
    + (if RendersSilently(item, parent) then SilentParagraphHtml(item.children[1], render)
       else ConcatMap(render, item.children))
    + [closeTag]
  }

  /** In a loose list, and for any item that is not a bullet plus a single
      paragraph, the item is the default tag rendering: every child, bullet
      included, between the `li` tags. */
  lemma {:induction false} DefaultRendering(item: Node, parent: Node, openTag: string, closeTag: string,
                                           render: Node -> seq<string>)
    requires parent.kind.List? && item.kind == ListItem
    requires parent.kind.loose || |item.children| != 2 || item.children[1].kind != Paragraph
    ensures ListItemHtml(item, parent, openTag, closeTag, render)
            == [openTag] + ConcatMap(render, item.children) + [closeTag]
  {
    assert !RendersSilently(item, parent);
  }

  /** In a tight list, a bullet-plus-paragraph item renders the paragraph's
      children between the `li` tags, framed by two empty fragments; the
      bullet is not visited at all. */
  lemma {:induction false} TightRendering(item: Node, parent: Node, openTag: string, closeTag: string,
                                         render: Node -> seq<string>)
    requires parent.kind.List? && item.kind == ListItem && !parent.kind.loose
    requires |item.children| == 2 && item.children[1].kind == Paragraph
    ensures ListItemHtml(item, parent, openTag, closeTag, render)
            == [openTag, ""] + ConcatMap(render, item.children[1].children) + ["", closeTag]
  {
    assert RendersSilently(item, parent);
  }

  /** The tight-list rule: when the bullet renders to nothing and a
      paragraph renders as its tags around its children, the same item
      renders in a tight list as in a loose one except that the
      paragraph's open and close tags are replaced by empty fragments. */
  lemma {:induction false} TightDropsOnlyParagraphTags(item: Node, tight: Node, loose: Node,
                                                      openTag: string, closeTag: string,
                                                      pOpen: string, pClose: string,
                                                      render: Node -> seq<string>)
    requires tight.kind.List? && item.kind == ListItem && !tight.kind.loose
    requires loose.kind.List? && item.kind == ListItem && loose.kind.loose
    requires |item.children| == 2 && item.children[1].kind == Paragraph
    requires render(item.children[0]) == []
    requires render(item.children[1]) == [pOpen] + ConcatMap(render, item.children[1].children) + [pClose]
    ensures var l := ListItemHtml(item, loose, openTag, closeTag, render);
            |l| >= 4 && ListItemHtml(item, tight, openTag, closeTag, render) == l[1 := ""][|l| - 2 := ""]
  {
    var body := ConcatMap(render, item.children[1].children);
    ConcatMapPair(render, item.children[0], item.children[1]);
    assert ConcatMap(render, item.children) == [pOpen] + body + [pClose] by {
      assert item.children == [item.children[0], item.children[1]];
    }
    var l := ListItemHtml(item, loose, openTag, closeTag, render);
    assert l == [openTag, pOpen] + body + [pClose, closeTag];
    TightRendering(item, tight, openTag, closeTag, render);
  }

  /** `SilentParagraphGeneratingProvider.processNode`: the tag provider's
      traversal with empty open and close tags. */
  method SilentParagraphProcessNode(v: Visitor, paragraph: Node, render: Node -> seq<string>)
    modifies v
    ensures v.output == old(v.output) + SilentParagraphHtml(paragraph, render)
  {
    v.ConsumeHtml("");
    v.AcceptChildren(paragraph, render);
    v.ConsumeHtml("");
  }

  /** `ListItemGeneratingProvider.processNode`. The `li` tags are computed
      by the tag provider and given here as `openTag` and `closeTag`. */
  method ProcessNode(v: Visitor, item: Node, parent: Node, openTag: string, closeTag: string,
                     render: Node -> seq<string>)
    requires parent.kind.List? && item.kind == ListItem
    modifies v
    ensures v.output == old(v.output) + ListItemHtml(item, parent, openTag, closeTag, render)
  {
    v.ConsumeHtml(openTag);
    if |item.children| == 2
       && item.children[|item.children| - 1].kind == Paragraph
       && !parent.kind.loose
    {
      SilentParagraphProcessNode(v, item.children[|item.children| - 1], render);
    } else {
      v.AcceptChildren(item, render);
    }
    v.ConsumeHtml(closeTag);
  }
}

/** The visitor the providers write into. Its output is the sequence of
    HTML fragments consumed so far; what a child node renders to is
    decided by the provider registered for its type, which this model
    takes as a parameter `render`. */
module HtmlVisitor {
  import opened Ast

  /** The fragments the default traversal produces for `nodes`, in order:
      the concatenation of what each of them renders to. */
  function ConcatMap(render: Node -> seq<string>, nodes: seq<Node>): seq<string>
  {
    if nodes == [] then [] else ConcatMap(render, nodes[..|nodes| - 1]) + render(nodes[|nodes| - 1])
  }

  lemma {:induction false} ConcatMapPair(render: Node -> seq<string>, a: Node, b: Node)
    ensures ConcatMap(render, [a, b]) == render(a) + render(b)
  {
    assert [a, b][..1] == [a];
    assert [a][..0] == [];
    assert ConcatMap(render, [a]) == render(a);
  }

  /** Regrouping fragments appended one after the other. */
  lemma AppendAssoc(a: seq<string>, b: seq<string>, c: seq<string>)
    ensures a + (b + c) == a + b + c
  {
  }

  lemma AppendRegroup(a: seq<string>, b: seq<string>, c: seq<string>, d: seq<string>)
    ensures a + b + c + d == a + (b + c + d)
  {
  }

  class Visitor {
    var output: seq<string>

    constructor ()
      ensures output == []
    {
      output := [];
    }

    /** Appends one fragment of HTML. */
    method ConsumeHtml(html: string)
      modifies this
      ensures output == old(output) + [html]
    {
      output := output + [html];
    }

    /** Hands `node` to the provider registered for its type, which
        appends what the node renders to. */
    method VisitNode(node: Node, render: Node -> seq<string>)
      modifies this
      ensures output == old(output) + render(node)
    {
      output := output + render(node);
    }

    /** The default traversal: visits every child of `node` in order. */
    method AcceptChildren(node: Node, render: Node -> seq<string>)
      modifies this
      ensures output == old(output) + ConcatMap(render, node.children)
    {
      for i := 0 to |node.children|
        invariant output == old(output) + ConcatMap(render, node.children[..i])
      {
        assert node.children[..i + 1][..i] == node.children[..i];
        VisitNode(node.children[i], render);
      }
      assert node.children[..|node.children|] == node.children;
    }
  }
}

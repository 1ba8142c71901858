/** The ATX heading provider (`# Title #`): which children of the
    heading node are rendered as its inline content. */
module AtxGeneratingProvider {
  import opened Ast

  /** The half-open range of children `[from, to)` that is rendered. */
  datatype Slice = Slice(from: nat, to: nat)

  /** The range `childrenToRender` keeps: it skips the opening `#` run and
      one whitespace child after it, and an optional closing `#` run with
      the whitespace child before it, the latter only when more than three
      children are present. The range is always well formed and never
      includes the opening marker. */
  function RenderRange(children: seq<Node>): (r: Slice)
    requires |children| >= 1
    ensures 1 <= r.from <= r.to <= |children|
    ensures r.from == 2 <==> |children| >= 2 && children[1].kind == WhiteSpace
    ensures r.from <= 2
    ensures r.to < |children| <==> |children| > 1 && children[|children| - 1].kind == AtxHeader
    ensures r.to == |children| - 2 <==>
              && |children| > 3
              && children[|children| - 1].kind == AtxHeader
              && children[|children| - 2].kind == WhiteSpace
    ensures r.to >= |children| - 2
  {
    var L := |children|;
    var from := if L >= 2 && children[1].kind == WhiteSpace then 2 else 1;
    var to :=
      if L > 1 && children[L - 1].kind == AtxHeader then
        if L > 3 && children[L - 2].kind == WhiteSpace then L - 2 else L - 1
      else L;
    Slice(from, to)
  }

  /** `childrenToRender`: a contiguous, order-preserving run of the
      heading's children that starts after the opening marker. */
  function ChildrenToRender(heading: Node): (r: seq<Node>)
    requires |heading.children| >= 1
    ensures |r| < |heading.children| <= |r| + 4
    ensures r <= heading.children[RenderRange(heading.children).from..]
  {
    var range := RenderRange(heading.children);
    heading.children[range.from..range.to]
  }

  /** The children of a heading assembled from its parts: the opening
      `#` run, an optional whitespace, the content, and an optional
      closing `#` run, possibly preceded by whitespace. */
  function Heading(open: Node, lead: seq<Node>, content: seq<Node>, closing: seq<Node>): seq<Node>
  {
    [open] + lead + content + closing
  }

  /** The parts of a heading as the lexer delimits them: the content does
      not start with whitespace that the lead would have taken, does not
      end with a `#` run that would have been the closing one, and does
      not end with whitespace that belongs before a closing run. */
  predicate WellDelimited(lead: seq<Node>, content: seq<Node>, closing: seq<Node>)
  {
    && (lead == [] || (|lead| == 1 && lead[0].kind == WhiteSpace))
    && (|| closing == []
        || (|closing| == 1 && closing[0].kind == AtxHeader)
        || (|closing| == 2 && closing[0].kind == WhiteSpace && closing[1].kind == AtxHeader))
    && (lead == [] && content != [] ==> content[0].kind != WhiteSpace)
    && (closing == [] && content != [] ==> content[|content| - 1].kind != AtxHeader)
    && (|closing| == 1 && content != [] ==> content[|content| - 1].kind != WhiteSpace)
  }

  /** A heading renders exactly its content, whatever combination of
      leading space and closing run surrounds it, including an empty
      content such as `# #`, where the `L > 3` guard keeps the space from
      being stripped twice. */
  lemma {:induction false} RendersExactlyContent(open: Node, lead: seq<Node>, content: seq<Node>, closing: seq<Node>, heading: Node)
    requires WellDelimited(lead, content, closing)
    requires heading.children == Heading(open, lead, content, closing)
    ensures ChildrenToRender(heading) == content
  {
    var kids := heading.children;
    var L := |kids|;
    var range := RenderRange(kids);
    assert kids[0] == open;
    assert kids[1 + |lead|..1 + |lead| + |content|] == content;
    if lead != [] {
      assert kids[1] == lead[0];
    } else if content != [] {
      assert kids[1] == content[0];
    } else if closing != [] {
      assert kids[1] == closing[0];
    }
    if lead == [] && content == [] && |closing| == 2 {
      // `# #` lexed as marker, space, marker: both ends meet at 2
      assert range == Slice(2, 2);
    } else {
      assert range.from == 1 + |lead|;
      if closing != [] {
        assert kids[L - 1] == closing[|closing| - 1];
        if |closing| == 2 {
          assert kids[L - 2] == closing[0];
        } else if content != [] {
          assert kids[L - 2] == content[|content| - 1];
        } else if lead != [] {
          assert kids[L - 2] == lead[0];
        }
      } else if content != [] {
        assert kids[L - 1] == content[|content| - 1];
      } else if lead != [] {
        assert kids[L - 1] == lead[0];
      }
      assert range.to == 1 + |lead| + |content|;
    }
  }
}

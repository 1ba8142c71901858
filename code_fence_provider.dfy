/** The fenced code block provider: `<pre><code class="language-X">`,
    the dedented lines of the block, and `</code></pre>` on a line of its
    own. */
module CodeFenceGeneratingProvider {
  import opened Ast
  import opened KotlinText
  import opened HtmlVisitor

  /** `HtmlGenerator.leafText` (a leaf's text, escaped for HTML) and
      `HtmlGenerator.trimIndents` (strip up to `n` leading spaces from each
      line), which this model leaves uninterpreted. */
  datatype LeafOps = LeafOps(leafText: Node -> string, trimIndents: (string, nat) -> string)

  /** The tags that open and close every fenced block. */
  const PreCode: string := "<pre><code"
  const CodePre: string := "</code></pre>"

  /** The start of every language attribute. */
  const LanguagePrefix: string := " class=\"language-"

  /** The fence's own indentation: the number of leading spaces of its
      source text, at most ten. */
  function IndentBefore(fenceText: string): nat
  {
    SpacesFrom(fenceText, 0, 10)
  }

  /** The number of consecutive spaces in `s` from index `from` on,
      counting at most `limit`. */
  function SpacesFrom(s: string, from: nat, limit: nat): nat
    decreases limit
  {
    if limit == 0 || from >= |s| || s[from] != ' ' then 0 else 1 + SpacesFrom(s, from + 1, limit - 1)
  }

  /** Counting the spaces at `from`, up to `n`, is the length of the
      common prefix of `s[from..]` with `n` spaces. */
  lemma {:induction false} SpacesFromIsCommonPrefix(s: string, from: nat, n: nat)
    requires from <= |s|
    ensures SpacesFrom(s, from, n) == CommonPrefixLength(s[from..], Spaces(n))
    decreases n
  {
    if n > 0 && from < |s| && s[from] == ' ' {
      SpacesFromIsCommonPrefix(s, from + 1, n - 1);
      assert s[from..][1..] == s[from + 1..];
      assert Spaces(n)[1..] == Spaces(n - 1);
    }
  }

  /** The indentation is what the Kotlin expression
      `commonPrefixWith(" ".repeat(10)).length` computes. */
  lemma {:induction false} IndentBeforeIsCommonPrefix(fenceText: string)
    ensures IndentBefore(fenceText) == CommonPrefixLength(fenceText, Spaces(10))
  {
    SpacesFromIsCommonPrefix(fenceText, 0, 10);
    assert fenceText[0..] == fenceText;
  }

  /** The indentation counts the leading spaces, up to ten, and stops at
      the first character that is not a space. */
  lemma {:induction false} IndentBeforeCountsSpaces(fenceText: string)
    ensures var n := IndentBefore(fenceText);
            && n <= 10 && n <= |fenceText|
            && (forall i :: 0 <= i < n ==> fenceText[i] == ' ')
            && (n < 10 && n < |fenceText| ==> fenceText[n] != ' ')
  {
    var n := IndentBefore(fenceText);
    IndentBeforeIsCommonPrefix(fenceText);
    assert forall i :: 0 <= i < n ==> fenceText[i] == fenceText[..n][i] == Spaces(10)[..n][i];
  }

  /** The children the loop visits: all of them but a trailing fence end. */
  function ChildrenToConsider(children: seq<Node>): seq<Node>
    requires |children| >= 1
  {
    if children[|children| - 1].kind == CodeFenceEnd then children[..|children| - 1] else children
  }

  /** Only a fence end, and only in last place, is dropped. */
  lemma {:induction false} ChildrenToConsiderDropsOnlyFenceEnd(children: seq<Node>)
    requires |children| >= 1
    ensures var r := ChildrenToConsider(children);
            && r <= children
            && |children| - |r| == (if children[|children| - 1].kind == CodeFenceEnd then 1 else 0)
  {
  }

  /** The attribute for an info string: the first space-separated piece of
      the trimmed text, quoted. */
  function LanguageAttribute(ops: LeafOps, lang: Node): string
  {
    LanguagePrefix + BeforeFirstSpace(Trim(ops.leafText(lang))) + "\""
  }

  /** The attribute is `LanguagePrefix`, a word, and a closing quote; the
      word contains no space, is a prefix of the trimmed info string, and
      runs up to the first space in it or to its end. */
  lemma {:induction false} LanguageAttributeShape(ops: LeafOps, lang: Node)
    ensures var r := LanguageAttribute(ops, lang);
            var info := Trim(ops.leafText(lang));
            var word := r[|LanguagePrefix|..|r| - 1];
            && |r| > |LanguagePrefix|
            && LanguagePrefix <= r && r[|r| - 1] == '"'
            && word <= info && ' ' !in word
            && (|word| < |info| ==> info[|word|] == ' ')
  {
    var info := Trim(ops.leafText(lang));
    var w := BeforeFirstSpace(info);
    BeforeFirstSpaceIsFirstPiece(info);
    var r := LanguageAttribute(ops, lang);
    assert r == LanguagePrefix + w + "\"";
    assert r[|LanguagePrefix|..|r| - 1] == w;
  }

  /** What one content or line-break child emits: its text, dedented. */
  function LineText(ops: LeafOps, indent: nat, child: Node): string
  {
    ops.trimIndents(ops.leafText(child), indent)
  }

  /** The child types whose text is emitted as the block's content. */
  predicate IsBodyKind(k: Kind)
  {
    k == CodeFenceContent || k == Eol
  }

  // ---------------------------------------------------------------------
  // The output described by where the first line break is

  /** The index of the first line break, or `|children|` if there is none. */
  function FirstEol(children: seq<Node>): (i: nat)
    ensures i <= |children|
  {
    if children == [] || children[0].kind == Eol then 0 else 1 + FirstEol(children[1..])
  }

  /** `FirstEol` is the index of a line break with none before it. */
  lemma {:induction false} FirstEolIsFirst(children: seq<Node>)
    ensures var i := FirstEol(children);
            && (forall j :: 0 <= j < i ==> children[j].kind != Eol)
            && (i < |children| ==> children[i].kind == Eol)
  {
    if children != [] && children[0].kind != Eol {
      FirstEolIsFirst(children[1..]);
      assert forall j :: 1 <= j < FirstEol(children) ==> children[j] == children[1..][j - 1];
    }
  }

  /** The children after the first line break (none if there is none). */
  function AfterFirstLine(children: seq<Node>): seq<Node>
  {
    var e := FirstEol(children);
    if e < |children| then children[e + 1..] else []
  }

  /** One attribute per info-string child, in order. */
  function LanguageAttributes(ops: LeafOps, children: seq<Node>): seq<string>
  {
    if children == [] then []
    else
      var last := children[|children| - 1];
      LanguageAttributes(ops, children[..|children| - 1])
      + (if last.kind == FenceLang then [LanguageAttribute(ops, last)] else [])
  }

  /** One dedented fragment per content or line-break child, in order. */
  function BodyFragments(ops: LeafOps, indent: nat, children: seq<Node>): seq<string>
  {
    if children == [] then []
    else
      var last := children[|children| - 1];
      BodyFragments(ops, indent, children[..|children| - 1])
      + (if IsBodyKind(last.kind) then [LineText(ops, indent, last)] else [])
  }

  /** The last content or line-break child is a line break. */
  predicate EndsWithEol(children: seq<Node>)
  {
    if children == [] then false
    else
      var last := children[|children| - 1];
      if last.kind == Eol then true
      else if last.kind == CodeFenceContent then false
      else EndsWithEol(children[..|children| - 1])
  }

  /** The opening tag: `<pre><code`, the language attributes of the
      children before the first line break, and `>`. */
  function OpeningTag(ops: LeafOps, children: seq<Node>): seq<string>
  {
    [PreCode] + LanguageAttributes(ops, children[..FirstEol(children)]) + [">"]
  }

  /** The fragments of a fence whose children, fence end already dropped,
      are `children`: the opening tag, the dedented content after the
      first line break, a newline unless that content ends with a line
      break, and the closing tags. */
  function FenceHtml(ops: LeafOps, indent: nat, children: seq<Node>): seq<string>
  {
    var body := AfterFirstLine(children);
    OpeningTag(ops, children)
    + BodyFragments(ops, indent, body)
    + (if EndsWithEol(body) then [] else ["\n"])
    + [CodePre]
  }

  /** What `CodeFenceGeneratingProvider.processNode` emits for `node`. */
  function CodeFenceHtml(text: string, node: Node, ops: LeafOps): seq<string>
    requires InText(node, text)
    requires |node.children| >= 1
  {
    FenceHtml(ops, IndentBefore(TextInNode(node, text)), ChildrenToConsider(node.children))
  }

  // ---------------------------------------------------------------------
  // The loop as a state machine

  /** The loop's two variables: `state` (0 before the opening line break,
      1 after it) and `lastChildWasEol`. */
  datatype FenceState = FenceState(state: int, lastChildWasEol: bool)

  /** A state together with the fragments emitted to reach it. */
  datatype Trace = Trace(st: FenceState, emitted: seq<string>)

  const Initial: FenceState := FenceState(0, false)

  /** One iteration of the loop: in state 1 a content or line-break child
      is emitted, dedented, and recorded in `lastChildWasEol`; in state 0
      an info string emits its language attribute, and a line break emits
      `>` and moves to state 1; nothing else emits or changes anything. */
  function Step(ops: LeafOps, indent: nat, st: FenceState, child: Node): Trace
  {
    if st.state == 1 then
      if IsBodyKind(child.kind) then Trace(FenceState(1, child.kind == Eol), [LineText(ops, indent, child)])
      else Trace(st, [])
    else if child.kind == FenceLang then Trace(st, [LanguageAttribute(ops, child)])
    else if child.kind == Eol then Trace(FenceState(1, st.lastChildWasEol), [">"])
    else Trace(st, [])
  }

  /** The loop over `children`, from the initial state. */
  function Run(ops: LeafOps, indent: nat, children: seq<Node>): (t: Trace)
    ensures t.st.state == 0 || t.st.state == 1
    ensures t.st.state == 0 ==> !t.st.lastChildWasEol
  {
    if children == [] then Trace(Initial, [])
    else
      var before := Run(ops, indent, children[..|children| - 1]);
      var step := Step(ops, indent, before.st, children[|children| - 1]);
      Trace(step.st, before.emitted + step.emitted)
  }

  /** What follows the loop: `>` if no line break was seen, a newline if
      the last thing emitted was not a line break, then the closing tags. */
  function Finish(st: FenceState): seq<string>
  {
    (if st.state == 0 then [">"] else [])
    + (if !st.lastChildWasEol then ["\n"] else [])
    + [CodePre]
  }

  // ---------------------------------------------------------------------
  // The state machine produces that output

  /** The trace the loop has after `children`: before the first line
      break it is in state 0 and has emitted only language attributes;
      after it, it is in state 1, has emitted the attributes, `>` and the
      dedented content, and `lastChildWasEol` says whether that content
      ends with a line break. */
  function Expected(ops: LeafOps, indent: nat, children: seq<Node>): Trace
  {
    var e := FirstEol(children);
    if e == |children| then
      Trace(Initial, LanguageAttributes(ops, children))
    else
      var body := children[e + 1..];
      Trace(FenceState(1, EndsWithEol(body)),
            LanguageAttributes(ops, children[..e]) + [">"] + BodyFragments(ops, indent, body))
  }

  /** Appending a child leaves the first line break where it was, or puts
      it at the new child's place if there was none yet. */
  lemma {:induction false} FirstEolSnoc(init: seq<Node>, last: Node)
    ensures FirstEol(init + [last]) ==
              if FirstEol(init) < |init| then FirstEol(init)
              else if last.kind == Eol then |init|
              else |init| + 1
  {
    var children := init + [last];
    var e0 := FirstEol(init);
    FirstEolIsFirst(init);
    FirstEolIsFirst(children);
    assert forall j :: 0 <= j < |init| ==> init[j] == children[j];
    if e0 < |init| {
      assert children[e0].kind == Eol;
    } else if last.kind == Eol {
      assert children[|init|].kind == Eol;
    }
  }

  /** Before any line break, one more child is one step from state 0. */
  lemma {:induction false} ExpectedStepFirstLine(ops: LeafOps, indent: nat, init: seq<Node>, last: Node)
    requires FirstEol(init) == |init|
    ensures var t := Expected(ops, indent, init);
            var step := Step(ops, indent, t.st, last);
            Expected(ops, indent, init + [last]) == Trace(step.st, t.emitted + step.emitted)
  {
    var children := init + [last];
    FirstEolSnoc(init, last);
    assert children[..|children| - 1] == init;
    if last.kind == Eol {
      assert children[..|init|] == init;
      assert children[|init| + 1..] == [];
    }
  }

  /** After the first line break, one more child is one step from state 1. */
  lemma {:induction false} ExpectedStepBody(ops: LeafOps, indent: nat, init: seq<Node>, last: Node)
    requires FirstEol(init) < |init|
    ensures var t := Expected(ops, indent, init);
            var step := Step(ops, indent, t.st, last);
            Expected(ops, indent, init + [last]) == Trace(step.st, t.emitted + step.emitted)
  {
    var children := init + [last];
    var e := FirstEol(init);
    FirstEolSnoc(init, last);
    assert children[..e] == init[..e];
    var body := children[e + 1..];
    assert body[..|body| - 1] == init[e + 1..];
    assert body[|body| - 1] == last;
  }

  /** The loop's trace after every prefix of the children is `Expected`. */
  lemma {:induction false} RunInvariant(ops: LeafOps, indent: nat, children: seq<Node>)
    ensures Run(ops, indent, children) == Expected(ops, indent, children)
  {
    if children != [] {
      var init := children[..|children| - 1];
      var last := children[|children| - 1];
      RunInvariant(ops, indent, init);
      var t := Run(ops, indent, init);
      var step := Step(ops, indent, t.st, last);
      assert Run(ops, indent, children) == Trace(step.st, t.emitted + step.emitted);
      assert children == init + [last];
      if FirstEol(init) == |init| {
        ExpectedStepFirstLine(ops, indent, init, last);
      } else {
        ExpectedStepBody(ops, indent, init, last);
      }
    }
  }

  /** `state` is 1 exactly when a line break has been visited: it moves
      from 0 to 1 once and never back. */
  lemma {:induction false} StateOneAfterEol(ops: LeafOps, indent: nat, children: seq<Node>)
    ensures Run(ops, indent, children).st.state == 1
            <==> exists i :: 0 <= i < |children| && children[i].kind == Eol
  {
    RunInvariant(ops, indent, children);
    FirstEolIsFirst(children);
    var e := FirstEol(children);
    if e < |children| {
      assert children[e].kind == Eol;
    }
  }

  /** One more iteration of the loop is one more `Step`. */
  lemma RunPrefixStep(ops: LeafOps, indent: nat, children: seq<Node>, i: nat)
    requires i < |children|
    ensures var before := Run(ops, indent, children[..i]);
            var step := Step(ops, indent, before.st, children[i]);
            Run(ops, indent, children[..i + 1]) == Trace(step.st, before.emitted + step.emitted)
  {
    assert children[..i + 1][..i] == children[..i];
  }

  /** Without a line break, the loop emits the language attributes and
      the closing steps add `>`, a newline and the closing tags. */
  lemma {:induction false} LoopMatchesSpecOneLine(ops: LeafOps, indent: nat, children: seq<Node>)
    requires FirstEol(children) == |children|
    ensures var t := Run(ops, indent, children);
            [PreCode] + t.emitted + Finish(t.st) == FenceHtml(ops, indent, children)
  {
    RunInvariant(ops, indent, children);
    assert children[..|children|] == children;
    var attrs := LanguageAttributes(ops, children);
    assert AfterFirstLine(children) == [];
    assert BodyFragments(ops, indent, []) == [];
    assert Finish(Initial) == [">", "\n", CodePre];
    assert FenceHtml(ops, indent, children) == [PreCode] + attrs + [">"] + [] + ["\n"] + [CodePre];
    assert [PreCode] + attrs + [">"] + [] + ["\n"] + [CodePre] == [PreCode] + attrs + [">", "\n", CodePre];
  }

  /** With a line break, the loop emits the attributes, `>` and the
      content, and the closing steps add a newline only if the content
      does not end with a line break. */
  lemma {:induction false} LoopMatchesSpecBody(ops: LeafOps, indent: nat, children: seq<Node>)
    requires FirstEol(children) < |children|
    ensures var t := Run(ops, indent, children);
            [PreCode] + t.emitted + Finish(t.st) == FenceHtml(ops, indent, children)
  {
    RunInvariant(ops, indent, children);
    var e := FirstEol(children);
    var attrs := LanguageAttributes(ops, children[..e]);
    var body := children[e + 1..];
    var frags := BodyFragments(ops, indent, body);
    var nl: seq<string> := if EndsWithEol(body) then [] else ["\n"];
    var emitted := attrs + [">"] + frags;
    assert Run(ops, indent, children) == Trace(FenceState(1, EndsWithEol(body)), emitted);
    assert Finish(FenceState(1, EndsWithEol(body))) == nl + [CodePre];
    assert FenceHtml(ops, indent, children) == [PreCode] + attrs + [">"] + frags + nl + [CodePre];
    AppendRegroup([PreCode], attrs, [">"], frags);
    AppendAssoc([PreCode] + emitted, nl, [CodePre]);
  }

  /** The loop followed by what comes after it emits exactly `FenceHtml`. */
  lemma {:induction false} LoopMatchesSpec(ops: LeafOps, indent: nat, children: seq<Node>)
    ensures var t := Run(ops, indent, children);
            [PreCode] + t.emitted + Finish(t.st) == FenceHtml(ops, indent, children)
  {
    if FirstEol(children) == |children| {
      LoopMatchesSpecOneLine(ops, indent, children);
    } else {
      LoopMatchesSpecBody(ops, indent, children);
    }
  }

  /** `CodeFenceHtml` is what the provider's loop and the three closing
      steps after it emit, behind `<pre><code`. */
  lemma {:induction false} CodeFenceHtmlIsLoop(text: string, node: Node, ops: LeafOps)
    requires InText(node, text)
    requires |node.children| >= 1
    ensures var t := Run(ops, IndentBefore(TextInNode(node, text)), ChildrenToConsider(node.children));
            CodeFenceHtml(text, node, ops) == [PreCode] + t.emitted + Finish(t.st)
  {
    LoopMatchesSpec(ops, IndentBefore(TextInNode(node, text)), ChildrenToConsider(node.children));
  }

  // ---------------------------------------------------------------------
  // Properties of the output

  /** Every language attribute starts with `LanguagePrefix`, and there is
      at most one per child. */
  lemma {:induction false} LanguageAttributesPrefixed(ops: LeafOps, children: seq<Node>)
    ensures var r := LanguageAttributes(ops, children);
            && |r| <= |children|
            && forall j :: 0 <= j < |r| ==> LanguagePrefix <= r[j]
  {
    if children != [] {
      var last := children[|children| - 1];
      LanguageAttributesPrefixed(ops, children[..|children| - 1]);
      if last.kind == FenceLang {
        LanguageAttributeShape(ops, last);
      }
    }
  }

  /** The opening tag is closed exactly once, by its last fragment: every
      fragment between `<pre><code` and `>` is a language attribute. */
  lemma {:induction false} OpeningTagClosedOnce(ops: LeafOps, children: seq<Node>)
    ensures var r := OpeningTag(ops, children);
            && |r| >= 2 && r[0] == PreCode && r[|r| - 1] == ">"
            && forall j :: 0 < j < |r| - 1 ==> LanguagePrefix <= r[j]
  {
    var attrs := LanguageAttributes(ops, children[..FirstEol(children)]);
    LanguageAttributesPrefixed(ops, children[..FirstEol(children)]);
    var r := OpeningTag(ops, children);
    assert forall j :: 0 < j < |r| - 1 ==> r[j] == attrs[j - 1];
  }

  /** A fenced block is its opening tag followed by at least the closing
      tags, which come last. */
  lemma {:induction false} FenceHtmlFrame(ops: LeafOps, indent: nat, children: seq<Node>)
    ensures var r := FenceHtml(ops, indent, children);
            && OpeningTag(ops, children) <= r
            && |r| >= 3 && r[|r| - 1] == CodePre
  {
    var body := AfterFirstLine(children);
    var tail := BodyFragments(ops, indent, body) + (if EndsWithEol(body) then [] else ["\n"]) + [CodePre];
    assert FenceHtml(ops, indent, children) == OpeningTag(ops, children) + tail;
  }

  /** The line-break child whose rendering ends the content. */
  lemma {:induction false} EndsWithEolRendersEol(ops: LeafOps, indent: nat, children: seq<Node>)
    requires EndsWithEol(children)
    ensures var r := BodyFragments(ops, indent, children);
            r != [] && exists i :: 0 <= i < |children| && children[i].kind == Eol && r[|r| - 1] == LineText(ops, indent, children[i])
  {
    var last := children[|children| - 1];
    if last.kind != Eol {
      var init := children[..|children| - 1];
      EndsWithEolRendersEol(ops, indent, init);
      var frags := BodyFragments(ops, indent, init);
      var i :| 0 <= i < |init| && init[i].kind == Eol && frags[|frags| - 1] == LineText(ops, indent, init[i]);
      assert children[i] == init[i];
    }
  }

  /** `</code></pre>` always starts a line of its own: the fragment before
      it is an extra newline, or the rendering of a line break child that
      comes after the first line break. */
  lemma {:induction false} CloseOnItsOwnLine(ops: LeafOps, indent: nat, children: seq<Node>)
    ensures var r := FenceHtml(ops, indent, children);
            var e := FirstEol(children);
            |r| >= 3 &&
            (|| r[|r| - 2] == "\n"
             || exists i :: e < i < |children| && children[i].kind == Eol && r[|r| - 2] == LineText(ops, indent, children[i]))
  {
    var r := FenceHtml(ops, indent, children);
    var e := FirstEol(children);
    var body := AfterFirstLine(children);
    var frags := BodyFragments(ops, indent, body);
    if EndsWithEol(body) {
      EndsWithEolRendersEol(ops, indent, body);
      var i :| 0 <= i < |body| && body[i].kind == Eol && frags[|frags| - 1] == LineText(ops, indent, body[i]);
      assert r == OpeningTag(ops, children) + frags + [CodePre];
      assert r[|r| - 2] == frags[|frags| - 1];
      assert body[i] == children[e + 1 + i];
    } else {
      assert r == OpeningTag(ops, children) + frags + ["\n", CodePre];
    }
  }

  /** A trailing fence end is never visited: dropping it first changes
      nothing. */
  lemma {:induction false} FenceEndIgnored(text: string, node: Node, ops: LeafOps, endNode: Node)
    requires InText(node, text) && |node.children| >= 1
    requires endNode.kind == CodeFenceEnd
    ensures CodeFenceHtml(text, node.(children := node.children + [endNode]), ops)
            == FenceHtml(ops, IndentBefore(TextInNode(node, text)), node.children)
  {
    var kids := node.children + [endNode];
    assert kids[..|kids| - 1] == node.children;
  }

  /** A fence with no line break at all, such as an unterminated one-line
      fence, still closes its opening tag and gets a newline. */
  lemma {:induction false} FenceWithoutLineBreak(ops: LeafOps, indent: nat, children: seq<Node>)
    requires forall i :: 0 <= i < |children| ==> children[i].kind != Eol
    ensures FenceHtml(ops, indent, children)
            == [PreCode] + LanguageAttributes(ops, children) + [">", "\n", CodePre]
  {
    FirstEolIsFirst(children);
    assert children[..|children|] == children;
    assert AfterFirstLine(children) == [];
  }

  /** The whole output starts with `<pre><code` and ends with
      `</code></pre>`. */
  lemma {:induction false} CodeFenceHtmlFrame(text: string, node: Node, ops: LeafOps)
    requires InText(node, text)
    requires |node.children| >= 1
    ensures var r := CodeFenceHtml(text, node, ops);
            |r| >= 3 && r[0] == PreCode && r[|r| - 1] == CodePre
  {
    var children := ChildrenToConsider(node.children);
    var indent := IndentBefore(TextInNode(node, text));
    FenceHtmlFrame(ops, indent, children);
    OpeningTagClosedOnce(ops, children);
    assert OpeningTag(ops, children)[0] == FenceHtml(ops, indent, children)[0];
  }

  /** `EndsWithEol` holds exactly when some line break is followed by no
      content child. */
  lemma {:induction false} EndsWithEolMeaning(children: seq<Node>)
    ensures EndsWithEol(children) <==>
              exists i :: 0 <= i < |children| && children[i].kind == Eol
                          && forall j :: i < j < |children| ==> children[j].kind != CodeFenceContent
  {
    if children != [] {
      var n := |children|;
      var last := children[n - 1];
      if last.kind == Eol {
        assert children[n - 1].kind == Eol;
      } else if last.kind == CodeFenceContent {
        assert forall i :: 0 <= i < n && children[i].kind == Eol ==> i < n - 1 && children[n - 1].kind == CodeFenceContent;
      } else {
        var init := children[..n - 1];
        EndsWithEolMeaning(init);
        if EndsWithEol(init) {
          var i :| 0 <= i < |init| && init[i].kind == Eol
                   && forall j :: i < j < |init| ==> init[j].kind != CodeFenceContent;
          assert children[i].kind == Eol;
          assert forall j :: i < j < n ==> children[j].kind != CodeFenceContent by {
            forall j | i < j < n
              ensures children[j].kind != CodeFenceContent
            {
              if j < n - 1 {
                assert children[j] == init[j];
              }
            }
          }
        } else {
          forall i | 0 <= i < n && children[i].kind == Eol
            ensures exists j :: i < j < n && children[j].kind == CodeFenceContent
          {
            assert i < n - 1;
            assert init[i].kind == Eol;
            var j :| i < j < |init| && init[j].kind == CodeFenceContent;
            assert children[j] == init[j];
          }
        }
      }
    }
  }

  /** After the loop, `lastChildWasEol` holds exactly when a line break
      after the first one is followed by no content child: the last
      fragment emitted in state 1 was a line break. */
  lemma {:induction false} LastChildWasEolMeaning(ops: LeafOps, indent: nat, children: seq<Node>)
    ensures Run(ops, indent, children).st.lastChildWasEol <==>
              exists i :: FirstEol(children) < i < |children| && children[i].kind == Eol
                          && forall j :: i < j < |children| ==> children[j].kind != CodeFenceContent
  {
    RunInvariant(ops, indent, children);
    var e := FirstEol(children);
    if e < |children| {
      var body := children[e + 1..];
      EndsWithEolMeaning(body);
      if EndsWithEol(body) {
        var i :| 0 <= i < |body| && body[i].kind == Eol
                 && forall j :: i < j < |body| ==> body[j].kind != CodeFenceContent;
        assert children[e + 1 + i] == body[i];
        forall j | e + 1 + i < j < |children|
          ensures children[j].kind != CodeFenceContent
        {
          assert children[j] == body[j - e - 1];
        }
      } else {
        forall i | e < i < |children| && children[i].kind == Eol
          ensures exists j :: i < j < |children| && children[j].kind == CodeFenceContent
        {
          assert body[i - e - 1].kind == Eol;
          var j :| i - e - 1 < j < |body| && body[j].kind == CodeFenceContent;
          assert children[e + 1 + j] == body[j];
        }
      }
    }
  }

  /** A child that is neither content nor a line break, and is not an info
      string read before the first line break, emits nothing: appending
      it leaves the output unchanged. */
  lemma {:induction false} IgnoredChildEmitsNothing(ops: LeafOps, indent: nat, children: seq<Node>, child: Node)
    requires child.kind != CodeFenceContent && child.kind != Eol
    requires child.kind == FenceLang ==> exists i :: 0 <= i < |children| && children[i].kind == Eol
    ensures FenceHtml(ops, indent, children + [child]) == FenceHtml(ops, indent, children)
  {
    var extended := children + [child];
    assert extended[..|extended| - 1] == children;
    StateOneAfterEol(ops, indent, children);
    LoopMatchesSpec(ops, indent, children);
    LoopMatchesSpec(ops, indent, extended);
  }

  // ---------------------------------------------------------------------
  // The provider

  /** The last three steps of `processNode`: close the opening tag if no
      line break did, end the last line if it is still open, and close
      the block. */
  method CloseFence(v: Visitor, state: int, lastChildWasEol: bool)
    modifies v
    ensures v.output == old(v.output) + Finish(FenceState(state, lastChildWasEol))
  {
    if state == 0 {
      v.ConsumeHtml(">");
    }
    if !lastChildWasEol {
      v.ConsumeHtml("\n");
    }
    v.ConsumeHtml(CodePre);
  }

  /** `CodeFenceGeneratingProvider.processNode`: open the block, run the
      loop over the children, then close it. */
  method ProcessNode(v: Visitor, text: string, node: Node, ops: LeafOps)
    requires InText(node, text)
    requires |node.children| >= 1
    modifies v
    ensures v.output == old(v.output) + CodeFenceHtml(text, node, ops)
  {
    var indentBefore := IndentBefore(TextInNode(node, text));

    v.ConsumeHtml(PreCode);
    var state := 0;

    var childrenToConsider := node.children;
    if childrenToConsider[|childrenToConsider| - 1].kind == CodeFenceEnd {
      childrenToConsider := childrenToConsider[..|childrenToConsider| - 1];
    }

    var lastChildWasEol := false;
    ghost var afterOpen := v.output;

    for i := 0 to |childrenToConsider|
      invariant Run(ops, indentBefore, childrenToConsider[..i]).st == FenceState(state, lastChildWasEol)
      invariant v.output == afterOpen + Run(ops, indentBefore, childrenToConsider[..i]).emitted
    {
      var child := childrenToConsider[i];
      ghost var before := Run(ops, indentBefore, childrenToConsider[..i]);
      ghost var step := Step(ops, indentBefore, before.st, child);
      RunPrefixStep(ops, indentBefore, childrenToConsider, i);

      if state == 1 && (child.kind == CodeFenceContent || child.kind == Eol) {
        v.ConsumeHtml(ops.trimIndents(ops.leafText(child), indentBefore));
        lastChildWasEol := child.kind == Eol;
      }
      if state == 0 && child.kind == FenceLang {
        v.ConsumeHtml(LanguageAttribute(ops, child));
      }
      if state == 0 && child.kind == Eol {
        state := 1;
        v.ConsumeHtml(">");
      }

      AppendAssoc(afterOpen, before.emitted, step.emitted);
    }
    ghost var t := Run(ops, indentBefore, childrenToConsider);
    assert childrenToConsider[..|childrenToConsider|] == childrenToConsider;
    assert childrenToConsider == ChildrenToConsider(node.children);
    CodeFenceHtmlIsLoop(text, node, ops);
    AppendRegroup(old(v.output), [PreCode], t.emitted, Finish(t.st));

    CloseFence(v, state, lastChildWasEol);
  }
}

/** typesetMathInGraphSvg: the pass that replaces each text node of a rendered graph whose
    content holds a TeX formula by a group holding MathJax's rendering of that formula,
    scaled and moved so that it sits where the text was.

    The graph's SVG is a sequence of nodes; querySelectorAll("text") is the list of positions
    of its text nodes. MathJax's tex2svgPromise is a function from TeX source to a conversion
    (an SVG with its bounding box, a wrapper without an SVG, or a rejected promise), and
    getBBox is the box carried by a text node or by MathJax's SVG. Number-to-string
    conversion inside the transform template is a parameter. */
module Typeset {
  import opened Wrappers
  import opened TeX

  /** An SVG bounding box */
  datatype Box = Box(x: real, y: real, width: real, height: real)

  /** What MathJax produced for a formula: its markup and the box it occupies once inserted */
  datatype MathSvg = MathSvg(markup: string, box: Box)

  /** The settled tex2svgPromise: a wrapper holding an <svg>, a wrapper without one, or a
      rejection */
  datatype Conversion = Converted(svg: MathSvg) | NoSvg | Rejected

  /** A child of the graph's SVG: a <text> node with its textContent and bounding box, a <g>
      wrapping an imported MathJax SVG with its transform attribute, or any other element */
  datatype Node =
    | Text(content: string, box: Box)
    | Group(math: MathSvg, transform: Option<string>)
    | Shape(tag: string)

  // ---------------------------------------------------------------- centring arithmetic

  /** translate(tx ty) scale(s) */
  datatype Placement = Placement(tx: real, ty: real, s: real)

  /** The scale maps the new box's height onto the old one (a new height of 0 counts as 1),
      and the translation puts the scaled centre of the new box on the centre of the old */
  function Centre(oldBox: Box, newBox: Box): (p: Placement)
    ensures p.s * (newBox.x + newBox.width / 2.0) + p.tx == oldBox.x + oldBox.width / 2.0
    ensures p.s * (newBox.y + newBox.height / 2.0) + p.ty == oldBox.y + oldBox.height / 2.0
    ensures newBox.height != 0.0 ==> p.s * newBox.height == oldBox.height
    ensures newBox.height == 0.0 ==> p.s == oldBox.height
  {
    var cx := oldBox.x + oldBox.width / 2.0;
    var cy := oldBox.y + oldBox.height / 2.0;
    var s := oldBox.height / (if newBox.height == 0.0 then 1.0 else newBox.height);
    Placement(cx - (newBox.x + newBox.width / 2.0) * s, cy - (newBox.y + newBox.height / 2.0) * s, s)
  }

  /** A formula twice as tall as its text is drawn at half size */
  lemma ExampleHalfScale()
    ensures Centre(Box(0.0, 0.0, 30.0, 10.0), Box(5.0, -15.0, 40.0, 20.0)) == Placement(2.5, 7.5, 0.5)
  {
  }

  // ---------------------------------------------------------------- the transform attribute

  /** The template `translate(${tx} ${ty}) scale(${s})`, with fmt standing for JavaScript's
      number-to-string conversion */
  function TransformAttr(p: Placement, fmt: real -> string): string {
    "translate(" + fmt(p.tx) + " " + fmt(p.ty) + ") scale(" + fmt(p.s) + ")"
  }

  /** s split at the first occurrence of c */
  function SplitAt(s: string, c: char): (r: Option<(string, string)>)
    ensures r.None? <==> c !in s
    ensures r.Some? ==> c !in r.value.0 && s == r.value.0 + [c] + r.value.1
  {
    if s == [] then None
    else if s[0] == c then Some(([], s[1..]))
    else match SplitAt(s[1..], c)
      case None => None
      case Some((before, after)) =>
        assert s == [s[0]] + s[1..];
        Some(([s[0]] + before, after))
  }

  lemma {:induction false} SplitAtJoin(a: string, c: char, b: string)
    requires c !in a
    ensures SplitAt(a + [c] + b, c) == Some((a, b))
  {
    if a != [] {
      assert a[0] != c && (a + [c] + b)[0] == a[0];
      assert (a + [c] + b)[1..] == a[1..] + [c] + b;
      assert a == [a[0]] + a[1..];
      SplitAtJoin(a[1..], c, b);
    } else {
      assert a + [c] + b == [c] + b;
    }
  }

  /** Reads the three numbers back out of a transform attribute */
  function ParseTransform(attr: string): Option<(string, string, string)> {
    var open := "translate(";
    var mid := " scale(";
    if |attr| < |open| || attr[..|open|] != open then None
    else match SplitAt(attr[|open|..], ' ')
      case None => None
      case Some((x, rest)) =>
        match SplitAt(rest, ')')
        case None => None
        case Some((y, tail)) =>
          if |tail| < |mid| + 1 || tail[..|mid|] != mid || tail[|tail| - 1] != ')' then None
          else Some((x, y, tail[|mid|..|tail| - 1]))
  }

  /** The attribute holds the three formatted numbers, in order, and nothing else: reading it
      back gives them, provided the number format writes no spaces or parentheses (as
      JavaScript's does not) */
  lemma TransformReadsBack(p: Placement, fmt: real -> string)
    requires ' ' !in fmt(p.tx) && ')' !in fmt(p.ty)
    ensures ParseTransform(TransformAttr(p, fmt)) == Some((fmt(p.tx), fmt(p.ty), fmt(p.s)))
  {
    var attr := TransformAttr(p, fmt);
    var open := "translate(";
    var mid := " scale(";
    var x, y, s := fmt(p.tx), fmt(p.ty), fmt(p.s);
    var tail := mid + s + ")";
    assert attr == open + (x + [' '] + (y + [')'] + tail));
    assert attr[..|open|] == open;
    assert attr[|open|..] == x + [' '] + (y + [')'] + tail);
    SplitAtJoin(x, ' ', y + [')'] + tail);
    SplitAtJoin(y, ')', tail);
    assert tail[..|mid|] == mid;
    assert tail[|mid|..|tail| - 1] == s;
  }

  // ---------------------------------------------------------------- one node

  /** What the loop body does with one node of the snapshot */
  datatype Outcome = Keep | Replace(g: Node) | Abort

  /** The loop body for a node: a text node is skipped when the guard rejects its content,
      when the extracted body is null or "", or when MathJax's wrapper holds no <svg>; a
      rejected conversion ends the pass; otherwise the node gives way to a group holding the
      SVG, transformed by the centring placement. Other nodes are not selected. */
  function Step(n: Node, mathJax: string -> Conversion, fmt: real -> string): (o: Outcome)
    ensures !n.Text? ==> o == Keep
    ensures o.Replace? ==> o.g.Group? && o.g.transform.Some?
  {
    match n
    case Text(content, box) =>
      if !Guard(content) then Keep
      else (
        match ExtractFirstTeX(content)
        case None => Keep
        case Some(tex) =>
          if tex == "" then Keep
          else (
            match Convert(mathJax, tex)
            case Rejected => Abort
            case NoSvg => Keep
            case Converted(m) => Replace(Group(m, Some(TransformAttr(Centre(box, m.box), fmt))))))
    case _ => Keep
  }

  /** MathJax.tex2svg on a body, as the loop body calls it */
  function Convert(mathJax: string -> Conversion, tex: string): Conversion {
    mathJax(tex)
  }

  /** A node is replaced exactly when its content holds a delimited formula whose trimmed body
      is not empty and MathJax renders that body to an SVG; the group then carries that SVG,
      placed over the text's box */
  lemma StepReplaces(n: Node, mathJax: string -> Conversion, fmt: real -> string)
    ensures Step(n, mathJax, fmt).Replace? <==>
      (n.Text? && ExtractFirstTeX(n.content).Some? && ExtractFirstTeX(n.content).value != "" &&
       mathJax(ExtractFirstTeX(n.content).value).Converted?)
    ensures Step(n, mathJax, fmt).Replace? ==>
      var m := mathJax(ExtractFirstTeX(n.content).value).svg;
      Step(n, mathJax, fmt).g == Group(m, Some(TransformAttr(Centre(n.box, m.box), fmt)))
    ensures Step(n, mathJax, fmt) == Abort <==>
      (n.Text? && ExtractFirstTeX(n.content).Some? && ExtractFirstTeX(n.content).value != "" &&
       mathJax(ExtractFirstTeX(n.content).value) == Rejected)
  {
    if n.Text? {
      GuardAgrees(n.content);
    }
  }

  /** A text node whose body trims to "" (whitespace between the delimiters) is left alone */
  lemma BlankBodyKept(n: Node, mathJax: string -> Conversion, fmt: real -> string)
    requires n.Text? && ExtractFirstTeX(n.content) == Some("")
    ensures Step(n, mathJax, fmt) == Keep
  {
  }

  // ---------------------------------------------------------------- the pass

  /** The positions of the text nodes from i on, in document order */
  function TextPositionsFrom(ns: seq<Node>, i: nat): (ps: seq<nat>)
    requires i <= |ns|
    ensures forall k :: 0 <= k < |ps| ==> i <= ps[k] < |ns| && ns[ps[k]].Text?
    ensures forall k, l :: 0 <= k < l < |ps| ==> ps[k] < ps[l]
    ensures forall p :: i <= p < |ns| && ns[p].Text? ==> p in ps
    decreases |ns| - i
  {
    if i == |ns| then []
    else if ns[i].Text? then [i] + TextPositionsFrom(ns, i + 1)
    else TextPositionsFrom(ns, i + 1)
  }

  /** querySelectorAll("text"), taken once before the loop */
  function TextPositions(ns: seq<Node>): seq<nat> {
    TextPositionsFrom(ns, 0)
  }

  /** The loop body as a function value, for the pass */
  function StepWith(mathJax: string -> Conversion, fmt: real -> string): (step: Node -> Outcome)
    ensures forall n :: step(n) == Step(n, mathJax, fmt)
  {
    n => Step(n, mathJax, fmt)
  }

  /** The loop from position i on, for any loop body step: each node is visited once, in
      order, with the node as it was in the snapshot; a rejection ends the pass */
  function PassFrom(ns: seq<Node>, i: nat, step: Node -> Outcome): (r: seq<Node>)
    requires i <= |ns|
    ensures |r| == |ns|
    decreases |ns| - i
  {
    if i == |ns| then ns
    else match step(ns[i])
      case Keep => PassFrom(ns, i + 1, step)
      case Replace(g) => PassFrom(ns[i := g], i + 1, step)
      case Abort => ns
  }

  /** The whole pass of typesetMathInGraphSvg over the nodes of a graph */
  function Pass(ns: seq<Node>, mathJax: string -> Conversion, fmt: real -> string): (r: seq<Node>)
    ensures |r| == |ns|
  {
    PassFrom(ns, 0, StepWith(mathJax, fmt))
  }

  /** No rejection among the nodes at positions i through k */
  ghost predicate RunsTo(ns: seq<Node>, i: nat, k: nat, step: Node -> Outcome)
    requires k < |ns|
  {
    forall m :: i <= m <= k ==> step(ns[m]) != Abort
  }

  /** The node at position k after the loop from i: untouched before i; from i on, replaced
      by its group when the pass reaches it and the node is replaceable, else unchanged */
  lemma {:induction false} PassFromAt(ns: seq<Node>, i: nat, k: nat, step: Node -> Outcome)
    requires i <= |ns| && k < |ns|
    ensures PassFrom(ns, i, step)[k] ==
              if i <= k && RunsTo(ns, i, k, step) && step(ns[k]).Replace? then step(ns[k]).g else ns[k]
    decreases |ns| - i
  {
    if i < |ns| {
      match step(ns[i])
      case Keep =>
        PassFromAt(ns, i + 1, k, step);
      case Replace(g) =>
        var ns' := ns[i := g];
        PassFromAt(ns', i + 1, k, step);
        if i < k {
          assert forall m :: i + 1 <= m <= k ==> ns'[m] == ns[m];
        }
      case Abort =>
    }
  }

  /** Non-text nodes, including groups from an earlier pass, are never changed */
  lemma PassKeepsOthers(ns: seq<Node>, k: nat, mathJax: string -> Conversion, fmt: real -> string)
    requires k < |ns| && !ns[k].Text?
    ensures Pass(ns, mathJax, fmt)[k] == ns[k]
  {
    PassFromAt(ns, 0, k, StepWith(mathJax, fmt));
  }

  /** Up to the first rejection, every node becomes what its own step makes of it; from the
      rejected node on, nothing changes */
  lemma PassAt(ns: seq<Node>, k: nat, mathJax: string -> Conversion, fmt: real -> string)
    requires k < |ns|
    ensures (forall m :: 0 <= m <= k ==> Step(ns[m], mathJax, fmt) != Abort) ==>
              Pass(ns, mathJax, fmt)[k] ==
                (if Step(ns[k], mathJax, fmt).Replace? then Step(ns[k], mathJax, fmt).g else ns[k])
    ensures (exists m :: 0 <= m <= k && Step(ns[m], mathJax, fmt) == Abort) ==>
              Pass(ns, mathJax, fmt)[k] == ns[k]
  {
    PassFromAt(ns, 0, k, StepWith(mathJax, fmt));
  }

  /** A second pass over the result changes nothing: the groups the first inserted are not
      selected, and every text node it left is skipped or rejected again */
  lemma {:induction false} PassFromIdempotent(ns: seq<Node>, i: nat, step: Node -> Outcome)
    requires i <= |ns|
    requires forall n: Node :: n.Group? ==> step(n) == Keep
    requires forall n: Node :: step(n).Replace? ==> step(n).g.Group?
    ensures PassFrom(PassFrom(ns, i, step), i, step) == PassFrom(ns, i, step)
    decreases |ns| - i
  {
    if i < |ns| {
      var r := PassFrom(ns, i, step);
      match step(ns[i])
      case Keep =>
        PassFromIdempotent(ns, i + 1, step);
        PassFromAt(ns, i + 1, i, step);
        assert r[i] == ns[i];
      case Replace(g) =>
        var ns' := ns[i := g];
        PassFromIdempotent(ns', i + 1, step);
        PassFromAt(ns', i + 1, i, step);
        assert r[i] == g;
      case Abort =>
    }
  }

  lemma PassIdempotent(ns: seq<Node>, mathJax: string -> Conversion, fmt: real -> string)
    ensures Pass(Pass(ns, mathJax, fmt), mathJax, fmt) == Pass(ns, mathJax, fmt)
  {
    PassFromIdempotent(ns, 0, StepWith(mathJax, fmt));
  }

  /** Positions i to j - 1 hold no text node: the loop passes over them */
  lemma {:induction false} PassSkips(ns: seq<Node>, i: nat, j: nat, step: Node -> Outcome)
    requires i <= j <= |ns|
    requires forall p :: i <= p < j ==> step(ns[p]) == Keep
    ensures PassFrom(ns, i, step) == PassFrom(ns, j, step)
    decreases j - i
  {
    if i < j {
      PassSkips(ns, i + 1, j, step);
    }
  }

  // ---------------------------------------------------------------- the graph's SVG

  /** The graph's SVG root, as the sequence of nodes the pass works on */
  class GraphSvg {
    var children: seq<Node>

    constructor (nodes: seq<Node>)
      ensures children == nodes
    {
      children := nodes;
    }

    /** t.parentNode.insertBefore(g, t) for the node t at position p */
    method InsertBefore(g: Node, p: nat)
      requires p < |children|
      modifies this
      ensures children == old(children[..p]) + [g] + old(children[p..])
    {
      children := children[..p] + [g] + children[p..];
    }

    /** g.setAttribute("transform", value) for the group at position p */
    method SetTransform(p: nat, value: string)
      requires p < |children| && children[p].Group?
      modifies this
      ensures children == old(children)[p := old(children[p]).(transform := Some(value))]
    {
      children := children[p := children[p].(transform := Some(value))];
    }

    /** t.remove() for the node at position p */
    method Remove(p: nat)
      requires p < |children|
      modifies this
      ensures children == old(children[..p]) + old(children[p + 1..])
    {
      children := children[..p] + children[p + 1..];
    }
  }

  /** Inserting before p, setting the inserted node to g and removing the old node at p + 1
      replaces position p by g */
  lemma InsertSetRemove(before: seq<Node>, grown: seq<Node>, inserted: seq<Node>, after: seq<Node>, p: nat, g: Node)
    requires p < |before| && |grown| == |before| + 1
    requires grown == before[..p] + [grown[p]] + before[p..]
    requires inserted == grown[p := g]
    requires after == inserted[..p + 1] + inserted[p + 2..]
    ensures after == before[p := g]
  {
  }

  /** The loop body for the text node t at position p: the guard, extractFirstTeX, the
      conversion, and the replacement of t by a transformed group. Reports whether the
      conversion was rejected, which ends the pass. */
  method TypesetNode(svg: GraphSvg, p: nat, mathJax: string -> Conversion, fmt: real -> string)
    returns (rejected: bool)
    requires p < |svg.children| && svg.children[p].Text?
    modifies svg
    ensures rejected <==> Step(old(svg.children[p]), mathJax, fmt) == Abort
    ensures var o := Step(old(svg.children[p]), mathJax, fmt);
            svg.children == if o.Replace? then old(svg.children)[p := o.g] else old(svg.children)
  {
    ghost var before := svg.children;
    var t := svg.children[p];
    var raw := t.content;
    if !Guard(raw) {
      return false;
    }
    var tex := ExtractFirstTeX(raw);
    if tex.None? || tex.value == "" {
      return false;
    }
    var oldBox := t.box;
    var conversion := Convert(mathJax, tex.value);
    if conversion.Rejected? {
      return true;
    }
    if conversion.NoSvg? {
      return false;
    }
    var mjxSvg := conversion.svg;
    svg.InsertBefore(Group(mjxSvg, None), p);
    ghost var grown := svg.children;
    var newBox := mjxSvg.box;
    var placement := Centre(oldBox, newBox);
    svg.SetTransform(p, TransformAttr(placement, fmt));
    ghost var inserted := svg.children;
    svg.Remove(p + 1);
    ghost var g := Group(mjxSvg, Some(TransformAttr(placement, fmt)));
    InsertSetRemove(before, grown, inserted, svg.children, p, g);
    assert Step(t, mathJax, fmt) == Replace(g);
    return false;
  }

  /** The position of the snapshot's n-th entry, or the end */
  function Cursor(texts: seq<nat>, n: nat, end: nat): nat {
    if n < |texts| then texts[n] else end
  }

  /** What holds before the loop visits the n-th entry of the snapshot texts of orig: cur,
      the nodes so far, agrees with orig from that entry on, and finishing the pass from there
      gives what the pass over orig gives */
  ghost predicate Visiting(orig: seq<Node>, texts: seq<nat>, n: nat, cur: seq<Node>, step: Node -> Outcome) {
    texts == TextPositions(orig) && n <= |texts| && |cur| == |orig| &&
    cur[Cursor(texts, n, |orig|)..] == orig[Cursor(texts, n, |orig|)..] &&
    PassFrom(cur, Cursor(texts, n, |orig|), step) == PassFrom(orig, 0, step)
  }

  /** Between two consecutive entries of the snapshot there are only non-text nodes */
  lemma SnapshotGap(orig: seq<Node>, texts: seq<nat>, n: nat, q: nat)
    requires texts == TextPositions(orig) && n <= |texts|
    requires (if n == 0 then 0 else texts[n - 1] + 1) <= q < Cursor(texts, n, |orig|)
    ensures !orig[q].Text?
  {
  }

  /** Before the first entry */
  lemma VisitingFirst(orig: seq<Node>, step: Node -> Outcome)
    requires forall n: Node :: !n.Text? ==> step(n) == Keep
    ensures Visiting(orig, TextPositions(orig), 0, orig, step)
  {
    var texts := TextPositions(orig);
    forall q | 0 <= q < Cursor(texts, 0, |orig|) ensures step(orig[q]) == Keep {
      SnapshotGap(orig, texts, 0, q);
    }
    PassSkips(orig, 0, Cursor(texts, 0, |orig|), step);
  }

  /** The n-th entry is a text node that the loop has not touched yet */
  lemma VisitingAt(orig: seq<Node>, texts: seq<nat>, n: nat, cur: seq<Node>, step: Node -> Outcome)
    requires Visiting(orig, texts, n, cur, step) && n < |texts|
    ensures texts[n] < |cur| && cur[texts[n]] == orig[texts[n]] && cur[texts[n]].Text?
  {
  }

  /** A rejection at the n-th entry: the nodes so far are the pass's result */
  lemma VisitingRejected(orig: seq<Node>, texts: seq<nat>, n: nat, cur: seq<Node>, step: Node -> Outcome)
    requires Visiting(orig, texts, n, cur, step) && n < |texts|
    requires step(cur[texts[n]]) == Abort
    ensures cur == PassFrom(orig, 0, step)
  {
  }

  /** The n-th entry kept or replaced by its step: the loop moves on to the next entry */
  lemma VisitingNext(orig: seq<Node>, texts: seq<nat>, n: nat, cur: seq<Node>, next: seq<Node>, step: Node -> Outcome)
    requires forall n: Node :: !n.Text? ==> step(n) == Keep
    requires Visiting(orig, texts, n, cur, step) && n < |texts|
    requires var o := step(cur[texts[n]]);
             o != Abort && next == if o.Replace? then cur[texts[n] := o.g] else cur
    ensures Visiting(orig, texts, n + 1, next, step)
  {
    var p := texts[n];
    var q := Cursor(texts, n + 1, |orig|);
    VisitingAt(orig, texts, n, cur, step);
    assert p < q;
    assert PassFrom(cur, p, step) == PassFrom(next, p + 1, step);
    forall k | p + 1 <= k < q ensures step(next[k]) == Keep {
      assert next[k] == cur[k] == cur[p..][k - p] == orig[k];
      SnapshotGap(orig, texts, n + 1, k);
    }
    PassSkips(next, p + 1, q, step);
    forall k | q <= k < |orig| ensures next[k] == orig[k] {
      assert next[k] == cur[k] == cur[p..][k - p];
    }
  }

  /** typesetMathInGraphSvg(svgRoot), with ready the result of mjxReady(): without MathJax
      nothing is read or changed; otherwise the SVG ends as the pass over its original nodes
      leaves it */
  method TypesetMathInGraphSvg(svg: GraphSvg, ready: bool, mathJax: string -> Conversion, fmt: real -> string)
    modifies svg
    ensures !ready ==> svg.children == old(svg.children)
    ensures ready ==> svg.children == Pass(old(svg.children), mathJax, fmt)
  {
    if !ready {
      return;
    }
    ghost var orig := svg.children;
    ghost var step := StepWith(mathJax, fmt);
    var texts := TextPositions(svg.children);
    VisitingFirst(orig, step);
    for n := 0 to |texts|
      invariant Visiting(orig, texts, n, svg.children, step)
    {
      var p := texts[n];
      VisitingAt(orig, texts, n, svg.children, step);
      ghost var before := svg.children;
      var rejected := TypesetNode(svg, p, mathJax, fmt);
      if rejected {
        VisitingRejected(orig, texts, n, before, step);
        return;
      }
      VisitingNext(orig, texts, n, before, svg.children, step);
    }
  }
}

/**
 * `auto_fix_counters` and `indent_xml`: the counter repair rewrites the root's `total` and
 * `completed` attributes to the real counts and re-indents the tree before it is written back.
 */
module Repair {
  import opened Wrappers
  import opened Text
  import opened Xml
  import opened Findings
  import opened Rules

  // ---------------------------------------------------------------------------------------
  // `indent_xml`.

  /** `"\n" + level * "  "`. */
  function Indentation(level: nat): (s: string)
    ensures |s| == 1 + 2 * level && s[0] == '\n' && IsBlank(s)
    ensures forall k :: 1 <= k < |s| ==> s[k] == ' '
  {
    if level == 0 then "\n" else Indentation(level - 1) + "  "
  }

  /** A text or tail that is absent or blank is replaced by `fill`; any other is kept. */
  function Fill(t: Option<string>, fill: string): Option<string> {
    if BlankText(t) then Some(fill) else t
  }

  /**
   * The element as `indent_xml(elem, level)` leaves it. An element with children gets the
   * indentation of its first child as text and its own indentation as tail, its children are
   * indented one level deeper, and then the last child's tail closes back to this level. A
   * childless element below the root only gets a tail.
   */
  function Indented(e: Element, level: nat): Element
    decreases e
  {
    var i := Indentation(level);
    if |e.children| > 0 then
      var kids := seq(|e.children|, k requires 0 <= k < |e.children| => Indented(e.children[k], level + 1));
      var last := kids[|kids| - 1];
      e.(text := Fill(e.text, i + "  "), tail := Fill(e.tail, i),
         children := kids[..|kids| - 1] + [last.(tail := Fill(last.tail, i))])
    else if level > 0 then e.(tail := Fill(e.tail, i))
    else e
  }

  /** An element with children, indented: its new text, tail and children one by one. */
  lemma IndentedWithChildren(e: Element, level: nat, text: Option<string>, tail: Option<string>,
                             kids: seq<Element>, last: Element)
    requires |e.children| > 0 && |kids| == |e.children|
    requires text == Fill(e.text, Indentation(level) + "  ") && tail == Fill(e.tail, Indentation(level))
    requires forall j :: 0 <= j < |kids| ==> kids[j] == Indented(e.children[j], level + 1)
    requires last == kids[|kids| - 1].(tail := Fill(kids[|kids| - 1].tail, Indentation(level)))
    ensures Indented(e, level) == e.(text := text, tail := tail, children := kids[..|kids| - 1] + [last])
  {
    assert kids == seq(|e.children|, k requires 0 <= k < |e.children| => Indented(e.children[k], level + 1));
  }

  /** `indent_xml`: the loop over the children with a recursive call for each. */
  method IndentXml(e: Element, level: nat) returns (r: Element)
    ensures r == Indented(e, level)
    decreases e
  {
    var i := Indentation(level);
    if |e.children| > 0 {
      var text := e.text;
      if BlankText(text) {
        text := Some(i + "  ");
      }
      var tail := e.tail;
      if BlankText(tail) {
        tail := Some(i);
      }
      var kids: seq<Element> := [];
      var k := 0;
      while k < |e.children|
        invariant 0 <= k <= |e.children|
        invariant |kids| == k
        invariant forall j :: 0 <= j < k ==> kids[j] == Indented(e.children[j], level + 1)
      {
        var child := IndentXml(e.children[k], level + 1);
        kids := kids + [child];
        k := k + 1;
      }
      var last := kids[|kids| - 1];
      if BlankText(last.tail) {
        last := last.(tail := Some(i));
      }
      IndentedWithChildren(e, level, text, tail, kids, last);
      r := e.(text := text, tail := tail, children := kids[..|kids| - 1] + [last]);
    } else if level > 0 && BlankText(e.tail) {
      r := e.(tail := Some(i));
    } else {
      r := e;
    }
  }

  // ---------------------------------------------------------------------------------------
  // Re-indentation only touches blank text.

  /** Two texts (or tails) that are both blank, or equal. */
  predicate SameUpToBlank(a: Option<string>, b: Option<string>) {
    BlankText(a) == BlankText(b) && (!BlankText(a) ==> a == b)
  }

  /**
   * `b` is `a` with possibly different blank texts and tails: same tags, attributes and child
   * order, and every non-blank text and tail unchanged.
   */
  predicate Reformatted(a: Element, b: Element)
    decreases a
  {
    && a.tag == b.tag && a.attrs == b.attrs
    && SameUpToBlank(a.text, b.text) && SameUpToBlank(a.tail, b.tail)
    && |a.children| == |b.children|
    && forall k :: 0 <= k < |a.children| ==> Reformatted(a.children[k], b.children[k])
  }

  predicate ReformattedSeq(xs: seq<Element>, ys: seq<Element>) {
    |xs| == |ys| && forall k :: 0 <= k < |xs| ==> Reformatted(xs[k], ys[k])
  }

  lemma FillKeepsText(t: Option<string>, fill: string)
    requires IsBlank(fill)
    ensures SameUpToBlank(t, Fill(t, fill))
  {
  }

  /** `indent_xml` changes nothing but blank texts and tails, and leaves them blank. */
  lemma {:induction false} IndentedReformats(e: Element, level: nat)
    ensures Reformatted(e, Indented(e, level))
    decreases e
  {
    var i := Indentation(level);
    var r := Indented(e, level);
    if |e.children| > 0 {
      var n := |e.children|;
      forall k | 0 <= k < n
        ensures Reformatted(e.children[k], r.children[k])
      {
        IndentedReformats(e.children[k], level + 1);
        if k == n - 1 {
          var last := Indented(e.children[k], level + 1);
          assert r.children[k] == last.(tail := Fill(last.tail, i));
        }
      }
    }
  }

  /** Filling twice with blank strings: the second fill wins only where the text was blank. */
  lemma FillTwice(t: Option<string>, first: string, second: string)
    requires IsBlank(first)
    ensures Fill(Fill(t, first), second) == Fill(t, second)
  {
  }

  /** Below the root an element's own tail is filled independently of everything else. */
  lemma IndentedTail(e: Element, t: Option<string>, level: nat)
    requires level > 0
    ensures Indented(e.(tail := t), level) == Indented(e, level).(tail := Fill(t, Indentation(level)))
  {
    var kids := seq(|e.children|, k requires 0 <= k < |e.children| => Indented(e.children[k], level + 1));
    var kids2 := seq(|e.(tail := t).children|, k requires 0 <= k < |e.children| => Indented(e.(tail := t).children[k], level + 1));
    assert kids == kids2;
  }

  /**
   * The last child of an element indented at `level`, whose own indentation is already stable:
   * indenting it once more and closing it back to `level` gives it back unchanged.
   */
  lemma IndentedLastChild(c: Element, level: nat)
    requires Indented(Indented(c, level + 1), level + 1) == Indented(c, level + 1)
    ensures var last := Indented(c, level + 1);
      var fixed := last.(tail := Fill(last.tail, Indentation(level)));
      var x := Indented(fixed, level + 1);
      x.(tail := Fill(x.tail, Indentation(level))) == fixed
  {
    var i := Indentation(level);
    var last := Indented(c, level + 1);
    var fixed := last.(tail := Fill(last.tail, i));
    IndentedTail(last, Fill(last.tail, i), level + 1);
    FillTwice(last.tail, i, Indentation(level + 1));
    var x := Indented(fixed, level + 1);
    assert x == last.(tail := Fill(last.tail, Indentation(level + 1)));
    FillTwice(last.tail, Indentation(level + 1), i);
  }

  /** Indenting an indented tree changes nothing. */
  lemma {:induction false} IndentedIdempotent(e: Element, level: nat)
    ensures Indented(Indented(e, level), level) == Indented(e, level)
    decreases e
  {
    var i := Indentation(level);
    var r := Indented(e, level);
    if |e.children| > 0 {
      var n := |e.children|;
      var rr := Indented(r, level);
      FillTwice(e.text, i + "  ", i + "  ");
      FillTwice(e.tail, i, i);
      forall k | 0 <= k < n
        ensures rr.children[k] == r.children[k]
      {
        var c := e.children[k];
        IndentedIdempotent(c, level + 1);
        if k < n - 1 {
          assert r.children[k] == Indented(c, level + 1);
        } else {
          var last := Indented(c, level + 1);
          var fixed := last.(tail := Fill(last.tail, i));
          assert r.children[k] == fixed;
          IndentedLastChild(c, level);
          var x := Indented(fixed, level + 1);
          assert rr.children[k] == x.(tail := Fill(x.tail, i));
        }
      }
      assert rr.children == r.children;
    }
  }

  // ---------------------------------------------------------------------------------------
  // Re-indentation keeps what the counters count.

  lemma ReformattedSeqAppend(a: seq<Element>, b: seq<Element>, c: seq<Element>, d: seq<Element>)
    requires ReformattedSeq(a, c) && ReformattedSeq(b, d)
    ensures ReformattedSeq(a + b, c + d)
  {
    forall k | 0 <= k < |a + b|
      ensures Reformatted((a + b)[k], (c + d)[k])
    {
      if k >= |a| {
        assert (a + b)[k] == b[k - |a|] && (c + d)[k] == d[k - |a|];
      }
    }
  }

  lemma {:induction false} SubtreeReformatted(xs: seq<Element>, ys: seq<Element>)
    requires ReformattedSeq(xs, ys)
    ensures ReformattedSeq(Subtree(xs), Subtree(ys))
    decreases xs
  {
    if xs != [] {
      SubtreeReformatted(xs[0].children, ys[0].children);
      SubtreeReformatted(xs[1..], ys[1..]);
      ReformattedSeqAppend([xs[0]], Subtree(xs[0].children), [ys[0]], Subtree(ys[0].children));
      ReformattedSeqAppend([xs[0]] + Subtree(xs[0].children), Subtree(xs[1..]),
                           [ys[0]] + Subtree(ys[0].children), Subtree(ys[1..]));
    }
  }

  lemma {:induction false} WithTagReformatted(xs: seq<Element>, ys: seq<Element>, tag: string)
    requires ReformattedSeq(xs, ys)
    ensures ReformattedSeq(WithTag(xs, tag), WithTag(ys, tag))
  {
    if xs != [] {
      WithTagReformatted(xs[1..], ys[1..], tag);
      var hx := if xs[0].tag == tag then [xs[0]] else [];
      var hy := if ys[0].tag == tag then [ys[0]] else [];
      ReformattedSeqAppend(hx, WithTag(xs[1..], tag), hy, WithTag(ys[1..], tag));
    }
  }

  lemma {:induction false} CompletedReformatted(xs: seq<Element>, ys: seq<Element>)
    requires ReformattedSeq(xs, ys)
    ensures ReformattedSeq(Completed(xs), Completed(ys))
  {
    if xs != [] {
      CompletedReformatted(xs[1..], ys[1..]);
      var hx := if Get(xs[0], "status") == Some("complete") then [xs[0]] else [];
      var hy := if Get(ys[0], "status") == Some("complete") then [ys[0]] else [];
      ReformattedSeqAppend(hx, Completed(xs[1..]), hy, Completed(ys[1..]));
    }
  }

  /** Two trees that differ only in blank texts and tails have the same feature counts. */
  lemma CountsOfReformatted(a: Element, b: Element)
    requires Reformatted(a, b)
    ensures |AllFeatures(a)| == |AllFeatures(b)|
    ensures |Completed(AllFeatures(a))| == |Completed(AllFeatures(b))|
  {
    assert ReformattedSeq(a.children, b.children);
    SubtreeReformatted(a.children, b.children);
    WithTagReformatted(Subtree(a.children), Subtree(b.children), "feature");
    CompletedReformatted(AllFeatures(a), AllFeatures(b));
  }

  // ---------------------------------------------------------------------------------------
  // `auto_fix_counters`.

  /** The root with `total` and `completed` set to the number of features and of complete ones. */
  function SetCounters(root: Element): Element {
    var features := AllFeatures(root);
    root.(attrs := root.attrs["total" := NatToString(|features|)]
                             ["completed" := NatToString(|Completed(features)|)])
  }

  /** The tree `auto_fix_counters` writes back: counters set, then indented from level 0. */
  function AutoFixed(root: Element): Element {
    Indented(SetCounters(root), 0)
  }

  /**
   * The repair sets `total` and `completed` to the two counts and changes no other attribute,
   * no tag and no child order; texts and tails change only where they were blank.
   */
  lemma AutoFixChangesOnlyCounters(root: Element)
    ensures var fixed, features := AutoFixed(root), AllFeatures(root);
      && Get(fixed, "total") == Some(NatToString(|features|))
      && Get(fixed, "completed") == Some(NatToString(|Completed(features)|))
      && (forall key :: key != "total" && key != "completed" ==> Get(fixed, key) == Get(root, key))
      && fixed.tag == root.tag
      && ReformattedSeq(root.children, fixed.children)
  {
    IndentedReformats(SetCounters(root), 0);
  }

  /** After the repair the counter check finds nothing to report. */
  lemma AutoFixPassesCounterCheck(root: Element)
    ensures CounterReport(AutoFixed(root)) == Report([], [])
  {
    var fixed := AutoFixed(root);
    IndentedReformats(SetCounters(root), 0);
    CountsOfReformatted(SetCounters(root), fixed);
    var total, completed := |AllFeatures(root)|, |Completed(AllFeatures(root))|;
    ParseIntOfIntToString(total);
    ParseIntOfIntToString(completed);
    assert Get(fixed, "total") == Some(IntToString(total));
    assert Get(fixed, "completed") == Some(IntToString(completed));
  }

  /** Repairing a repaired tree gives the same tree. */
  lemma AutoFixIdempotent(root: Element)
    ensures AutoFixed(AutoFixed(root)) == AutoFixed(root)
  {
    var set1 := SetCounters(root);
    var fixed := AutoFixed(root);
    IndentedReformats(set1, 0);
    CountsOfReformatted(set1, fixed);
    assert SetCounters(fixed).attrs == fixed.attrs;
    assert SetCounters(fixed) == fixed;
    IndentedIdempotent(set1, 0);
  }

  /**
   * `auto_fix_counters`: read the file again, set the counters, indent and write. Reading
   * can fail (`reloaded` is not a tree) and so can writing (`writeOk` is false); both make it
   * return false. `written` is the tree that reaches the file.
   */
  method AutoFixCounters(reloaded: Loaded, writeOk: bool) returns (ok: bool, written: Option<Element>)
    ensures ok <==> reloaded.Parsed? && writeOk
    ensures written == if ok then Some(AutoFixed(reloaded.root)) else None
  {
    if !reloaded.Parsed? {
      return false, None;
    }
    var root := reloaded.root;
    var allFeatures := IterFind(root, "feature");
    var totalActual := |allFeatures|;
    var completedActual := |Completed(allFeatures)|;
    root := root.(attrs := root.attrs["total" := NatToString(totalActual)]);
    root := root.(attrs := root.attrs["completed" := NatToString(completedActual)]);
    root := IndentXml(root, 0);
    if !writeOk {
      return false, None;
    }
    ok, written := true, Some(root);
  }
}

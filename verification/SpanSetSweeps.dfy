/** The sweeps as they run, cursor by cursor, each refining its function of `SpanSets` or `SpanSetAlgebra`. */
module SpanSetSweeps {
  import opened Wrappers
  import opened Tumblers
  import opened Arithmetic
  import opened Spans
  import opened SpanSets
  import opened SpanSetAlgebra

  /** The level gate, one component at a time. */
  method ScanLevelClass(spans: SpanSet) returns (r: Result<Option<nat>, LevelMismatch>)
    ensures r == LevelClass(spans)
    ensures r.Ok? && r.value.Some? ==> UniformAt(spans, r.value.value)
    ensures r.Err? ==> forall len: nat :: !UniformAt(spans, len)
  {
    if spans == [] {
      return Ok(None);
    }
    var shared := |spans[0].start|;
    for i := 0 to |spans|
      invariant forall j :: 0 <= j < i ==> IsLevelUniform(spans[j]) && |spans[j].start| == shared
    {
      if !IsLevelUniform(spans[i]) || |spans[i].start| != shared {
        return Err(LevelMismatch);
      }
    }
    return Ok(Some(shared));
  }

  /** The coalescing sweep: one interval in hand, widened or emitted at each step. */
  method CoalesceSweep(sorted: seq<Ends>) returns (out: seq<Ends>)
    requires sorted != []
    ensures out == Coalesce(sorted[0], sorted[1..])
  {
    out := [];
    var run := sorted[0];
    var n := 1;
    while n < |sorted|
      invariant 1 <= n <= |sorted|
      invariant out + Coalesce(run, sorted[n..]) == Coalesce(sorted[0], sorted[1..])
    {
      CoalesceUnfolds(out, run, sorted, n);
      var following := sorted[n];
      if !Separated(run, following) {
        if Lt(run.reach, following.reach) {
          run := run.(reach := following.reach);
        }
      } else {
        out := out + [run];
        run := following;
      }
      n := n + 1;
    }
    out := out + [run];
  }

  lemma CoalesceUnfolds(out: seq<Ends>, run: Ends, sorted: seq<Ends>, n: nat)
    requires n < |sorted|
    ensures var following := sorted[n];
            out + Coalesce(run, sorted[n..]) ==
            if !Separated(run, following) then
              out + Coalesce(if Lt(run.reach, following.reach) then run.(reach := following.reach)
                else run, sorted[n + 1..])
            else (out + [run]) + Coalesce(following, sorted[n + 1..])
  {
    assert sorted[n..][0] == sorted[n] && sorted[n..][1..] == sorted[n + 1..];
    assert out + ([run] + Coalesce(sorted[n], sorted[n + 1..])) == (out + [run]) + Coalesce(sorted[n], sorted[n + 1..]);
  }

  /** Sort by start, then one sweep coalescing every pair that is not separated. */
  method Normalize(spans: SpanSet) returns (r: Result<SpanSet, LevelMismatch>)
    ensures r == Canon(spans)
    ensures r.Ok? ==> IsNormalized(r.value)
    ensures r.Ok? ==> forall t: Tumbler :: Denotes(r.value, t) <==> Denotes(spans, t)
  {
    var gate := ScanLevelClass(spans);
    if gate.Err? {
      return Err(LevelMismatch);
    }
    CanonIsNormalized(spans);
    forall t: Tumbler ensures Denotes(Canon(spans).value, t) <==> Denotes(spans, t) { CanonDenotes(spans, t); }
    if gate.value.None? {
      return Ok([]);
    }
    SortKeeps(AllEnds(spans));
    var out := CoalesceSweep(SortByStart(AllEnds(spans)));
    CanonEndsCorrect(spans, gate.value.value);
    RebuiltFromEnds(out, Canon(spans).value, gate.value.value);
    return Ok(SpansOf(out));
  }

  /** A level-uniform set is what its endpoints rebuild. */
  lemma RebuiltFromEnds(es: seq<Ends>, spans: SpanSet, len: nat)
    requires AllEnds(spans) == es && WfAll(es, len) && UniformAt(spans, len)
    ensures SpansOf(es) == spans
  {
    forall i | 0 <= i < |spans| ensures SpansOf(es)[i] == spans[i] {
      assert AllEnds(spans)[i] == es[i];
      EndsDetermineSpan(spans[i]);
    }
  }

  /** The two cursors over two ascending sequences. */
  method IntersectCursors(xs: seq<Ends>, ys: seq<Ends>) returns (out: seq<Ends>)
    ensures out == SweepIntersect(xs, ys)
  {
    out := [];
    var i, j := 0, 0;
    while i < |xs| && j < |ys|
      invariant 0 <= i <= |xs| && 0 <= j <= |ys|
      invariant out + SweepIntersect(xs[i..], ys[j..]) == SweepIntersect(xs, ys)
      decreases |xs| - i + |ys| - j
    {
      IntersectUnfolds(out, xs, ys, i, j);
      var start, reach := MaxOf(xs[i].start, ys[j].start), MinOf(xs[i].reach, ys[j].reach);
      if Lt(start, reach) {
        out := out + [Ends(start, reach)];
      }
      if Le(xs[i].reach, ys[j].reach) {
        i := i + 1;
      } else {
        j := j + 1;
      }
    }
  }

  lemma IntersectUnfolds(out: seq<Ends>, xs: seq<Ends>, ys: seq<Ends>, i: nat, j: nat)
    requires i < |xs| && j < |ys|
    ensures var start, reach := MaxOf(xs[i].start, ys[j].start), MinOf(xs[i].reach, ys[j].reach);
            out + SweepIntersect(xs[i..], ys[j..]) ==
            (if Lt(start, reach) then out + [Ends(start, reach)] else out)
            + (if Le(xs[i].reach, ys[j].reach) then SweepIntersect(xs[i + 1..], ys[j..])
               else SweepIntersect(xs[i..], ys[j + 1..]))
  {
    assert xs[i..][0] == xs[i] && xs[i..][1..] == xs[i + 1..];
    assert ys[j..][0] == ys[j] && ys[j..][1..] == ys[j + 1..];
    var start, reach := MaxOf(xs[i].start, ys[j].start), MinOf(xs[i].reach, ys[j].reach);
    var head := if Lt(start, reach) then [Ends(start, reach)] else [];
    var rest := if Le(xs[i].reach, ys[j].reach) then SweepIntersect(xs[i + 1..], ys[j..])
                else SweepIntersect(xs[i..], ys[j + 1..]);
    assert SweepIntersect(xs[i..], ys[j..]) == head + rest;
    assert out + (head + rest) == (out + head) + rest;
  }

  /** The intersection, by two cursors over the canonical forms. */
  method IntersectByCursors(a: SpanSet, b: SpanSet) returns (r: Result<SpanSet, LevelMismatch>)
    ensures r == IntersectSets(a, b)
    ensures r.Ok? ==> IsNormalized(r.value)
    ensures r.Ok? ==> forall t: Tumbler :: Denotes(r.value, t) <==> Denotes(a, t) && Denotes(b, t)
  {
    var operands := NormalizedEndpoints(a, b);
    if operands.Err? {
      return Err(LevelMismatch);
    }
    IntersectSetsIsIntersection(a, b);
    var len := GatedSweepOperands(a, b);
    var out := IntersectCursors(operands.value.0, operands.value.1);
    SweepIntersectNormal(operands.value.0, operands.value.1, len);
    ResultIsUniform(IntersectSets(a, b).value, out, len);
    RebuiltFromEnds(out, IntersectSets(a, b).value, len);
    return Ok(SpansOf(out));
  }

  lemma ResultIsUniform(spans: SpanSet, es: seq<Ends>, len: nat)
    requires AllEnds(spans) == es && WfAll(es, len)
    ensures UniformAt(spans, len)
  {
    EndsLevelUniform(spans, es);
    forall i | 0 <= i < |spans| ensures |spans[i].start| == len { assert AllEnds(spans)[i] == es[i]; }
  }

  /** The outer walk of the difference: a cursor into `ys` that advances for good. */
  method DifferenceCursors(xs: seq<Ends>, ys: seq<Ends>) returns (out: seq<Ends>)
    requires NormalEnds(xs) && NormalEnds(ys)
    ensures out == SweepDifference(xs, ys)
  {
    out := [];
    var j := 0;
    for n := 0 to |xs|
      invariant 0 <= j <= |ys|
      invariant n < |xs| ==> forall i :: 0 <= i < j ==> Le(ys[i].reach, xs[n].start)
      invariant out + SweepDifference(xs[n..], ys) == SweepDifference(xs, ys)
    {
      var x := xs[n];
      while j < |ys| && Le(ys[j].reach, x.start)
        invariant 0 <= j <= |ys|
        invariant forall i :: 0 <= i < j ==> Le(ys[i].reach, x.start)
      {
        j := j + 1;
      }
      CutSkips(x.start, x.reach, ys, j);
      DifferenceUnfolds(out, xs, ys, n);
      var cut := CutFrom(x, ys, j);
      out := out + cut;
      if n + 1 < |xs| {
        StillBehind(ys[..j], x, xs[n + 1].start);
        assert forall i :: 0 <= i < j ==> ys[i] == ys[..j][i];
      }
    }
  }

  lemma DifferenceUnfolds(out: seq<Ends>, xs: seq<Ends>, ys: seq<Ends>, n: nat)
    requires n < |xs|
    ensures out + SweepDifference(xs[n..], ys) ==
            (out + CutBy(xs[n].start, xs[n].reach, ys)) + SweepDifference(xs[n + 1..], ys)
  {
    assert xs[n..][0] == xs[n] && xs[n..][1..] == xs[n + 1..];
    assert out + (CutBy(xs[n].start, xs[n].reach, ys) + SweepDifference(xs[n + 1..], ys))
        == (out + CutBy(xs[n].start, xs[n].reach, ys)) + SweepDifference(xs[n + 1..], ys);
  }

  /** The difference, by the two nested cursors over the canonical forms. */
  method DifferenceByCursors(a: SpanSet, b: SpanSet) returns (r: Result<SpanSet, LevelMismatch>)
    ensures r == DifferenceSets(a, b)
    ensures r.Ok? ==> IsNormalized(r.value) && |r.value| <= |a| + |b|
    ensures r.Ok? ==> forall t: Tumbler :: Denotes(r.value, t) <==> Denotes(a, t) && !Denotes(b, t)
  {
    var operands := NormalizedEndpoints(a, b);
    if operands.Err? {
      return Err(LevelMismatch);
    }
    DifferenceSetsIsDifference(a, b);
    var len := GatedSweepOperands(a, b);
    var out := DifferenceCursors(operands.value.0, operands.value.1);
    SweepDifferenceNormal(operands.value.0, operands.value.1, len);
    ResultIsUniform(DifferenceSets(a, b).value, out, len);
    RebuiltFromEnds(out, DifferenceSets(a, b).value, len);
    return Ok(SpansOf(out));
  }

  lemma StillBehind(ys: seq<Ends>, x: Ends, next: Tumbler)
    requires forall i :: 0 <= i < |ys| ==> Le(ys[i].reach, x.start)
    requires Lt(x.start, x.reach) && Lt(x.reach, next)
    ensures forall i :: 0 <= i < |ys| ==> Le(ys[i].reach, next)
  {
    LtTransitive(x.start, x.reach, next);
    forall i | 0 <= i < |ys| ensures Le(ys[i].reach, next) { LeTransitive(ys[i].reach, x.start, next); }
  }

  /** The inner walk of the difference: the survivor's start moved past each interval it meets. */
  method CutFrom(x: Ends, ys: seq<Ends>, j: nat) returns (out: seq<Ends>)
    requires j <= |ys| && Lt(x.start, x.reach)
    ensures out == CutBy(x.start, x.reach, ys[j..])
  {
    out := [];
    var survivingFrom := x.start;
    var k := j;
    while k < |ys| && Lt(ys[k].start, x.reach)
      invariant j <= k <= |ys| && Lt(survivingFrom, x.reach)
      invariant out + CutBy(survivingFrom, x.reach, ys[k..]) == CutBy(x.start, x.reach, ys[j..])
    {
      CutUnfolds(out, survivingFrom, x.reach, ys, k);
      if Lt(survivingFrom, ys[k].start) {
        out := out + [Ends(survivingFrom, ys[k].start)];
      }
      if Lt(survivingFrom, ys[k].reach) {
        survivingFrom := ys[k].reach;
      }
      if !Lt(survivingFrom, x.reach) {
        return;
      }
      k := k + 1;
    }
    assert k < |ys| ==> ys[k..][0] == ys[k];
    out := out + [Ends(survivingFrom, x.reach)];
  }

  /** One unfolding of the cut: the gap before the head, and what the rest leaves. */
  function CutParts(from: Tumbler, reach: Tumbler, ys: seq<Ends>): (r: (seq<Ends>, seq<Ends>))
    requires ys != [] && Lt(ys[0].start, reach)
    ensures CutBy(from, reach, ys) == r.0 + r.1
  {
    (if Lt(from, ys[0].start) then [Ends(from, ys[0].start)] else [],
     if Lt(Resume(from, ys[0]), reach) then CutBy(Resume(from, ys[0]), reach, ys[1..]) else [])
  }

  lemma CutUnfolds(out: seq<Ends>, from: Tumbler, reach: Tumbler, ys: seq<Ends>, k: nat)
    requires k < |ys| && Lt(ys[k].start, reach)
    ensures var next := Resume(from, ys[k]);
            out + CutBy(from, reach, ys[k..]) ==
            (if Lt(from, ys[k].start) then out + [Ends(from, ys[k].start)] else out)
            + (if Lt(next, reach) then CutBy(next, reach, ys[k + 1..]) else [])
  {
    assert ys[k..][0] == ys[k] && ys[k..][1..] == ys[k + 1..];
    var (head, rest) := CutParts(from, reach, ys[k..]);
    assert out + (head + rest) == (out + head) + rest;
    assert out + [] == out;
  }

  /** The tight hull of a finite point set, its extremes found in one walk. */
  method Hull(points: seq<Tumbler>) returns (r: Result<Option<Span>, LevelMismatch>)
    ensures r == Ok(None) <==> points == []
    ensures r.Err? <==>
              exists i, j :: 0 <= i < |points| && 0 <= j < |points| && IsLeast(points, i) && IsGreatest(points, j)
                                       && |points[i]| != |points[j]|
    ensures r.Ok? && r.value.Some? ==>
              && (forall i :: 0 <= i < |points| ==> Contains(r.value.value, points[i]))
              && (forall s: Span | IsLevelUniform(s) && |s.start| == |r.value.value.start| ::
                    (forall i :: 0 <= i < |points| ==> Contains(s, points[i])) ==>
                      Within(EndsOf(r.value.value), EndsOf(s)))
  {
    if points == [] {
      return Ok(None);
    }
    var lo, hi := 0, 0;
    for n := 1 to |points|
      invariant 0 <= lo < |points| && 0 <= hi < |points|
      invariant forall i :: 0 <= i < n ==> Le(points[lo], points[i]) && Le(points[i], points[hi])
    {
      OrderLaws();
      if Lt(points[n], points[lo]) {
        lo := n;
      }
      if Lt(points[hi], points[n]) {
        hi := n;
      }
    }
    assert IsLeast(points, lo) && IsGreatest(points, hi);
    if |points[lo]| != |points[hi]| {
      return Err(LevelMismatch);
    }
    var least, greatest := points[lo], points[hi];
    ShiftOrders(greatest, 0, 1);
    ShiftZero(greatest);
    OrderLaws();
    var hull := SpanOf(Ends(least, NextAtLength(greatest)));
    r := Ok(Some(hull));
    forall i | 0 <= i < |points| ensures Contains(hull, points[i]) {}
    forall i, j | 0 <= i < |points| && 0 <= j < |points| && IsLeast(points, i) && IsGreatest(points, j)
      ensures points[i] == least && points[j] == greatest
    {
      LtAsymmetricOrEqual(points[i], least);
      LtAsymmetricOrEqual(points[j], greatest);
    }
    forall s: Span | IsLevelUniform(s) && |s.start| == |least|
      && (forall i :: 0 <= i < |points| ==> Contains(s, points[i]))
      ensures Within(EndsOf(hull), EndsOf(s))
    {
      HullIsTight(least, greatest, s);
    }
  }

  predicate IsLeast(points: seq<Tumbler>, i: nat)
    requires i < |points|
  {
    forall j :: 0 <= j < |points| ==> Le(points[i], points[j])
  }

  predicate IsGreatest(points: seq<Tumbler>, i: nat)
    requires i < |points|
  {
    forall j :: 0 <= j < |points| ==> Le(points[j], points[i])
  }

  lemma HullIsTight(least: Tumbler, greatest: Tumbler, s: Span)
    requires |least| == |greatest| == |s.start| && IsLevelUniform(s)
    requires Contains(s, least) && Contains(s, greatest) && Le(least, greatest)
    ensures Within(Ends(least, NextAtLength(greatest)), EndsOf(s))
  {
    AddAdvances(s.start, s.width);
    NextAtLengthIsLeast(greatest, Reach(s));
    OrderLaws();
    WithinIsByEndpoints(Ends(least, NextAtLength(greatest)), EndsOf(s));
  }
}

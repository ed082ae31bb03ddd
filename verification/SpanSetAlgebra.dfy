/** The set-level sweeps as functions: intersection, difference, hull, cover and the level partition. */
module SpanSetAlgebra {
  import opened Wrappers
  import opened Tumblers
  import opened Arithmetic
  import opened Spans
  import opened SpanSets

  // ---------------------------------------------------------------- intersection

  /** The two-cursor sweep: emit the meet of the heads, then drop the head that ends first. */
  function SweepIntersect(xs: seq<Ends>, ys: seq<Ends>): seq<Ends>
    decreases |xs| + |ys|
  {
    if xs == [] || ys == [] then []
    else
      var start, reach := MaxOf(xs[0].start, ys[0].start), MinOf(xs[0].reach, ys[0].reach);
      (if Lt(start, reach) then [Ends(start, reach)] else [])
      + (if Le(xs[0].reach, ys[0].reach) then SweepIntersect(xs[1..], ys) else SweepIntersect(xs, ys[1..]))
  }

  lemma MeetOfHeads(x: Ends, y: Ends, t: Tumbler)
    ensures var start, reach := MaxOf(x.start, y.start), MinOf(x.reach, y.reach);
            InAny(if Lt(start, reach) then [Ends(start, reach)] else [], t) <==> InEnds(x, t) && InEnds(y, t)
  {
    var start, reach := MaxOf(x.start, y.start), MinOf(x.reach, y.reach);
    var _, _, _, _, _ := Ranks(x.start, x.reach, y.start, y.reach, t);
    if Lt(start, reach) {
      assert InAny([Ends(start, reach)], t) <==> InEnds([Ends(start, reach)][0], t);
    }
  }

  lemma {:induction false} SweepIntersectDenotes(xs: seq<Ends>, ys: seq<Ends>, t: Tumbler)
    requires NormalEnds(xs) && NormalEnds(ys)
    ensures InAny(SweepIntersect(xs, ys), t) <==> InAny(xs, t) && InAny(ys, t)
    decreases |xs| + |ys|
  {
    if xs != [] && ys != [] {
      var x, y := xs[0], ys[0];
      var start, reach := MaxOf(x.start, y.start), MinOf(x.reach, y.reach);
      var head := if Lt(start, reach) then [Ends(start, reach)] else [];
      MeetOfHeads(x, y, t);
      InAnySplits(xs, t);
      InAnySplits(ys, t);
      NormalTail(xs);
      NormalTail(ys);
      if InAny(xs[1..], t) { NormalTailIsPast(xs, t); }
      if InAny(ys[1..], t) { NormalTailIsPast(ys, t); }
      var _, _, _, _, _ := Ranks(x.start, x.reach, y.start, y.reach, t);
      if Le(x.reach, y.reach) {
        SweepIntersectDenotes(xs[1..], ys, t);
        InAnyConcat(head, SweepIntersect(xs[1..], ys), t);
      } else {
        SweepIntersectDenotes(xs, ys[1..], t);
        InAnyConcat(head, SweepIntersect(xs, ys[1..]), t);
      }
    }
  }

  /** A normal sequence stays normal behind one more interval that ends strictly before it. */
  lemma NormalCons(head: Ends, tail: seq<Ends>, len: nat)
    requires WfAll([head], len) && NormalEnds(tail) && WfAll(tail, len)
    requires tail != [] ==> Lt(head.reach, tail[0].start)
    ensures NormalEnds([head] + tail) && WfAll([head] + tail, len)
  {
    var r := [head] + tail;
    assert [head][0] == head;
    forall i | 0 < i < |r| ensures Lt(r[i - 1].reach, r[i].start) {
      if i > 1 { assert r[i - 1] == tail[i - 2] && r[i] == tail[i - 1]; }
    }
  }

  lemma TailKeeps(es: seq<Ends>, len: nat)
    requires NormalEnds(es) && WfAll(es, len) && es != []
    ensures NormalEnds(es[1..]) && WfAll(es[1..], len) && WfEnds(es[0]) && |es[0].start| == len
    ensures |es| > 1 ==> Lt(es[0].reach, es[1].start) && |es[1].start| == len
  {
  }

  lemma HeadMeet(x: Ends, y: Ends, len: nat)
    requires WfEnds(x) && WfEnds(y) && |x.start| == |y.start| == len
    ensures var start, reach := MaxOf(x.start, y.start), MinOf(x.reach, y.reach);
            Le(x.start, start) && Le(y.start, start) && (Lt(start, reach) ==> WfAll([Ends(start, reach)], len))
  {
    LtTotal(x.start, y.start);
  }

  lemma {:induction false} SweepIntersectNormal(xs: seq<Ends>, ys: seq<Ends>, len: nat)
    requires NormalEnds(xs) && NormalEnds(ys) && WfAll(xs, len) && WfAll(ys, len)
    ensures var r := SweepIntersect(xs, ys);
            && NormalEnds(r) && WfAll(r, len)
            && (r != [] ==> xs != [] && ys != [] && Le(xs[0].start, r[0].start) && Le(ys[0].start, r[0].start))
    decreases |xs| + |ys|
  {
    if xs != [] && ys != [] {
      var x, y := xs[0], ys[0];
      TailKeeps(xs, len);
      TailKeeps(ys, len);
      HeadMeet(x, y, len);
      var dropX := Le(x.reach, y.reach);
      var tail := if dropX then SweepIntersect(xs[1..], ys) else SweepIntersect(xs, ys[1..]);
      if dropX { SweepIntersectNormal(xs[1..], ys, len); } else { SweepIntersectNormal(xs, ys[1..], len); }
      if tail != [] {
        TailStartsPast(x, y, if dropX then xs[1].start else ys[1].start, tail[0].start, dropX);
      }
      var start, reach := MaxOf(x.start, y.start), MinOf(x.reach, y.reach);
      if Lt(start, reach) { NormalCons(Ends(start, reach), tail, len); }
    }
  }

  lemma TailStartsPast(x: Ends, y: Ends, next: Tumbler, first: Tumbler, dropX: bool)
    requires Lt(x.start, x.reach) && Lt(y.start, y.reach)
    requires dropX <==> Le(x.reach, y.reach)
    requires Lt(if dropX then x.reach else y.reach, next) && Le(next, first)
    requires Le(if dropX then y.start else x.start, first)
    ensures Lt(MinOf(x.reach, y.reach), first) && Le(x.start, first) && Le(y.start, first)
  {
    OrderLaws();
  }

  /** Both operands normalized and confirmed mutually level-compatible: the shared entry of the sweeps. */
  function NormalizedEndpoints(a: SpanSet, b: SpanSet): (r: Result<(seq<Ends>, seq<Ends>), LevelMismatch>)
    ensures r.Ok? <==> SetsGated(a, b)
    ensures r.Ok? ==> r.value == (CanonEnds(a), CanonEnds(b))
  {
    match (Canon(a), Canon(b))
    case (Ok(na), Ok(nb)) =>
      CanonKeepsClass(a);
      CanonKeepsClass(b);
      var la, lb := LevelClass(na).value, LevelClass(nb).value;
      if la.Some? && lb.Some? && la != lb then Err(LevelMismatch)
      else Ok((AllEnds(na), AllEnds(nb)))
    case (_, _) => Err(LevelMismatch)
  }

  /** Each set level-uniform, and the two of one class where both have one. */
  ghost predicate SetsGated(a: SpanSet, b: SpanSet) {
    exists len :: UniformAt(a, len) && UniformAt(b, len)
  }

  lemma CanonKeepsClass(a: SpanSet)
    requires Canon(a).Ok?
    ensures LevelClass(Canon(a).value) == LevelClass(a)
    ensures forall len: nat :: UniformAt(a, len) ==> LevelClass(a) == Ok(if a == [] then None else Some(len))
  {
    var len :| UniformAt(a, len);
    CanonEndsCorrect(a, len);
    if a != [] {
      assert UniformAt(Canon(a).value, len);
    }
  }

  lemma GatedSweepOperands(a: SpanSet, b: SpanSet) returns (len: nat)
    requires SetsGated(a, b)
    ensures NormalEnds(CanonEnds(a)) && WfAll(CanonEnds(a), len)
    ensures NormalEnds(CanonEnds(b)) && WfAll(CanonEnds(b), len)
    ensures forall t: Tumbler :: InAny(CanonEnds(a), t) <==> Denotes(a, t)
    ensures forall t: Tumbler :: InAny(CanonEnds(b), t) <==> Denotes(b, t)
  {
    len :| UniformAt(a, len) && UniformAt(b, len);
    CanonEndsCorrect(a, len);
    CanonEndsCorrect(b, len);
  }

  function IntersectSets(a: SpanSet, b: SpanSet): (r: Result<SpanSet, LevelMismatch>)
    ensures r.Ok? <==> SetsGated(a, b)
    ensures r.Ok? ==> AllEnds(r.value) == SweepIntersect(CanonEnds(a), CanonEnds(b))
  {
    match NormalizedEndpoints(a, b)
    case Err(e) => Err(e)
    case Ok(p) =>
      assert forall i :: 0 <= i < |SweepIntersect(p.0, p.1)| ==> WfEnds(SweepIntersect(p.0, p.1)[i]) by {
        var len := GatedSweepOperands(a, b);
        SweepIntersectNormal(p.0, p.1, len);
      }
      Ok(SpansOf(SweepIntersect(p.0, p.1)))
  }

  lemma NormalEndsGiveNormalized(spans: SpanSet, len: nat)
    requires forall i :: 0 <= i < |spans| ==> IsLevelUniform(spans[i])
    requires NormalEnds(AllEnds(spans)) && WfAll(AllEnds(spans), len)
    ensures IsNormalized(spans)
  {
    assert UniformAt(spans, len) by {
      forall i | 0 <= i < |spans| ensures |spans[i].start| == len { assert AllEnds(spans)[i].start == spans[i].start; }
    }
    IsNormalizedMeaning(spans);
  }

  /** The sweep denotes exactly the intersection, at every tumbler of every length, and is already normalized. */
  lemma IntersectSetsIsIntersection(a: SpanSet, b: SpanSet)
    requires IntersectSets(a, b).Ok?
    ensures forall t: Tumbler :: Denotes(IntersectSets(a, b).value, t) <==> Denotes(a, t) && Denotes(b, t)
    ensures IsNormalized(IntersectSets(a, b).value)
  {
    var len := GatedSweepOperands(a, b);
    var xs, ys, r := CanonEnds(a), CanonEnds(b), IntersectSets(a, b).value;
    SweepIntersectNormal(xs, ys, len);
    EndsLevelUniform(r, SweepIntersect(xs, ys));
    NormalEndsGiveNormalized(r, len);
    forall t: Tumbler ensures Denotes(r, t) <==> Denotes(a, t) && Denotes(b, t) {
      DenotesByEnds(r, t);
      SweepIntersectDenotes(xs, ys, t);
    }
  }

  lemma EndsLevelUniform(spans: SpanSet, es: seq<Ends>)
    requires AllEnds(spans) == es && forall i :: 0 <= i < |es| ==> WfEnds(es[i])
    ensures forall i :: 0 <= i < |spans| ==> IsLevelUniform(spans[i])
  {
    forall i | 0 <= i < |spans| ensures IsLevelUniform(spans[i]) {
      assert AllEnds(spans)[i] == EndsOf(spans[i]);
      assert WfEnds(es[i]);
    }
  }

  // ---------------------------------------------------------------- difference

  /** What survives of `[from, reach)` past the ascending intervals `ys`: the gaps, then the tail. */
  function CutBy(from: Tumbler, reach: Tumbler, ys: seq<Ends>): seq<Ends>
    decreases ys
  {
    if ys == [] || !Lt(ys[0].start, reach) then
      if Lt(from, reach) then [Ends(from, reach)] else []
    else
      var next := Resume(from, ys[0]);
      (if Lt(from, ys[0].start) then [Ends(from, ys[0].start)] else [])
      + (if Lt(next, reach) then CutBy(next, reach, ys[1..]) else [])
  }

  /** Where the surviving part resumes past `y`. */
  function Resume(from: Tumbler, y: Ends): Tumbler {
    if Lt(from, y.reach) then y.reach else from
  }

  /** One step of the cut, at one point: the gap before `y`, or what the rest leaves past it. */
  lemma CutStep(from: Tumbler, reach: Tumbler, y: Ends, t: Tumbler, inRest: bool)
    requires Lt(y.start, y.reach) && Lt(from, reach) && Lt(y.start, reach)
    requires inRest ==> Lt(y.reach, t)
    ensures (Lt(from, y.start) && Le(from, t) && Lt(t, y.start))
            || (Lt(Resume(from, y), reach) && Le(Resume(from, y), t) && Lt(t, reach) && !inRest)
            <==> Le(from, t) && Lt(t, reach) && !InEnds(y, t) && !inRest
  {
    var _, _, _, _, _ := Ranks(from, reach, y.start, y.reach, t);
  }

  lemma OneInterval(a: Tumbler, b: Tumbler, t: Tumbler)
    ensures InAny(if Lt(a, b) then [Ends(a, b)] else [], t) <==> Lt(a, b) && Le(a, t) && Lt(t, b)
  {
    assert InAny([Ends(a, b)], t) <==> InEnds([Ends(a, b)][0], t);
  }

  lemma {:induction false} CutDenotes(from: Tumbler, reach: Tumbler, ys: seq<Ends>, t: Tumbler)
    requires NormalEnds(ys) && Lt(from, reach)
    ensures InAny(CutBy(from, reach, ys), t) <==> Le(from, t) && Lt(t, reach) && !InAny(ys, t)
    decreases ys
  {
    OneInterval(from, reach, t);
    if ys != [] {
      var y := ys[0];
      InAnySplits(ys, t);
      NormalTail(ys);
      if InAny(ys[1..], t) { NormalTailIsPast(ys, t); }
      if !Lt(y.start, reach) {
        NormalHeadBounds(ys);
        if InAny(ys, t) { NotBelow(y.start, reach, t); }
      } else {
        var rest := if Lt(Resume(from, y), reach) then CutBy(Resume(from, y), reach, ys[1..]) else [];
        OneInterval(from, y.start, t);
        InAnyConcat(if Lt(from, y.start) then [Ends(from, y.start)] else [], rest, t);
        if Lt(Resume(from, y), reach) { CutDenotes(Resume(from, y), reach, ys[1..], t); }
        CutStep(from, reach, y, t, InAny(ys[1..], t));
      }
    }
  }

  lemma NotBelow(start: Tumbler, reach: Tumbler, t: Tumbler)
    requires !Lt(start, reach) && Le(start, t)
    ensures !Lt(t, reach)
  {
    if Lt(start, t) && Lt(t, reach) { LtTransitive(start, t, reach); }
  }

  lemma CutStepOrder(from: Tumbler, reach: Tumbler, y: Ends, first: Tumbler)
    requires Lt(y.start, y.reach) && Lt(y.start, reach)
    requires Le(Resume(from, y), first)
    ensures Le(from, first) && Lt(y.start, first)
  {
    OrderLaws();
  }

  lemma {:induction false} CutStaysWithin(from: Tumbler, reach: Tumbler, ys: seq<Ends>)
    requires (forall i :: 0 <= i < |ys| ==> Lt(ys[i].start, ys[i].reach)) && Lt(from, reach)
    ensures var r := CutBy(from, reach, ys);
            r != [] ==> Le(from, r[0].start) && Le(r[|r| - 1].reach, reach)
    decreases ys
  {
    if ys != [] && Lt(ys[0].start, reach) {
      var y := ys[0];
      var next := Resume(from, y);
      if Lt(next, reach) {
        CutStaysWithin(next, reach, ys[1..]);
        var rest := CutBy(next, reach, ys[1..]);
        if rest != [] { CutStepOrder(from, reach, y, rest[0].start); }
      }
    }
  }

  lemma {:induction false} CutIsNormal(from: Tumbler, reach: Tumbler, ys: seq<Ends>, len: nat)
    requires NormalEnds(ys) && WfAll(ys, len) && Lt(from, reach) && |from| == |reach| == len
    ensures NormalEnds(CutBy(from, reach, ys)) && WfAll(CutBy(from, reach, ys), len)
    decreases ys
  {
    if ys != [] && Lt(ys[0].start, reach) {
      var y := ys[0];
      TailKeeps(ys, len);
      var next := Resume(from, y);
      var rest := if Lt(next, reach) then CutBy(next, reach, ys[1..]) else [];
      if Lt(next, reach) {
        CutIsNormal(next, reach, ys[1..], len);
        CutStaysWithin(next, reach, ys[1..]);
      }
      if rest != [] { CutStepOrder(from, reach, y, rest[0].start); }
      if Lt(from, y.start) { NormalCons(Ends(from, y.start), rest, len); }
    }
  }

  /** Intervals that end at or before the start cut nothing: what lets the outer cursor advance for good. */
  lemma {:induction false} CutSkips(from: Tumbler, reach: Tumbler, ys: seq<Ends>, j: nat)
    requires j <= |ys| && Lt(from, reach)
    requires forall i :: 0 <= i < |ys| ==> Lt(ys[i].start, ys[i].reach)
    requires forall i :: 0 <= i < j ==> Le(ys[i].reach, from)
    ensures CutBy(from, reach, ys) == CutBy(from, reach, ys[j..])
  {
    if j == 0 {
      assert ys[0..] == ys;
    } else {
      var _, _, _, _, _ := Ranks(from, reach, ys[0].start, ys[0].reach, from);
      assert CutBy(from, reach, ys) == CutBy(from, reach, ys[1..]);
      CutSkips(from, reach, ys[1..], j - 1);
      assert ys[1..][j - 1..] == ys[j..];
    }
  }

  function SweepDifference(xs: seq<Ends>, ys: seq<Ends>): seq<Ends> {
    if xs == [] then [] else CutBy(xs[0].start, xs[0].reach, ys) + SweepDifference(xs[1..], ys)
  }

  lemma {:induction false} SweepDifferenceDenotes(xs: seq<Ends>, ys: seq<Ends>, t: Tumbler)
    requires NormalEnds(xs) && NormalEnds(ys)
    ensures InAny(SweepDifference(xs, ys), t) <==> InAny(xs, t) && !InAny(ys, t)
  {
    if xs != [] {
      NormalTail(xs);
      SweepDifferenceDenotes(xs[1..], ys, t);
      CutDenotes(xs[0].start, xs[0].reach, ys, t);
      InAnySplits(xs, t);
      InAnyConcat(CutBy(xs[0].start, xs[0].reach, ys), SweepDifference(xs[1..], ys), t);
    }
  }

  lemma NormalConcat(x: seq<Ends>, y: seq<Ends>, len: nat)
    requires NormalEnds(x) && NormalEnds(y) && WfAll(x, len) && WfAll(y, len)
    requires x != [] && y != [] ==> Lt(x[|x| - 1].reach, y[0].start)
    ensures NormalEnds(x + y) && WfAll(x + y, len)
  {
    var r := x + y;
    forall i | 0 < i < |r| ensures Lt(r[i - 1].reach, r[i].start) {
      if i < |x| { assert r[i - 1] == x[i - 1] && r[i] == x[i]; }
      else if i > |x| { assert r[i - 1] == y[i - 1 - |x|] && r[i] == y[i - |x|]; }
    }
  }

  lemma {:induction false} SweepDifferenceNormal(xs: seq<Ends>, ys: seq<Ends>, len: nat)
    requires NormalEnds(xs) && NormalEnds(ys) && WfAll(xs, len) && WfAll(ys, len)
    ensures var r := SweepDifference(xs, ys);
            NormalEnds(r) && WfAll(r, len) && (r != [] ==> xs != [] && Le(xs[0].start, r[0].start))
  {
    if xs != [] {
      NormalTail(xs);
      SweepDifferenceNormal(xs[1..], ys, len);
      CutIsNormal(xs[0].start, xs[0].reach, ys, len);
      CutStaysWithin(xs[0].start, xs[0].reach, ys);
      var cut, rest := CutBy(xs[0].start, xs[0].reach, ys), SweepDifference(xs[1..], ys);
      if rest != [] {
        BoundsChain(xs[0], xs[1].start, if cut == [] then xs[0].reach else cut[|cut| - 1].reach, rest[0].start);
      }
      NormalConcat(cut, rest, len);
    }
  }

  lemma BoundsChain(x: Ends, nextStart: Tumbler, last: Tumbler, first: Tumbler)
    requires Lt(x.start, x.reach) && Lt(x.reach, nextStart) && Le(last, x.reach) && Le(nextStart, first)
    ensures Lt(last, first) && Le(x.start, first)
  {
    OrderLaws();
  }

  /** How many of `ys` start strictly inside `(lo, hi)`; with no `hi`, strictly past `lo`. */
  ghost function StartsIn(ys: seq<Ends>, lo: Tumbler, hi: Option<Tumbler>): nat {
    if ys == [] then 0
    else (if Lt(lo, ys[0].start) && (hi.Some? ==> Lt(ys[0].start, hi.value)) then 1 else 0) + StartsIn(ys[1..], lo, hi)
  }

  lemma {:induction false} StartsInBounds(ys: seq<Ends>, lo: Tumbler, hi: Option<Tumbler>, from: Tumbler)
    requires Le(lo, from)
    ensures StartsIn(ys, from, hi) <= StartsIn(ys, lo, hi) <= |ys|
  {
    if ys != [] {
      StartsInBounds(ys[1..], lo, hi, from);
      if Lt(from, ys[0].start) { LtTotal(lo, ys[0].start); if lo != from { LtTransitive(lo, from, ys[0].start); } }
    }
  }

  lemma {:induction false} StartsSplit(ys: seq<Ends>, lo: Tumbler, hi: Tumbler, next: Tumbler)
    requires Lt(lo, hi) && Le(hi, next)
    ensures StartsIn(ys, lo, Some(hi)) + StartsIn(ys, next, None) <= StartsIn(ys, lo, None)
  {
    if ys != [] {
      StartsSplit(ys[1..], lo, hi, next);
      var _, _, _, _, _ := Ranks(lo, hi, next, ys[0].start, lo);
    }
  }

  lemma {:induction false} CutFanOut(from: Tumbler, reach: Tumbler, ys: seq<Ends>)
    ensures |CutBy(from, reach, ys)| <= 1 + StartsIn(ys, from, Some(reach))
    decreases ys
  {
    if ys != [] && Lt(ys[0].start, reach) {
      var next := Resume(from, ys[0]);
      CutFanOut(next, reach, ys[1..]);
      StartsInBounds(ys[1..], from, Some(reach), next);
    }
  }

  lemma {:induction false} SweepFanOut(xs: seq<Ends>, ys: seq<Ends>)
    requires NormalEnds(xs)
    ensures |SweepDifference(xs, ys)| <= |xs| + (if xs == [] then 0 else StartsIn(ys, xs[0].start, None))
  {
    if xs != [] {
      NormalTail(xs);
      SweepFanOut(xs[1..], ys);
      CutFanOut(xs[0].start, xs[0].reach, ys);
      if |xs| > 1 {
        StartsSplit(ys, xs[0].start, xs[0].reach, xs[1].start);
      } else {
        StartsSplit(ys, xs[0].start, xs[0].reach, xs[0].reach);
      }
    }
  }

  function DifferenceSets(a: SpanSet, b: SpanSet): (r: Result<SpanSet, LevelMismatch>)
    ensures r.Ok? <==> SetsGated(a, b)
    ensures r.Ok? ==> AllEnds(r.value) == SweepDifference(CanonEnds(a), CanonEnds(b))
  {
    match NormalizedEndpoints(a, b)
    case Err(e) => Err(e)
    case Ok(p) =>
      assert forall i :: 0 <= i < |SweepDifference(p.0, p.1)| ==> WfEnds(SweepDifference(p.0, p.1)[i]) by {
        var len := GatedSweepOperands(a, b);
        SweepDifferenceNormal(p.0, p.1, len);
      }
      Ok(SpansOf(SweepDifference(p.0, p.1)))
  }

  /** The sweep denotes exactly the difference, is already normalized, and fans out to at most `|a| + |b|` spans. */
  lemma DifferenceSetsIsDifference(a: SpanSet, b: SpanSet)
    requires DifferenceSets(a, b).Ok?
    ensures forall t: Tumbler :: Denotes(DifferenceSets(a, b).value, t) <==> Denotes(a, t) && !Denotes(b, t)
    ensures IsNormalized(DifferenceSets(a, b).value)
    ensures |DifferenceSets(a, b).value| <= |a| + |b|
  {
    var len := GatedSweepOperands(a, b);
    var xs, ys, r := CanonEnds(a), CanonEnds(b), DifferenceSets(a, b).value;
    SweepDifferenceNormal(xs, ys, len);
    EndsLevelUniform(r, SweepDifference(xs, ys));
    NormalEndsGiveNormalized(r, len);
    forall t: Tumbler ensures Denotes(r, t) <==> Denotes(a, t) && !Denotes(b, t) {
      DenotesByEnds(r, t);
      SweepDifferenceDenotes(xs, ys, t);
    }
    SweepFanOut(xs, ys);
    if xs != [] { StartsInBounds(ys, xs[0].start, None, xs[0].start); }
  }

  // ---------------------------------------------------------------- level partition and cover

  /** The components whose start has length `len`, in stored order. */
  function ClassOf(spans: SpanSet, len: nat): SpanSet {
    if spans == [] then []
    else (if |spans[0].start| == len then [spans[0]] else []) + ClassOf(spans[1..], len)
  }

  /** The partition of the components by start length. */
  function ByLevelClass(spans: SpanSet): (r: map<nat, SpanSet>)
    ensures forall len :: len in r <==> exists i :: 0 <= i < |spans| && |spans[i].start| == len
    ensures forall len :: len in r ==> r[len] == ClassOf(spans, len)
  {
    map i | 0 <= i < |spans| :: |spans[i].start| := ClassOf(spans, |spans[i].start|)
  }

  lemma {:induction false} ClassOfMembers(spans: SpanSet, len: nat)
    ensures forall s: Span :: s in ClassOf(spans, len) <==> s in spans && |s.start| == len
  {
    if spans != [] {
      ClassOfMembers(spans[1..], len);
      assert spans == [spans[0]] + spans[1..];
    }
  }

  lemma ClassOfDenotes(spans: SpanSet, len: nat, t: Tumbler)
    ensures Denotes(ClassOf(spans, len), t) <==>
              exists i :: 0 <= i < |spans| && |spans[i].start| == len && Contains(spans[i], t)
    ensures (forall i :: 0 <= i < |spans| ==> IsLevelUniform(spans[i])) ==> UniformAt(ClassOf(spans, len), len)
  {
    ClassOfMembers(spans, len);
    var c := ClassOf(spans, len);
    if Denotes(c, t) {
      var i :| 0 <= i < |c| && Contains(c[i], t);
      assert c[i] in spans;
      var j :| 0 <= j < |spans| && spans[j] == c[i];
    }
    if j :| 0 <= j < |spans| && |spans[j].start| == len && Contains(spans[j], t) {
      assert spans[j] in c;
      var i :| 0 <= i < |c| && c[i] == spans[j];
    }
    if forall i :: 0 <= i < |spans| ==> IsLevelUniform(spans[i]) {
      forall i | 0 <= i < |c| ensures IsLevelUniform(c[i]) && |c[i].start| == len { assert c[i] in c; }
    }
  }

  /** One unit span per point: its subtree. */
  function Cover(points: seq<Tumbler>): (r: SpanSet)
    ensures |r| == |points|
    ensures forall i :: 0 <= i < |r| ==> r[i] == SubtreeOf(points[i])
  {
    seq(|points|, i requires 0 <= i < |points| => SubtreeOf(points[i]))
  }

  /** S7: a cover denotes exactly the extensions of its points, at every mix of lengths. */
  lemma CoverDenotesExtensions(points: seq<Tumbler>, t: Tumbler)
    ensures Denotes(Cover(points), t) <==> exists i :: 0 <= i < |points| && IsPrefix(points[i], t)
  {
    forall i | 0 <= i < |points| ensures Contains(Cover(points)[i], t) <==> IsPrefix(points[i], t) {
      SubtreeCapturesExtensions(points[i], t);
    }
    if i :| 0 <= i < |points| && IsPrefix(points[i], t) {
      assert Contains(Cover(points)[i], t);
    }
  }
}

/** Span-sets: the canonical form and the set-level algebra, as functions and the laws they obey. */
module SpanSets {
  import opened Wrappers
  import opened Tumblers
  import opened Arithmetic
  import opened Spans

  /** A union-denoting sequence of component spans, in stored order. */
  type SpanSet = seq<Span>

  predicate Denotes(spans: SpanSet, t: Tumbler) {
    exists i :: 0 <= i < |spans| && Contains(spans[i], t)
  }

  function AllEnds(spans: SpanSet): (r: seq<Ends>)
    ensures |r| == |spans|
    ensures forall i :: 0 <= i < |spans| ==> r[i] == EndsOf(spans[i])
  {
    seq(|spans|, i requires 0 <= i < |spans| => EndsOf(spans[i]))
  }

  lemma DenotesByEnds(spans: SpanSet, t: Tumbler)
    ensures Denotes(spans, t) <==> InAny(AllEnds(spans), t)
  {
    var es := AllEnds(spans);
    if Denotes(spans, t) {
      var i :| 0 <= i < |spans| && Contains(spans[i], t);
      assert InEnds(es[i], t);
    }
    if InAny(es, t) {
      var i :| 0 <= i < |es| && InEnds(es[i], t);
      assert Contains(spans[i], t);
    }
  }

  // ---------------------------------------------------------------- the level gate

  predicate UniformAt(spans: SpanSet, len: nat) {
    forall i :: 0 <= i < |spans| ==> IsLevelUniform(spans[i]) && |spans[i].start| == len
  }

  /** The one endpoint length every component shares; `None` for the empty set. */
  function LevelClass(spans: SpanSet): (r: Result<Option<nat>, LevelMismatch>)
    ensures r.Ok? && r.value.Some? ==> spans != [] && UniformAt(spans, r.value.value)
    ensures r.Ok? && r.value.None? <==> spans == []
    ensures r.Ok? <==> exists len :: UniformAt(spans, len)
  {
    if spans == [] then
      assert UniformAt(spans, 0);
      Ok(None)
    else if UniformAt(spans, |spans[0].start|) then Ok(Some(|spans[0].start|))
    else Err(LevelMismatch)
  }

  // ---------------------------------------------------------------- normal form, on endpoints

  /** N1 and N2, whatever the lengths: ascending, and no two components meet or touch. */
  predicate NormalEnds(es: seq<Ends>) {
    && (forall i :: 0 <= i < |es| ==> WfEnds(es[i]))
    && (forall i :: 0 < i < |es| ==> Lt(es[i - 1].reach, es[i].start))
  }

  lemma NormalTail(es: seq<Ends>)
    requires NormalEnds(es) && es != []
    ensures NormalEnds(es[1..])
  {
  }

  /** Everything a normal sequence holds past its head lies strictly past the head's reach. */
  lemma {:induction false} NormalTailIsPast(es: seq<Ends>, t: Tumbler)
    requires NormalEnds(es) && es != [] && InAny(es[1..], t)
    ensures Lt(es[0].reach, t)
  {
    var rest := es[1..];
    assert Lt(es[0].reach, es[1].start);
    if InEnds(rest[0], t) {
      if es[1].start != t { LtTransitive(es[0].reach, es[1].start, t); }
    } else {
      var i :| 0 <= i < |rest| && InEnds(rest[i], t);
      assert InEnds(rest[1..][i - 1], t);
      NormalTail(es);
      NormalTailIsPast(rest, t);
      LtTransitive(es[0].reach, es[1].start, es[1].reach);
      LtTransitive(es[0].reach, es[1].reach, t);
    }
  }

  lemma InAnySplits(es: seq<Ends>, t: Tumbler)
    requires es != []
    ensures InAny(es, t) <==> InEnds(es[0], t) || InAny(es[1..], t)
  {
    if InAny(es, t) && !InEnds(es[0], t) {
      var i :| 0 <= i < |es| && InEnds(es[i], t);
      assert InEnds(es[1..][i - 1], t);
    }
    if InAny(es[1..], t) {
      var i :| 0 <= i < |es[1..]| && InEnds(es[1..][i], t);
      assert InEnds(es[i + 1], t);
    }
  }

  lemma InAnyConcat(x: seq<Ends>, y: seq<Ends>, t: Tumbler)
    ensures InAny(x + y, t) <==> InAny(x, t) || InAny(y, t)
  {
    if InAny(x, t) {
      var i :| 0 <= i < |x| && InEnds(x[i], t);
      assert InEnds((x + y)[i], t);
    }
    if InAny(y, t) {
      var i :| 0 <= i < |y| && InEnds(y[i], t);
      assert InEnds((x + y)[|x| + i], t);
    }
  }

  /** In a normal sequence the head's start is the least denoted point, and its reach is not denoted. */
  lemma NormalHeadBounds(es: seq<Ends>)
    requires NormalEnds(es) && es != []
    ensures InAny(es, es[0].start) && !InAny(es, es[0].reach)
    ensures forall t: Tumbler :: InAny(es, t) ==> Le(es[0].start, t)
  {
    assert InEnds(es[0], es[0].start);
    InAnySplits(es, es[0].reach);
    LtIrreflexive(es[0].reach);
    if InAny(es[1..], es[0].reach) { NormalTailIsPast(es, es[0].reach); }
    forall t: Tumbler | InAny(es, t) ensures Le(es[0].start, t) {
      InAnySplits(es, t);
      if !InEnds(es[0], t) {
        NormalTailIsPast(es, t);
        LtTransitive(es[0].start, es[0].reach, t);
      }
    }
  }

  ghost predicate SameDenotation(x: seq<Ends>, y: seq<Ends>) {
    forall t: Tumbler :: InAny(x, t) <==> InAny(y, t)
  }

  lemma EqualHeads(x: seq<Ends>, y: seq<Ends>)
    requires NormalEnds(x) && NormalEnds(y) && x != [] && y != [] && SameDenotation(x, y)
    ensures x[0] == y[0]
  {
    NormalHeadBounds(x);
    NormalHeadBounds(y);
    var a, b := x[0], y[0];
    assert Le(a.start, b.start) && Le(b.start, a.start);
    LtAsymmetricOrEqual(a.start, b.start);
    LtTotal(a.reach, b.reach);
    assert Lt(a.reach, b.reach) ==> InEnds(b, a.reach);
    assert Lt(b.reach, a.reach) ==> InEnds(a, b.reach);
  }

  lemma LtAsymmetricOrEqual(a: Tumbler, b: Tumbler)
    requires Le(a, b) && Le(b, a)
    ensures a == b
  {
    if Lt(a, b) { LtAsymmetric(a, b); }
  }

  /** S9: the normal form of a denotation is unique, across length classes too. */
  lemma {:induction false} NormalFormIsUnique(x: seq<Ends>, y: seq<Ends>)
    requires NormalEnds(x) && NormalEnds(y) && SameDenotation(x, y)
    ensures x == y
  {
    if x == [] || y == [] {
      if x != [] { NormalHeadBounds(x); }
      if y != [] { NormalHeadBounds(y); }
    } else {
      EqualHeads(x, y);
      NormalTail(x);
      NormalTail(y);
      forall t: Tumbler ensures InAny(x[1..], t) <==> InAny(y[1..], t) {
        InAnySplits(x, t);
        InAnySplits(y, t);
        if InAny(x[1..], t) { NormalTailIsPast(x, t); LtAsymmetric(x[0].reach, t); }
        if InAny(y[1..], t) { NormalTailIsPast(y, t); LtAsymmetric(y[0].reach, t); }
      }
      NormalFormIsUnique(x[1..], y[1..]);
    }
  }

  // ---------------------------------------------------------------- sort and sweep

  predicate Ascending(es: seq<Ends>) {
    forall i, j :: 0 <= i < j < |es| ==> Le(es[i].start, es[j].start)
  }

  function InsertByStart(e: Ends, es: seq<Ends>): seq<Ends> {
    if es == [] || Le(e.start, es[0].start) then [e] + es
    else [es[0]] + InsertByStart(e, es[1..])
  }

  /** The stable sort by start. */
  function SortByStart(es: seq<Ends>): seq<Ends> {
    if es == [] then [] else InsertByStart(es[0], SortByStart(es[1..]))
  }

  lemma {:induction false} InsertKeeps(e: Ends, es: seq<Ends>)
    ensures multiset(InsertByStart(e, es)) == multiset([e] + es)
    ensures forall x :: x in InsertByStart(e, es) ==> x == e || x in es
  {
    if es != [] && !Le(e.start, es[0].start) {
      InsertKeeps(e, es[1..]);
      assert es == [es[0]] + es[1..];
    }
  }

  lemma {:induction false} InsertAscends(e: Ends, es: seq<Ends>)
    requires Ascending(es)
    ensures Ascending(InsertByStart(e, es))
  {
    if es == [] {
    } else if Le(e.start, es[0].start) {
      forall j | 0 <= j < |es| ensures Le(e.start, es[j].start) {
        if j > 0 { LeTransitive(e.start, es[0].start, es[j].start); }
      }
    } else {
      InsertAscends(e, es[1..]);
      InsertKeeps(e, es[1..]);
      LtTotal(e.start, es[0].start);
      var r := InsertByStart(e, es[1..]);
      forall j | 0 <= j < |r| ensures Le(es[0].start, r[j].start) {
        assert r[j] in r;
      }
    }
  }

  lemma LeTransitive(a: Tumbler, b: Tumbler, c: Tumbler)
    requires Le(a, b) && Le(b, c)
    ensures Le(a, c)
  {
    if Lt(a, b) && Lt(b, c) { LtTransitive(a, b, c); }
  }

  lemma {:induction false} SortKeeps(es: seq<Ends>)
    ensures Ascending(SortByStart(es))
    ensures multiset(SortByStart(es)) == multiset(es)
    ensures |SortByStart(es)| == |es|
    ensures forall e :: e in SortByStart(es) <==> e in es
  {
    if es != [] {
      SortKeeps(es[1..]);
      InsertKeeps(es[0], SortByStart(es[1..]));
      InsertAscends(es[0], SortByStart(es[1..]));
      assert es == [es[0]] + es[1..];
    }
    forall e ensures e in SortByStart(es) <==> e in es {
      assert e in multiset(SortByStart(es)) <==> e in multiset(es);
    }
    assert |SortByStart(es)| == |multiset(SortByStart(es))| == |multiset(es)|;
  }

  /** The coalescing sweep over ascending starts: `run` is the interval in hand. */
  function Coalesce(run: Ends, rest: seq<Ends>): (r: seq<Ends>)
    ensures |r| <= 1 + |rest|
    decreases |rest|
  {
    if rest == [] then [run]
    else if !Separated(run, rest[0]) then
      Coalesce(if Lt(run.reach, rest[0].reach) then run.(reach := rest[0].reach) else run, rest[1..])
    else [run] + Coalesce(rest[0], rest[1..])
  }

  predicate WfAll(es: seq<Ends>, len: nat) {
    forall i :: 0 <= i < |es| ==> WfEnds(es[i]) && |es[i].start| == len
  }

  /** One coalescing step widens the run to exactly the union. */
  lemma CoalesceStep(run: Ends, next: Ends, t: Tumbler)
    requires WfEnds(run) && WfEnds(next) && |run.start| == |next.start| && Le(run.start, next.start)
    ensures var wide := if Lt(run.reach, next.reach) then run.(reach := next.reach) else run;
            WfEnds(wide) && (!Separated(run, next) ==> (InEnds(wide, t) <==> InEnds(run, t) || InEnds(next, t)))
    ensures Separated(run, next) ==> Lt(run.reach, next.start)
  {
    var _, _, _, _, _ := Ranks(run.start, run.reach, next.start, next.reach, t);
  }

  lemma {:induction false} CoalesceDenotes(run: Ends, rest: seq<Ends>, len: nat, t: Tumbler)
    requires WfAll([run] + rest, len) && Ascending([run] + rest)
    ensures InAny(Coalesce(run, rest), t) <==> InEnds(run, t) || InAny(rest, t)
    decreases |rest|
  {
    if rest == [] {
      assert InAny([run], t) <==> InEnds(run, t);
    } else {
      var all := [run] + rest;
      assert all[0] == run && all[1] == rest[0];
      CoalesceStep(run, rest[0], t);
      InAnySplits(rest, t);
      if !Separated(run, rest[0]) {
        var wide := if Lt(run.reach, rest[0].reach) then run.(reach := rest[0].reach) else run;
        CoalescePrecondition(run, rest, wide, len);
        CoalesceDenotes(wide, rest[1..], len, t);
      } else {
        assert all[1..] == [rest[0]] + rest[1..];
        CoalesceDenotes(rest[0], rest[1..], len, t);
        InAnySplits([run] + Coalesce(rest[0], rest[1..]), t);
      }
    }
  }

  lemma CoalescePrecondition(run: Ends, rest: seq<Ends>, wide: Ends, len: nat)
    requires rest != [] && WfAll([run] + rest, len) && Ascending([run] + rest)
    requires WfEnds(wide) && wide.start == run.start
    ensures WfAll([wide] + rest[1..], len) && Ascending([wide] + rest[1..])
    ensures WfAll([rest[0]] + rest[1..], len) && Ascending([rest[0]] + rest[1..])
  {
    var all, one, two := [run] + rest, [wide] + rest[1..], [rest[0]] + rest[1..];
    assert forall i :: 0 < i < |one| ==> one[i] == all[i + 1];
    assert all[0] == run;
    assert two == all[1..];
  }

  lemma {:induction false} CoalesceIsNormal(run: Ends, rest: seq<Ends>, len: nat)
    requires WfAll([run] + rest, len) && Ascending([run] + rest)
    ensures NormalEnds(Coalesce(run, rest)) && Coalesce(run, rest) != []
    ensures Coalesce(run, rest)[0].start == run.start && WfAll(Coalesce(run, rest), len)
    decreases |rest|
  {
    assert ([run] + rest)[0] == run;
    if rest != [] {
      assert ([run] + rest)[1] == rest[0];
      CoalesceStep(run, rest[0], run.start);
      var wide := if Lt(run.reach, rest[0].reach) then run.(reach := rest[0].reach) else run;
      CoalescePrecondition(run, rest, wide, len);
      if !Separated(run, rest[0]) {
        CoalesceIsNormal(wide, rest[1..], len);
      } else {
        CoalesceIsNormal(rest[0], rest[1..], len);
        var tail := Coalesce(rest[0], rest[1..]);
        var r := [run] + tail;
        forall i | 0 < i < |r| ensures Lt(r[i - 1].reach, r[i].start) {
          if i > 1 { assert r[i - 1] == tail[i - 2] && r[i] == tail[i - 1]; }
        }
      }
    }
  }

  /** A normal sequence is a fixed point of sort and sweep. */
  lemma {:induction false} CoalesceFixesNormal(es: seq<Ends>)
    requires es != [] && NormalEnds(es)
    ensures Coalesce(es[0], es[1..]) == es
  {
    if |es| == 1 {
    } else {
      NormalTail(es);
      CoalesceFixesNormal(es[1..]);
      var _, _, _, _, _ := Ranks(es[0].start, es[0].reach, es[1].start, es[1].reach, es[0].start);
      assert Separated(es[0], es[1]);
      assert es[1..][1..] == es[2..];
      assert es == [es[0]] + es[1..];
    }
  }

  lemma {:induction false} SortFixesAscending(es: seq<Ends>)
    requires Ascending(es)
    ensures SortByStart(es) == es
  {
    if es != [] {
      SortFixesAscending(es[1..]);
      assert es == [es[0]] + es[1..];
    }
  }

  lemma {:induction false} NormalIsAscending(es: seq<Ends>)
    requires NormalEnds(es)
    ensures Ascending(es)
  {
    if es != [] {
      NormalTail(es);
      NormalIsAscending(es[1..]);
      forall j | 0 < j < |es| ensures Le(es[0].start, es[j].start) {
        assert InEnds(es[1..][j - 1], es[j].start);
        NormalTailIsPast(es, es[j].start);
        LtTransitive(es[0].start, es[0].reach, es[j].start);
      }
      forall i, j | 0 <= i < j < |es| ensures Le(es[i].start, es[j].start) {
        if i > 0 { assert es[1..][i - 1] == es[i] && es[1..][j - 1] == es[j]; }
      }
    }
  }

  // ---------------------------------------------------------------- the canonical form

  /** The endpoints of a level-uniform set, sorted and swept. */
  function CanonEnds(spans: SpanSet): (r: seq<Ends>)
    ensures |r| <= |spans|
  {
    SortKeeps(AllEnds(spans));
    var sorted := SortByStart(AllEnds(spans));
    if sorted == [] then [] else Coalesce(sorted[0], sorted[1..])
  }

  lemma CanonEndsCorrect(spans: SpanSet, len: nat)
    requires UniformAt(spans, len)
    ensures NormalEnds(CanonEnds(spans)) && WfAll(CanonEnds(spans), len)
    ensures forall t: Tumbler :: InAny(CanonEnds(spans), t) <==> Denotes(spans, t)
    ensures CanonEnds(spans) == [] <==> spans == []
  {
    var es := AllEnds(spans);
    var sorted := SortByStart(es);
    SortKeeps(es);
    forall i | 0 <= i < |es| ensures WfEnds(es[i]) && |es[i].start| == len {
      EndsDetermineSpan(spans[i]);
    }
    forall i | 0 <= i < |sorted| ensures WfEnds(sorted[i]) && |sorted[i].start| == len {
      assert sorted[i] in es;
    }
    forall t: Tumbler ensures InAny(CanonEnds(spans), t) <==> Denotes(spans, t) {
      DenotesByEnds(spans, t);
      SameMembersDenoteTheSame(sorted, es, t);
      if sorted != [] {
        assert sorted == [sorted[0]] + sorted[1..];
        CoalesceDenotes(sorted[0], sorted[1..], len, t);
        InAnySplits(sorted, t);
      }
    }
    if sorted != [] {
      assert sorted == [sorted[0]] + sorted[1..];
      CoalesceIsNormal(sorted[0], sorted[1..], len);
    }
  }

  lemma SameMembersDenoteTheSame(x: seq<Ends>, y: seq<Ends>, t: Tumbler)
    requires forall e :: e in x <==> e in y
    ensures InAny(x, t) <==> InAny(y, t)
  {
    if InAny(x, t) {
      var i :| 0 <= i < |x| && InEnds(x[i], t);
      assert x[i] in y;
    }
    if InAny(y, t) {
      var i :| 0 <= i < |y| && InEnds(y[i], t);
      assert y[i] in x;
    }
  }

  /** S8: the canonical form of a set, refused exactly where the level gate refuses. */
  function Canon(spans: SpanSet): (r: Result<SpanSet, LevelMismatch>)
    ensures r.Ok? <==> LevelClass(spans).Ok?
    ensures r.Ok? ==> |r.value| <= |spans|
    ensures r.Ok? ==> AllEnds(r.value) == CanonEnds(spans)
    ensures r.Ok? && LevelClass(spans).value.Some? ==> UniformAt(r.value, LevelClass(spans).value.value)
  {
    match LevelClass(spans)
    case Err(e) => Err(e)
    case Ok(None) => Ok([])
    case Ok(Some(len)) =>
      CanonEndsCorrect(spans, len);
      assert forall i :: 0 <= i < |CanonEnds(spans)| ==> EndsOf(SpanOf(CanonEnds(spans)[i])) == CanonEnds(spans)[i];
      Ok(SpansOf(CanonEnds(spans)))
  }

  predicate IsNormalized(spans: SpanSet) {
    Canon(spans) == Ok(spans)
  }

  lemma CanonDenotes(spans: SpanSet, t: Tumbler)
    requires Canon(spans).Ok?
    ensures Denotes(Canon(spans).value, t) <==> Denotes(spans, t)
  {
    var len :| UniformAt(spans, len);
    CanonEndsCorrect(spans, len);
    DenotesByEnds(Canon(spans).value, t);
  }

  /** Two level-uniform sets with the same endpoints in the same order are the same set. */
  lemma AllEndsInjective(x: SpanSet, y: SpanSet)
    requires LevelClass(x).Ok? && LevelClass(y).Ok? && AllEnds(x) == AllEnds(y)
    ensures x == y
  {
    var lx :| UniformAt(x, lx);
    var ly :| UniformAt(y, ly);
    forall i | 0 <= i < |x| ensures x[i] == y[i] {
      assert AllEnds(x)[i] == AllEnds(y)[i];
      EndsDetermineSpan(x[i]);
      EndsDetermineSpan(y[i]);
    }
  }

  /** A set is its own canonical form exactly when it is level-uniform, ascending and pairwise separated. */
  lemma IsNormalizedMeaning(spans: SpanSet)
    ensures IsNormalized(spans) <==> LevelClass(spans).Ok? && NormalEnds(AllEnds(spans))
  {
    if LevelClass(spans).Ok? {
      var len :| UniformAt(spans, len);
      var es := AllEnds(spans);
      CanonEndsCorrect(spans, len);
      if NormalEnds(es) {
        NormalIsAscending(es);
        SortFixesAscending(es);
        if es != [] { CoalesceFixesNormal(es); }
        AllEndsInjective(Canon(spans).value, spans);
      }
    }
  }

  lemma CanonIsNormalized(spans: SpanSet)
    requires Canon(spans).Ok?
    ensures IsNormalized(Canon(spans).value)
    ensures Canon(Canon(spans).value) == Canon(spans)
  {
    var len :| UniformAt(spans, len);
    CanonEndsCorrect(spans, len);
    if spans == [] { assert UniformAt([], 0); }
    IsNormalizedMeaning(Canon(spans).value);
  }

  /** S9: equal denotations, at whatever lengths, are exactly equal canonical forms. */
  lemma CanonIsCanonical(a: SpanSet, b: SpanSet)
    requires Canon(a).Ok? && Canon(b).Ok?
    ensures Canon(a) == Canon(b) <==> forall t: Tumbler :: Denotes(a, t) <==> Denotes(b, t)
  {
    var la :| UniformAt(a, la);
    var lb :| UniformAt(b, lb);
    CanonEndsCorrect(a, la);
    CanonEndsCorrect(b, lb);
    if forall t: Tumbler :: Denotes(a, t) <==> Denotes(b, t) {
      NormalFormIsUnique(CanonEnds(a), CanonEnds(b));
      AllEndsInjective(Canon(a).value, Canon(b).value);
    } else {
      assert CanonEnds(a) != CanonEnds(b);
    }
  }

  function Equiv(a: SpanSet, b: SpanSet): Result<bool, LevelMismatch> {
    match (Canon(a), Canon(b))
    case (Ok(x), Ok(y)) => Ok(x == y)
    case (_, _) => Err(LevelMismatch)
  }

  /** The oracle is exact: an answer exactly for two level-uniform sets, and that answer is denotational equality. */
  lemma EquivIsDenotational(a: SpanSet, b: SpanSet)
    ensures Equiv(a, b).Ok? <==> LevelClass(a).Ok? && LevelClass(b).Ok?
    ensures Equiv(a, b).Ok? ==> (Equiv(a, b).value <==> forall t: Tumbler :: Denotes(a, t) <==> Denotes(b, t))
  {
    if Equiv(a, b).Ok? { CanonIsCanonical(a, b); }
  }

  /** Nonempty sets of two different length classes are never equivalent, and the answer is no error. */
  lemma EquivAcrossClasses(a: SpanSet, b: SpanSet, la: nat, lb: nat)
    requires a != [] && b != [] && UniformAt(a, la) && UniformAt(b, lb) && la != lb
    ensures Equiv(a, b) == Ok(false)
  {
    CanonEndsCorrect(a, la);
    CanonEndsCorrect(b, lb);
    assert CanonEnds(a)[0].start != CanonEnds(b)[0].start;
  }

  // ---------------------------------------------------------------- the join

  /** Concatenation: total, and never normalizing. */
  function Union(a: SpanSet, b: SpanSet): SpanSet {
    a + b
  }

  lemma UnionDenotes(a: SpanSet, b: SpanSet, t: Tumbler)
    ensures Denotes(Union(a, b), t) <==> Denotes(a, t) || Denotes(b, t)
  {
    if Denotes(a, t) {
      var i :| 0 <= i < |a| && Contains(a[i], t);
      assert Contains((a + b)[i], t);
    }
    if Denotes(b, t) {
      var i :| 0 <= i < |b| && Contains(b[i], t);
      assert Contains((a + b)[|a| + i], t);
    }
  }

  lemma UnionGate(a: SpanSet, b: SpanSet, len: nat)
    ensures UniformAt(Union(a, b), len) <==> UniformAt(a, len) && UniformAt(b, len)
  {
    if UniformAt(a + b, len) {
      assert forall i :: 0 <= i < |a| ==> a[i] == (a + b)[i];
      assert forall i :: 0 <= i < |b| ==> b[i] == (a + b)[|a| + i];
    }
  }

  lemma EqualCanon(x: SpanSet, y: SpanSet)
    requires forall len: nat :: UniformAt(x, len) <==> UniformAt(y, len)
    requires forall t: Tumbler :: Denotes(x, t) <==> Denotes(y, t)
    ensures Canon(x) == Canon(y)
  {
    if LevelClass(x).Ok? {
      CanonIsCanonical(x, y);
    }
  }

  /** S10: a join-semilattice up to the canonical form, its refusals included. */
  lemma UnionCommutes(a: SpanSet, b: SpanSet)
    ensures Canon(Union(a, b)) == Canon(Union(b, a))
  {
    forall len: nat ensures UniformAt(Union(a, b), len) <==> UniformAt(Union(b, a), len) {
      UnionGate(a, b, len);
      UnionGate(b, a, len);
    }
    forall t: Tumbler ensures Denotes(Union(a, b), t) <==> Denotes(Union(b, a), t) {
      UnionDenotes(a, b, t);
      UnionDenotes(b, a, t);
    }
    EqualCanon(Union(a, b), Union(b, a));
  }

  lemma UnionIdempotent(a: SpanSet)
    ensures Canon(Union(a, a)) == Canon(a)
  {
    forall len: nat ensures UniformAt(Union(a, a), len) <==> UniformAt(a, len) {
      UnionGate(a, a, len);
    }
    forall t: Tumbler ensures Denotes(Union(a, a), t) <==> Denotes(a, t) {
      UnionDenotes(a, a, t);
    }
    EqualCanon(Union(a, a), a);
  }

  lemma UnionAssociates(a: SpanSet, b: SpanSet, c: SpanSet)
    ensures Canon(Union(a, Union(b, c))) == Canon(Union(Union(a, b), c))
  {
    assert a + (b + c) == (a + b) + c;
  }
}

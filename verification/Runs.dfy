/** One contiguous stretch of element addresses, and the position arithmetic it owns. */
module Runs {
  import opened Wrappers
  import opened Tumblers
  import opened Arithmetic
  import opened Addresses
  import opened Spans

  type Positive = n: nat | n >= 1 witness 1

  /** `width` consecutive addresses from `iStart`; its place in an arrangement is not stored. */
  datatype Run = Run(iStart: Tumbler, width: Positive)

  /** The standing clause the arithmetic stands on: the last component of the start is an ordinal. */
  predicate AdmitsStart(a: seq<nat>) {
    IsElementPosition(a)
  }

  predicate Standing(run: Run) {
    AdmitsStart(run.iStart)
  }

  predicate AllStanding(runs: seq<Run>) {
    forall i :: 0 <= i < |runs| ==> Standing(runs[i])
  }

  datatype RunError = ZeroRunWidth | NotAnElementPosition

  /** The checked door: the width is judged first, whatever the start. */
  function NewRun(iStart: Address, width: nat): (r: Result<Run, RunError>)
    ensures r.Ok? <==> width >= 1 && AdmitsStart(iStart)
    ensures r.Ok? ==> Standing(r.value) && r.value.iStart == iStart && r.value.width == width
    ensures r == Err(ZeroRunWidth) <==> width == 0
  {
    if width == 0 then Err(ZeroRunWidth)
    else if !AdmitsStart(iStart) then Err(NotAnElementPosition)
    else Ok(Run(iStart, width))
  }

  /** The address at offset `k`; `k = width` is the exclusive reach. */
  function TumblerAt(run: Run, k: nat): Tumbler {
    Shift(run.iStart, k)
  }

  function RunReach(run: Run): Tumbler {
    TumblerAt(run, run.width)
  }

  /** The addresses of the run in order. */
  function Addrs(run: Run): (r: seq<Tumbler>)
    ensures |r| == run.width
    ensures forall k :: 0 <= k < |r| ==> r[k] == TumblerAt(run, k)
  {
    seq(run.width, k requires 0 <= k < run.width => TumblerAt(run, k))
  }

  /** The one admissible lift of a run to a span. */
  function IExtent(run: Run): (s: Span)
    ensures s.start == run.iStart && Reach(s) == RunReach(run) && IsLevelUniform(s)
  {
    ShiftOrders(run.iStart, 0, run.width);
    ShiftZero(run.iStart);
    SpanOf(Ends(run.iStart, RunReach(run)))
  }

  /** Every offset of a standing run, its reach included, is a full element position of its chain. */
  lemma PositionsStand(run: Run, k: nat)
    requires Standing(run)
    ensures IsElementPosition(TumblerAt(run, k))
    ensures ChainOf(TumblerAt(run, k)) == ChainOf(run.iStart)
    ensures OrdinalOf(TumblerAt(run, k)) == OrdinalOf(run.iStart) + k
  {
    ShiftKeepsElementPosition(run.iStart, k);
  }

  /** Membership in the I-extent, for a full element position of any length, is membership among the run's addresses. */
  lemma ExtentIsExact(run: Run, z: seq<nat>)
    requires Standing(run) && IsElementPosition(z)
    ensures Contains(IExtent(run), z) <==> z in Addrs(run)
  {
    ExtentHoldsItsPositions(run.iStart, run.width, z);
    if Contains(IExtent(run), z) {
      var k :| 0 <= k < run.width && z == Shift(run.iStart, k);
      assert Addrs(run)[k] == z;
    }
    if z in Addrs(run) {
      var k :| 0 <= k < run.width && Addrs(run)[k] == z;
      assert z == Shift(run.iStart, k);
    }
  }

  /** The positions of a run are distinct. */
  lemma AddrsDistinct(run: Run, i: nat, j: nat)
    requires i < run.width && j < run.width
    ensures Addrs(run)[i] == Addrs(run)[j] <==> i == j
  {
    ShiftOrders(run.iStart, i, j);
  }

  // ---------------------------------------------------------------- offsets covered by a span

  /** The half-open search for the least offset in `[lo, hi]` whose address is at or past `bound`. */
  function LowerBoundIn(run: Run, bound: Tumbler, lo: nat, hi: nat): (r: nat)
    requires lo <= hi <= run.width
    ensures lo <= r <= hi
    decreases hi - lo
  {
    if lo == hi then lo
    else
      var mid := (lo + hi) / 2;
      if Le(bound, TumblerAt(run, mid)) then LowerBoundIn(run, bound, lo, mid)
      else LowerBoundIn(run, bound, mid + 1, hi)
  }

  function LowerBound(run: Run, bound: Tumbler): (r: nat)
    ensures r <= run.width
  {
    LowerBoundIn(run, bound, 0, run.width)
  }

  /** The search answers the threshold: below it every offset lies before the bound, at and past it none does. */
  lemma {:induction false} LowerBoundInIsThreshold(run: Run, bound: Tumbler, lo: nat, hi: nat, k: nat)
    requires lo <= hi <= run.width && k < run.width
    requires k < lo ==> Lt(TumblerAt(run, k), bound)
    requires k >= hi ==> Le(bound, TumblerAt(run, k))
    ensures k < LowerBoundIn(run, bound, lo, hi) <==> Lt(TumblerAt(run, k), bound)
    decreases hi - lo
  {
    LtTotal(TumblerAt(run, k), bound);
    if Lt(TumblerAt(run, k), bound) { LtAsymmetric(TumblerAt(run, k), bound); }
    if lo < hi {
      var mid := (lo + hi) / 2;
      ShiftOrders(run.iStart, k, mid);
      LtTotal(TumblerAt(run, mid), bound);
      if Le(bound, TumblerAt(run, mid)) {
        if k >= mid {
          ShiftOrders(run.iStart, mid, k);
          PastStaysPast(bound, TumblerAt(run, mid), TumblerAt(run, k));
        }
        LowerBoundInIsThreshold(run, bound, lo, mid, k);
      } else {
        if k <= mid { BeforeStaysBefore(TumblerAt(run, k), TumblerAt(run, mid), bound); }
        LowerBoundInIsThreshold(run, bound, mid + 1, hi, k);
      }
    }
  }

  lemma PastStaysPast(bound: Tumbler, a: Tumbler, b: Tumbler)
    requires Le(bound, a) && Le(a, b)
    ensures Le(bound, b)
  {
    OrderLaws();
  }

  lemma BeforeStaysBefore(a: Tumbler, b: Tumbler, bound: Tumbler)
    requires Le(a, b) && Lt(b, bound)
    ensures Lt(a, bound)
  {
    OrderLaws();
  }

  lemma LowerBoundIsThreshold(run: Run, bound: Tumbler, k: nat)
    requires k < run.width
    ensures k < LowerBound(run, bound) <==> Lt(TumblerAt(run, k), bound)
  {
    LowerBoundInIsThreshold(run, bound, 0, run.width, k);
  }

  /** The binary search as it runs. */
  method SearchLowerBound(run: Run, bound: Tumbler) returns (lo: nat)
    ensures lo == LowerBound(run, bound)
    ensures forall k :: 0 <= k < run.width ==> (k < lo <==> Lt(TumblerAt(run, k), bound))
  {
    lo := 0;
    var hi: nat := run.width;
    while lo < hi
      invariant 0 <= lo <= hi <= run.width
      invariant LowerBoundIn(run, bound, lo, hi) == LowerBound(run, bound)
    {
      var mid := (lo + hi) / 2;
      if Le(bound, TumblerAt(run, mid)) {
        hi := mid;
      } else {
        lo := mid + 1;
      }
    }
    forall k | 0 <= k < run.width ensures k < lo <==> Lt(TumblerAt(run, k), bound) {
      LowerBoundIsThreshold(run, bound, k);
    }
  }

  /** A nonempty half-open range of one run's offsets. */
  datatype OffsetRange = OffsetRange(lo: nat, hi: nat)

  /**
   * The offsets of the run a span covers. A span level-uniform at the run's own length is met with the
   * I-extent and the offsets read off last components; any other span takes the boundary search.
   */
  function OffsetsCoveredBy(run: Run, span: Span): Option<OffsetRange> {
    if IsLevelUniform(span) && |span.start| == |run.iStart| then
      match Intersect(IExtent(run), span)
      case Err(_) => None
      case Ok(None) => None
      case Ok(Some(meet)) =>
        MeetLiesOnTheRun(run, span);
        Some(OffsetRange(OrdinalOf(meet.start) - OrdinalOf(run.iStart), OrdinalOf(Reach(meet)) - OrdinalOf(run.iStart)))
    else
      var lo, hi := LowerBound(run, span.start), LowerBound(run, Reach(span));
      if lo < hi then Some(OffsetRange(lo, hi)) else None
  }

  /** A same-length tumbler between two positions of a run, ends included, shares the run's chain. */
  lemma BetweenOffsets(run: Run, t: Tumbler)
    requires |t| == |run.iStart| && Le(run.iStart, t) && Le(t, RunReach(run))
    ensures ChainOf(t) == ChainOf(run.iStart)
    ensures OrdinalOf(run.iStart) <= OrdinalOf(t) <= OrdinalOf(run.iStart) + run.width
  {
    var c, reach := ChainOf(run.iStart), RunReach(run);
    OffsetShape(run, run.width);
    if c != [] {
      assert IsPrefix(c, run.iStart) && IsPrefix(c, reach);
      PrefixIsConvex(c, run.iStart, t, reach);
    }
    assert ChainOf(t) == c;
    ChainOrder(run.iStart, t);
    ChainOrder(t, reach);
  }

  lemma OffsetShape(run: Run, k: nat)
    ensures |TumblerAt(run, k)| == |run.iStart|
    ensures ChainOf(TumblerAt(run, k)) == ChainOf(run.iStart)
    ensures OrdinalOf(TumblerAt(run, k)) == OrdinalOf(run.iStart) + k
  {
  }

  lemma MeetLiesOnTheRun(run: Run, span: Span)
    requires IsLevelUniform(span) && |span.start| == |run.iStart|
    requires Intersect(IExtent(run), span).Ok? && Intersect(IExtent(run), span).value.Some?
    ensures var meet := Intersect(IExtent(run), span).value.value;
            && meet.start == MaxOf(run.iStart, span.start) && Reach(meet) == MinOf(RunReach(run), Reach(span))
            && Lt(meet.start, Reach(meet))
            && ChainOf(meet.start) == ChainOf(Reach(meet)) == ChainOf(run.iStart)
            && OrdinalOf(run.iStart) <= OrdinalOf(meet.start) < OrdinalOf(Reach(meet)) <= OrdinalOf(run.iStart)
                 + run.width
  {
    var x, y := EndsOf(IExtent(run)), EndsOf(span);
    var a, b := MaxOf(x.start, y.start), MinOf(x.reach, y.reach);
    assert Lt(a, b);
    var _, _, _, _, _ := Ranks(x.start, x.reach, y.start, y.reach, x.start);
    BetweenOffsets(run, a);
    BetweenOffsets(run, b);
    ChainOrder(a, b);
  }

  /** Both branches compute the same thing: exactly the offsets whose address the span holds. */
  lemma OffsetsCoveredByIsExact(run: Run, span: Span, k: nat)
    requires k < run.width
    ensures var r := OffsetsCoveredBy(run, span);
            Contains(span, TumblerAt(run, k)) <==> r.Some? && r.value.lo <= k < r.value.hi
  {
    var t := TumblerAt(run, k);
    if IsLevelUniform(span) && |span.start| == |run.iStart| {
      UniformBranchIsExact(run, span, k);
    } else {
      LowerBoundIsThreshold(run, span.start, k);
      LowerBoundIsThreshold(run, Reach(span), k);
      LtTotal(t, span.start);
      if Lt(t, span.start) { LtAsymmetric(t, span.start); }
    }
  }

  lemma UniformBranchIsExact(run: Run, span: Span, k: nat)
    requires k < run.width && IsLevelUniform(span) && |span.start| == |run.iStart|
    ensures var r := OffsetsCoveredBy(run, span);
            Contains(span, TumblerAt(run, k)) <==> r.Some? && r.value.lo <= k < r.value.hi
  {
    var t := TumblerAt(run, k);
    IntersectIsMeet(IExtent(run), span, t);
    assert Contains(IExtent(run), t) by {
      ShiftOrders(run.iStart, 0, k);
      ShiftZero(run.iStart);
      ShiftOrders(run.iStart, k, run.width);
    }
    var meet := Intersect(IExtent(run), span).value;
    if meet.Some? {
      MeetLiesOnTheRun(run, span);
      OffsetShape(run, k);
      ChainOrder(meet.value.start, t);
      ChainOrder(t, Reach(meet.value));
    }
  }

  /** What the range promises its readers: nonempty, and within the run. */
  lemma OffsetRangeIsNonempty(run: Run, span: Span)
    requires OffsetsCoveredBy(run, span).Some?
    ensures OffsetsCoveredBy(run, span).value.lo < OffsetsCoveredBy(run, span).value.hi <= run.width
  {
    if IsLevelUniform(span) && |span.start| == |run.iStart| {
      MeetLiesOnTheRun(run, span);
    }
  }
}

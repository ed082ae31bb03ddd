/** The arrangement reads: the I-to-V projection, its emptiness test, and what a document has lost. */
module Reads {
  import opened Wrappers
  import opened Tumblers
  import opened Arithmetic
  import opened Addresses
  import opened Spans
  import opened SpanSets
  import opened SpanSetAlgebra
  import opened SpanSetSweeps
  import opened Runs
  import opened RunLists
  import opened VSpaces

  // ---------------------------------------------------------------- project

  lemma HeadSplits(spans: SpanSet, t: Tumbler)
    requires spans != []
    ensures Denotes(spans, t) <==> Contains(spans[0], t) || Denotes(spans[1..], t)
  {
    assert spans == [spans[0]] + spans[1..];
    UnionDenotes([spans[0]], spans[1..], t);
    assert Denotes([spans[0]], t) <==> Contains([spans[0]][0], t);
  }

  /** The denotation taken component by component: what the loops below induct on. */
  ghost predicate Covered(spans: SpanSet, t: Tumbler) {
    spans != [] && (Contains(spans[0], t) || Covered(spans[1..], t))
  }

  lemma {:induction false} CoveredIsDenotes(spans: SpanSet, t: Tumbler)
    ensures Covered(spans, t) <==> Denotes(spans, t)
  {
    if spans != [] {
      HeadSplits(spans, t);
      CoveredIsDenotes(spans[1..], t);
    }
  }

  lemma CoveredConcat(x: SpanSet, y: SpanSet, t: Tumbler)
    ensures Covered(x + y, t) <==> Covered(x, t) || Covered(y, t)
  {
    CoveredIsDenotes(x, t);
    CoveredIsDenotes(y, t);
    CoveredIsDenotes(x + y, t);
    UnionDenotes(x, y, t);
  }

  /** The V-span of the offsets a cover reaches of a block, if it reaches any. */
  function RangeSpans(covered: Option<OffsetRange>, vStart: nat): SpanSet
    requires covered.Some? ==> covered.value.lo < covered.value.hi
  {
    match covered
    case None => []
    case Some(range) => [MakeVSpan(CONTENT_SUBSPACE, vStart + range.lo, range.hi - range.lo).value]
  }

  /** The V-spans of one (block, cover) pair: one, where the cover reaches the block. */
  function PairSpans(run: Run, vStart: nat, cover: Span): SpanSet {
    var covered := OffsetsCoveredBy(run, cover);
    if covered.Some? then
      OffsetRangeIsNonempty(run, cover);
      RangeSpans(covered, vStart)
    else []
  }

  function BlockSpans(run: Run, vStart: nat, coverage: SpanSet): SpanSet {
    if coverage == [] then [] else PairSpans(run, vStart, coverage[0]) + BlockSpans(run, vStart, coverage[1..])
  }

  /** One V-span per overlapping (block, cover) pair, block by block. */
  function Footprint(runs: seq<Run>, vStart: nat, coverage: SpanSet): SpanSet {
    if runs == [] then []
    else BlockSpans(runs[0], vStart, coverage) + Footprint(runs[1..], vStart + runs[0].width, coverage)
  }

  predicate UnderOrdinals(t: Tumbler, lo: nat, hi: nat) {
    |t| >= 2 && t[0] == CONTENT_SUBSPACE && lo <= t[1] < hi
  }

  /** The address a run in place holds at the ordinal `t` lies under. */
  function Under(run: Run, vStart: nat, t: Tumbler): (a: Tumbler)
    requires UnderOrdinals(t, vStart, vStart + run.width)
    ensures a == Addrs(run)[t[1] - vStart]
  {
    TumblerAt(run, t[1] - vStart)
  }

  /** A range's span lies under the offsets of the range, placed at the block, and under no others. */
  lemma RangeSpansHold(covered: Option<OffsetRange>, width: nat, vStart: nat, t: Tumbler, held: bool)
    requires covered.Some? ==> covered.value.lo < covered.value.hi <= width
    requires UnderOrdinals(t, vStart, vStart + width) ==>
               (held <==> covered.Some? && covered.value.lo <= t[1] - vStart < covered.value.hi)
    ensures Covered(RangeSpans(covered, vStart), t) <==> UnderOrdinals(t, vStart, vStart + width) && held
    ensures UniformAt(RangeSpans(covered, vStart), 2)
  {
    if covered.Some? {
      VSpanDenotes(CONTENT_SUBSPACE, vStart + covered.value.lo, covered.value.hi - covered.value.lo, t);
      CoveredOne(MakeVSpan(CONTENT_SUBSPACE, vStart + covered.value.lo, covered.value.hi - covered.value.lo).value, t);
    }
  }

  lemma PairSpansDenote(run: Run, vStart: nat, cover: Span, t: Tumbler)
    ensures Covered(PairSpans(run, vStart, cover), t) <==>
            UnderOrdinals(t, vStart, vStart + run.width) && Contains(cover, Under(run, vStart, t))
    ensures UniformAt(PairSpans(run, vStart, cover), 2)
  {
    PairHeld(run, vStart, cover, t);
    var held := UnderOrdinals(t, vStart, vStart + run.width) && Contains(cover, Under(run, vStart, t));
    RangeSpansHold(OffsetsCoveredBy(run, cover), run.width, vStart, t, held);
  }

  lemma PairHeld(run: Run, vStart: nat, cover: Span, t: Tumbler)
    ensures var covered := OffsetsCoveredBy(run, cover);
            && (covered.Some? ==> covered.value.lo < covered.value.hi <= run.width)
            && (UnderOrdinals(t, vStart, vStart + run.width) ==>
                  (Contains(cover, Under(run, vStart, t)) <==>
                    covered.Some? && covered.value.lo <= t[1] - vStart < covered.value.hi))
  {
    if OffsetsCoveredBy(run, cover).Some? { OffsetRangeIsNonempty(run, cover); }
    if UnderOrdinals(t, vStart, vStart + run.width) { OffsetsCoveredByIsExact(run, cover, t[1] - vStart); }
  }

  lemma CoveredOne(span: Span, t: Tumbler)
    ensures Covered([span], t) <==> Contains(span, t)
  {
    assert [span][1..] == [];
  }

  lemma {:induction false} BlockSpansDenote(run: Run, vStart: nat, coverage: SpanSet, t: Tumbler)
    ensures Covered(BlockSpans(run, vStart, coverage), t) <==>
            UnderOrdinals(t, vStart, vStart + run.width) && Covered(coverage, Under(run, vStart, t))
  {
    if coverage != [] {
      PairSpansDenote(run, vStart, coverage[0], t);
      BlockSpansDenote(run, vStart, coverage[1..], t);
      CoveredConcat(PairSpans(run, vStart, coverage[0]), BlockSpans(run, vStart, coverage[1..]), t);
    }
  }

  lemma UniformConcat(x: SpanSet, y: SpanSet, both: SpanSet, len: nat)
    requires both == x + y && UniformAt(x, len) && UniformAt(y, len)
    ensures UniformAt(both, len)
  {
  }

  lemma BlockUnfolds(run: Run, vStart: nat, coverage: SpanSet)
    requires coverage != []
    ensures BlockSpans(run, vStart, coverage) == PairSpans(run, vStart, coverage[0])
              + BlockSpans(run, vStart, coverage[1..])
  {
  }

  lemma FootprintUnfolds(runs: seq<Run>, vStart: nat, coverage: SpanSet)
    requires runs != []
    ensures Footprint(runs, vStart, coverage)
         == BlockSpans(runs[0], vStart, coverage) + Footprint(runs[1..], vStart + runs[0].width, coverage)
  {
  }

  lemma {:induction false} BlockSpansUniform(run: Run, vStart: nat, coverage: SpanSet)
    ensures UniformAt(BlockSpans(run, vStart, coverage), 2)
  {
    if coverage != [] {
      PairSpansDenote(run, vStart, coverage[0], [1]);
      BlockSpansUniform(run, vStart, coverage[1..]);
      BlockUnfolds(run, vStart, coverage);
      UniformConcat(PairSpans(run, vStart, coverage[0]), BlockSpans(run, vStart, coverage[1..]),
        BlockSpans(run, vStart, coverage), 2);
    }
  }

  lemma {:induction false} FootprintUniform(runs: seq<Run>, vStart: nat, coverage: SpanSet)
    ensures UniformAt(Footprint(runs, vStart, coverage), 2)
    decreases |runs|
  {
    if runs != [] {
      var rest := Footprint(runs[1..], vStart + runs[0].width, coverage);
      BlockSpansUniform(runs[0], vStart, coverage);
      FootprintUniform(runs[1..], vStart + runs[0].width, coverage);
      FootprintUnfolds(runs, vStart, coverage);
      UniformConcat(BlockSpans(runs[0], vStart, coverage), rest, Footprint(runs, vStart, coverage), 2);
    }
  }

  /** Some block in place holds an address of the coverage at the ordinal `t` lies under. */
  ghost predicate SomeBlockCovered(runs: seq<Run>, vStart: nat, coverage: SpanSet, t: Tumbler)
    decreases |runs|
  {
    && runs != []
    && ((UnderOrdinals(t, vStart, vStart + runs[0].width) && Covered(coverage, Under(runs[0], vStart, t)))
        || SomeBlockCovered(runs[1..], vStart + runs[0].width, coverage, t))
  }

  lemma {:induction false} FootprintDenotes(runs: seq<Run>, vStart: nat, coverage: SpanSet, t: Tumbler)
    ensures Covered(Footprint(runs, vStart, coverage), t) <==> SomeBlockCovered(runs, vStart, coverage, t)
  {
    if runs != [] {
      BlockSpansDenote(runs[0], vStart, coverage, t);
      FootprintDenotes(runs[1..], vStart + runs[0].width, coverage, t);
      CoveredConcat(BlockSpans(runs[0], vStart, coverage), Footprint(runs[1..], vStart + runs[0].width, coverage), t);
    }
  }

  /** Whether the sequence holds an address of the coverage at the ordinal `t` lies under. */
  ghost predicate SequenceCovered(f: seq<Tumbler>, vStart: nat, coverage: SpanSet, t: Tumbler) {
    UnderOrdinals(t, vStart, vStart + |f|) && Covered(coverage, f[t[1] - vStart])
  }

  lemma SequenceSplits(run: Run, g: seq<Tumbler>, vStart: nat, coverage: SpanSet, t: Tumbler)
    ensures SequenceCovered(Addrs(run) + g, vStart, coverage, t) <==>
            (UnderOrdinals(t, vStart, vStart + run.width) && Covered(coverage, Under(run, vStart, t)))
            || SequenceCovered(g, vStart + run.width, coverage, t)
  {
  }

  lemma {:induction false} BlocksReadTheSequence(runs: seq<Run>, vStart: nat, coverage: SpanSet, t: Tumbler)
    ensures SomeBlockCovered(runs, vStart, coverage, t) <==> SequenceCovered(Flat(runs), vStart, coverage, t)
    decreases |runs|
  {
    if runs != [] {
      BlocksReadTheSequence(runs[1..], vStart + runs[0].width, coverage, t);
      SequenceSplits(runs[0], Flat(runs[1..]), vStart, coverage, t);
    }
  }

  /** The footprint, normalized: its components are all depth-two, so the gate never refuses. */
  function Project(runs: seq<Run>, coverage: SpanSet): (r: SpanSet)
    ensures Canon(Footprint(runs, 1, coverage)) == Ok(r)
  {
    FootprintUniform(runs, 1, coverage);
    Canon(Footprint(runs, 1, coverage)).value
  }

  /** Whether the address at an ordinal, where one is arranged, lies in the coverage. */
  ghost predicate PointCovered(runs: seq<Run>, coverage: SpanSet, ord: nat) {
    Point(runs, ord).Some? && Denotes(coverage, Point(runs, ord).value)
  }

  lemma PointReads(runs: seq<Run>, coverage: SpanSet, t: Tumbler)
    ensures SequenceCovered(Flat(runs), 1, coverage, t) <==>
            |t| >= 2 && t[0] == CONTENT_SUBSPACE && PointCovered(runs, coverage, t[1])
  {
    if |t| >= 2 {
      PointIsIndex(runs, t[1]);
      if 1 <= t[1] <= |Flat(runs)| { CoveredIsDenotes(coverage, Flat(runs)[t[1] - 1]); }
    }
  }

  lemma FootprintReads(runs: seq<Run>, coverage: SpanSet, t: Tumbler)
    ensures Denotes(Footprint(runs, 1, coverage), t) <==> SequenceCovered(Flat(runs), 1, coverage, t)
  {
    CoveredIsDenotes(Footprint(runs, 1, coverage), t);
    FootprintDenotes(runs, 1, coverage, t);
    BlocksReadTheSequence(runs, 1, coverage, t);
  }

  /** The projection holds exactly the positions whose address the coverage holds, for coverages of mixed lengths. */
  lemma ProjectIsExact(runs: seq<Run>, coverage: SpanSet, t: Tumbler)
    ensures Denotes(Project(runs, coverage), t) <==>
            |t| >= 2 && t[0] == CONTENT_SUBSPACE && PointCovered(runs, coverage, t[1])
    ensures IsNormalized(Project(runs, coverage))
  {
    var footprint, projected := Footprint(runs, 1, coverage), Project(runs, coverage);
    CanonDenotes(footprint, t);
    CanonIsNormalized(footprint);
    FootprintReads(runs, coverage, t);
    PointReads(runs, coverage, t);
  }

  /** The same run-by-cover question, stopping at the first yes. */
  predicate ArrangesAny(runs: seq<Run>, coverage: SpanSet)
  {
    exists i, j :: 0 <= i < |runs| && 0 <= j < |coverage| && OffsetsCoveredBy(runs[i], coverage[j]).Some?
  }

  lemma CoveredOffsetExists(run: Run, cover: Span)
    ensures OffsetsCoveredBy(run, cover).Some? <==> exists k :: 0 <= k < run.width && Contains(cover, TumblerAt(run, k))
  {
    if OffsetsCoveredBy(run, cover).Some? {
      OffsetRangeIsNonempty(run, cover);
      var lo := OffsetsCoveredBy(run, cover).value.lo;
      OffsetsCoveredByIsExact(run, cover, lo);
      assert Contains(cover, TumblerAt(run, lo));
    }
    if k :| 0 <= k < run.width && Contains(cover, TumblerAt(run, k)) { OffsetsCoveredByIsExact(run, cover, k); }
  }

  lemma SomeAddr(run: Run, a: Tumbler)
    ensures a in Addrs(run) <==> exists k :: 0 <= k < run.width && TumblerAt(run, k) == a
  {
    if a in Addrs(run) {
      var k :| 0 <= k < run.width && Addrs(run)[k] == a;
    }
    if k :| 0 <= k < run.width && TumblerAt(run, k) == a {
      assert Addrs(run)[k] == a;
    }
  }

  lemma FoundBySearch(runs: seq<Run>, coverage: SpanSet, i: nat, j: nat) returns (a: Tumbler)
    requires i < |runs| && j < |coverage| && OffsetsCoveredBy(runs[i], coverage[j]).Some?
    ensures a in Flat(runs) && Denotes(coverage, a)
  {
    CoveredOffsetExists(runs[i], coverage[j]);
    var k :| 0 <= k < runs[i].width && Contains(coverage[j], TumblerAt(runs[i], k));
    a := TumblerAt(runs[i], k);
    SomeAddr(runs[i], a);
    FlatMembers(runs, a);
  }

  lemma SearchFinds(runs: seq<Run>, coverage: SpanSet, a: Tumbler)
    requires a in Flat(runs) && Denotes(coverage, a)
    ensures ArrangesAny(runs, coverage)
  {
    FlatMembers(runs, a);
    var i :| 0 <= i < |runs| && a in Addrs(runs[i]);
    SomeAddr(runs[i], a);
    var j :| 0 <= j < |coverage| && Contains(coverage[j], a);
    CoveredOffsetExists(runs[i], coverage[j]);
  }

  /** Present containment, read on the plain sequence. */
  lemma ArrangesAnyIsExact(runs: seq<Run>, coverage: SpanSet)
    ensures ArrangesAny(runs, coverage) <==> exists a :: a in Flat(runs) && Denotes(coverage, a)
  {
    if ArrangesAny(runs, coverage) {
      var i, j :| 0 <= i < |runs| && 0 <= j < |coverage| && OffsetsCoveredBy(runs[i], coverage[j]).Some?;
      var a := FoundBySearch(runs, coverage, i, j);
    }
    if a :| a in Flat(runs) && Denotes(coverage, a) { SearchFinds(runs, coverage, a); }
  }

  lemma ProjectedPoint(runs: seq<Run>, coverage: SpanSet) returns (a: Tumbler)
    requires Project(runs, coverage) != []
    ensures a in Flat(runs) && Denotes(coverage, a)
  {
    var first := Project(runs, coverage)[0];
    AddAdvances(first.start, first.width);
    assert Contains(first, first.start);
    ProjectIsExact(runs, coverage, first.start);
    a := CoveredAddress(runs, coverage, first.start[1]);
  }

  lemma CoveredAddress(runs: seq<Run>, coverage: SpanSet, ord: nat) returns (a: Tumbler)
    requires PointCovered(runs, coverage, ord)
    ensures a in Flat(runs) && Denotes(coverage, a)
  {
    PointIsIndex(runs, ord);
    a := Flat(runs)[ord - 1];
  }

  lemma PointIsProjected(runs: seq<Run>, coverage: SpanSet, a: Tumbler)
    requires a in Flat(runs) && Denotes(coverage, a)
    ensures Project(runs, coverage) != []
  {
    var ord := CoveredOrdinal(runs, coverage, a);
    CoveredIsProjected(runs, coverage, ord);
  }

  lemma CoveredOrdinal(runs: seq<Run>, coverage: SpanSet, a: Tumbler) returns (ord: nat)
    requires a in Flat(runs) && Denotes(coverage, a)
    ensures PointCovered(runs, coverage, ord)
  {
    var i := IndexOf(Flat(runs), a);
    OrdinalIsCovered(runs, coverage, i);
    ord := i + 1;
  }

  lemma IndexOf(addresses: seq<Tumbler>, a: Tumbler) returns (i: nat)
    requires a in addresses
    ensures i < |addresses| && addresses[i] == a
  {
    i :| i < |addresses| && addresses[i] == a;
  }

  lemma CoveredIsProjected(runs: seq<Run>, coverage: SpanSet, ord: nat)
    requires PointCovered(runs, coverage, ord)
    ensures Project(runs, coverage) != []
  {
    ProjectIsExact(runs, coverage, [CONTENT_SUBSPACE, ord]);
  }

  lemma OrdinalIsCovered(runs: seq<Run>, coverage: SpanSet, i: nat)
    requires i < |Flat(runs)| && Denotes(coverage, Flat(runs)[i])
    ensures PointCovered(runs, coverage, i + 1)
  {
    PointIsIndex(runs, i + 1);
  }

  /** The emptiness test is exactly a nonempty projection. */
  lemma ArrangesAnyIsNonemptyProjection(runs: seq<Run>, coverage: SpanSet)
    ensures ArrangesAny(runs, coverage) <==> Project(runs, coverage) != []
  {
    ArrangesAnyIsExact(runs, coverage);
    if Project(runs, coverage) != [] {
      var a := ProjectedPoint(runs, coverage);
    }
    if a :| a in Flat(runs) && Denotes(coverage, a) { PointIsProjected(runs, coverage, a); }
  }

  /** One block's covers, one V-span per overlapping pair. */
  method BlockByCovers(run: Run, vStart: nat, coverage: SpanSet) returns (vspans: SpanSet)
    ensures vspans == BlockSpans(run, vStart, coverage)
  {
    vspans := [];
    ghost var whole := BlockSpans(run, vStart, coverage);
    WholeAndNone(coverage);
    WholeAndNone(whole);
    for j := 0 to |coverage|
      invariant vspans + BlockSpans(run, vStart, coverage[j..]) == whole
    {
      BlockStep(vspans, run, vStart, coverage, j);
      vspans := vspans + PairSpans(run, vStart, coverage[j]);
    }
    WholeAndNone(vspans);
  }

  lemma WholeAndNone<T>(s: seq<T>)
    ensures s[0..] == s && s[|s|..] == [] && [] + s == s && s + [] == s
  {
  }

  /** Every block's covers, block by block, each where the blocks before it end. */
  method FootprintByBlocks(runs: seq<Run>, coverage: SpanSet) returns (vspans: SpanSet)
    ensures vspans == Footprint(runs, 1, coverage)
  {
    vspans := [];
    var vStart: nat := 1;
    WholeAndNone(runs);
    WholeAndNone(Footprint(runs, 1, coverage));
    for i := 0 to |runs|
      invariant vspans + Footprint(runs[i..], vStart, coverage) == Footprint(runs, 1, coverage)
    {
      FootprintStep(vspans, runs, i, vStart, coverage);
      var block := BlockByCovers(runs[i], vStart, coverage);
      vspans := vspans + block;
      vStart := vStart + runs[i].width;
    }
    WholeAndNone(vspans);
  }

  /** The projection as it runs: the footprint, then one normalize. */
  method ProjectByBlocks(runs: seq<Run>, coverage: SpanSet) returns (out: SpanSet)
    ensures out == Project(runs, coverage)
  {
    ghost var projected := Project(runs, coverage);
    var vspans := FootprintByBlocks(runs, coverage);
    var normal := Normalize(vspans);
    out := normal.value;
  }

  lemma TailAt<T>(s: seq<T>, j: nat)
    requires j < |s|
    ensures s[j..] != [] && s[j..][0] == s[j] && s[j..][1..] == s[j + 1..]
  {
  }

  lemma BlockStep(vspans: SpanSet, run: Run, vStart: nat, coverage: SpanSet, j: nat)
    requires j < |coverage|
    ensures vspans + BlockSpans(run, vStart, coverage[j..])
         == (vspans + PairSpans(run, vStart, coverage[j])) + BlockSpans(run, vStart, coverage[j + 1..])
  {
    TailAt(coverage, j);
    BlockUnfolds(run, vStart, coverage[j..]);
    Associates(vspans, PairSpans(run, vStart, coverage[j]), BlockSpans(run, vStart, coverage[j + 1..]));
  }

  lemma FootprintStep(before: SpanSet, runs: seq<Run>, i: nat, vStart: nat, coverage: SpanSet)
    requires i < |runs|
    ensures before + Footprint(runs[i..], vStart, coverage)
         == (before + BlockSpans(runs[i], vStart, coverage))
           + Footprint(runs[i + 1..], vStart + runs[i].width, coverage)
  {
    TailAt(runs, i);
    FootprintUnfolds(runs[i..], vStart, coverage);
    Associates(before, BlockSpans(runs[i], vStart, coverage),
      Footprint(runs[i + 1..], vStart + runs[i].width, coverage));
  }

  // ---------------------------------------------------------------- deletions

  /** A recorded span: the I-extent of a standing run. */
  ghost predicate IsRunExtent(span: Span) {
    exists run: Run :: Standing(run) && span == IExtent(run)
  }

  ghost predicate AllRunExtents(spans: SpanSet) {
    forall i :: 0 <= i < |spans| ==> IsRunExtent(spans[i])
  }

  /** The I-image of a run-list: its extents, neither merged nor normalized. */
  function Image(runs: seq<Run>): (r: SpanSet)
    ensures |r| == |runs|
    ensures forall i :: 0 <= i < |runs| ==> r[i] == IExtent(runs[i])
  {
    seq(|runs|, i requires 0 <= i < |runs| => IExtent(runs[i]))
  }

  lemma ImageDenotes(runs: seq<Run>, z: Tumbler)
    requires AllStanding(runs)
    ensures AllRunExtents(Image(runs))
    ensures Denotes(Image(runs), z) <==> Holds(runs, z)
    ensures IsElementPosition(z) ==> (Denotes(Image(runs), z) <==> z in Flat(runs))
  {
    if IsElementPosition(z) { HoldsIsExact(runs, z); }
  }

  /** An extent holds full element positions of its own length only: length classes cannot cancel each other. */
  lemma ExtentHoldsOneLength(span: Span, z: Tumbler)
    requires IsRunExtent(span) && IsElementPosition(z) && Contains(span, z)
    ensures |z| == |span.start|
  {
    var run: Run :| Standing(run) && span == IExtent(run);
    ExtentIsExact(run, z);
    var k :| 0 <= k < run.width && Addrs(run)[k] == z;
  }

  lemma ClassHoldsItsLength(spans: SpanSet, len: nat, z: Tumbler)
    requires AllRunExtents(spans)
    ensures UniformAt(ClassOf(spans, len), len)
    ensures IsElementPosition(z) ==> (Denotes(ClassOf(spans, len), z) <==> |z| == len && Denotes(spans, z))
  {
    forall i | 0 <= i < |spans| ensures IsLevelUniform(spans[i]) {
      assert IsRunExtent(spans[i]);
    }
    ClassOfDenotes(spans, len, z);
    if IsElementPosition(z) {
      forall i | 0 <= i < |spans| && Contains(spans[i], z) ensures |spans[i].start| == |z| {
        ExtentHoldsOneLength(spans[i], z);
      }
    }
  }

  /** The classes of `ever` below length `bound`, ascending, each less the same class of `now`. */
  function DeletedBelow(ever: SpanSet, now: SpanSet, bound: nat): Result<SpanSet, LevelMismatch> {
    if bound == 0 then Ok([])
    else WithClass(DeletedBelow(ever, now, bound - 1), ClassOf(ever, bound - 1), ClassOf(now, bound - 1))
  }

  /** One class's difference joined to the answer so far; a class nothing was recorded in is not visited. */
  function WithClass(
    below: Result<SpanSet, LevelMismatch>, ever: SpanSet, now: SpanSet): Result<SpanSet, LevelMismatch>
  {
    if below.Err? || ever == [] then below
    else
      match DifferenceSets(ever, now)
      case Err(e) => Err(e)
      case Ok(d) => Ok(Union(below.value, d))
  }

  function LengthBound(spans: SpanSet): (b: nat)
    ensures forall i :: 0 <= i < |spans| ==> |spans[i].start| < b
  {
    if spans == [] then 0
    else
      var rest := LengthBound(spans[1..]);
      assert spans == [spans[0]] + spans[1..];
      if |spans[0].start| < rest then rest else |spans[0].start| + 1
  }

  /** What was ever recorded, less what is there now, class by class. */
  function Deletions(ever: SpanSet, now: SpanSet): Result<SpanSet, LevelMismatch> {
    DeletedBelow(ever, now, LengthBound(ever))
  }

  lemma WithClassDenotes(below: Result<SpanSet, LevelMismatch>, ever: SpanSet, now: SpanSet, len: nat, z: Tumbler)
    requires below.Ok? && UniformAt(ever, len) && UniformAt(now, len)
    ensures var r := WithClass(below, ever, now);
            r.Ok? && (Denotes(r.value, z) <==> Denotes(below.value, z) || (Denotes(ever, z) && !Denotes(now, z)))
  {
    if ever != [] {
      assert SetsGated(ever, now);
      DifferenceSetsIsDifference(ever, now);
      UnionDenotes(below.value, DifferenceSets(ever, now).value, z);
    }
  }

  ghost predicate LostAt(ever: SpanSet, now: SpanSet, len: nat, z: Tumbler) {
    Denotes(ClassOf(ever, len), z) && !Denotes(ClassOf(now, len), z)
  }

  /** Whether some class below `bound` is one of those picked. */
  ghost predicate AnyBelow(picked: iset<nat>, bound: nat) {
    bound > 0 && (AnyBelow(picked, bound - 1) || bound - 1 in picked)
  }

  lemma {:induction false} AnyBelowMeaning(picked: iset<nat>, bound: nat)
    ensures AnyBelow(picked, bound) <==> exists len: nat :: len < bound && len in picked
  {
    if bound > 0 { AnyBelowMeaning(picked, bound - 1); }
  }

  ghost function LostClasses(ever: SpanSet, now: SpanSet, z: Tumbler): iset<nat> {
    iset len: nat | LostAt(ever, now, len, z)
  }

  /** The per-class gate passes for every pair of extent covers, so the computation never faults. */
  lemma {:induction false} DeletedBelowDenotes(ever: SpanSet, now: SpanSet, bound: nat, z: Tumbler)
    requires AllRunExtents(ever) && AllRunExtents(now)
    ensures var r := DeletedBelow(ever, now, bound);
            r.Ok? && (Denotes(r.value, z) <==> AnyBelow(LostClasses(ever, now, z), bound))
  {
    if bound > 0 {
      var len := bound - 1;
      DeletedBelowDenotes(ever, now, len, z);
      ClassHoldsItsLength(ever, len, z);
      ClassHoldsItsLength(now, len, z);
      WithClassDenotes(DeletedBelow(ever, now, len), ClassOf(ever, len), ClassOf(now, len), len, z);
    }
  }

  lemma ClassBelowBound(spans: SpanSet, len: nat, z: Tumbler)
    requires Denotes(ClassOf(spans, len), z)
    ensures len < LengthBound(spans)
  {
    ClassOfDenotes(spans, len, z);
  }

  /**
   * The per-class computation is the deleted set: of full element positions, exactly those recorded and not arranged.
   */
  lemma DeletionsAreExact(ever: SpanSet, runs: seq<Run>, z: Tumbler)
    requires AllRunExtents(ever) && AllStanding(runs)
    ensures var r := Deletions(ever, Image(runs));
            r.Ok? && (IsElementPosition(z) ==> (Denotes(r.value, z) <==> Denotes(ever, z) && z !in Flat(runs)))
  {
    var now := Image(runs);
    ImageDenotes(runs, z);
    DeletedBelowDenotes(ever, now, LengthBound(ever), z);
    if IsElementPosition(z) {
      LostOnlyAtItsLength(ever, now, z);
    }
  }

  lemma LostAtOneLength(ever: SpanSet, now: SpanSet, z: Tumbler, len: nat)
    requires AllRunExtents(ever) && AllRunExtents(now) && IsElementPosition(z)
    ensures LostAt(ever, now, len, z) <==> len == |z| && Denotes(ever, z) && !Denotes(now, z)
    ensures LostAt(ever, now, len, z) ==> len < LengthBound(ever)
  {
    ClassHoldsItsLength(ever, len, z);
    ClassHoldsItsLength(now, len, z);
    if LostAt(ever, now, len, z) { ClassBelowBound(ever, len, z); }
  }

  lemma LostOnlyAtItsLength(ever: SpanSet, now: SpanSet, z: Tumbler)
    requires AllRunExtents(ever) && AllRunExtents(now) && IsElementPosition(z)
    ensures AnyBelow(LostClasses(ever, now, z), LengthBound(ever)) <==> Denotes(ever, z) && !Denotes(now, z)
  {
    var lost := Denotes(ever, z) && !Denotes(now, z);
    forall len: nat
      ensures len in LostClasses(ever, now, z) <==> len == |z| && lost
    {
      LostAtOneLength(ever, now, z, len);
    }
    LostAtOneLength(ever, now, z, |z|);
    AnyBelowOne(LostClasses(ever, now, z), LengthBound(ever), |z|, lost);
  }

  lemma AnyBelowOne(picked: iset<nat>, bound: nat, only: nat, lost: bool)
    requires forall len: nat :: len in picked <==> len == only && lost
    requires lost ==> only < bound
    ensures AnyBelow(picked, bound) <==> lost
  {
    AnyBelowMeaning(picked, bound);
  }

  /** The classes in ascending length order, an absent class subtracting nothing. */
  method DeletionsByClass(ever: SpanSet, now: SpanSet) returns (r: Result<SpanSet, LevelMismatch>)
    ensures r == Deletions(ever, now)
  {
    var historical, image := ByLevelClass(ever), ByLevelClass(now);
    r := Ok([]);
    for len := 0 to LengthBound(ever)
      invariant r == DeletedBelow(ever, now, len)
    {
      ClassPresence(ever, len);
      ClassPresence(now, len);
      if len in historical {
        var present := if len in image then image[len] else [];
        r := SubtractClass(r, historical[len], present);
      }
    }
  }

  method SubtractClass(
    below: Result<SpanSet, LevelMismatch>, ever: SpanSet, now: SpanSet)
    returns (r: Result<SpanSet, LevelMismatch>)
    requires ever != []
    ensures r == WithClass(below, ever, now)
  {
    if below.Err? {
      return below;
    }
    var deleted := DifferenceByCursors(ever, now);
    r := match deleted case Err(e) => Err(e) case Ok(d) => Ok(Union(below.value, d));
  }

  lemma ClassPresence(spans: SpanSet, len: nat)
    ensures len in ByLevelClass(spans) <==> ClassOf(spans, len) != []
  {
    ClassOfMembers(spans, len);
    if ClassOf(spans, len) != [] {
      assert ClassOf(spans, len)[0] in spans;
      var i :| 0 <= i < |spans| && spans[i] == ClassOf(spans, len)[0];
    }
    if i :| 0 <= i < |spans| && |spans[i].start| == len { assert spans[i] in ClassOf(spans, len); }
  }
}

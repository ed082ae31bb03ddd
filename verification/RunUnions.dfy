/** The merged union of a run set's I-extents, and whole-run membership by one search of it. */
module RunUnions {
  import opened Wrappers
  import opened Tumblers
  import opened Arithmetic
  import opened Addresses
  import opened Spans
  import opened SpanSets
  import opened Runs
  import opened RunLists

  /** Equal in every component but the ordinal. */
  predicate SameContentChain(a: Run, b: Run) {
    |a.iStart| == |b.iStart| && ChainOf(a.iStart) == ChainOf(b.iStart)
  }

  /** The run that opens the piece and the one of its runs that reaches furthest. */
  datatype UnionPiece = UnionPiece(first: Run, furthest: Run)

  function PieceReach(piece: UnionPiece): Tumbler {
    RunReach(piece.furthest)
  }

  function PieceEnds(piece: UnionPiece): Ends {
    Ends(piece.first.iStart, PieceReach(piece))
  }

  predicate ValidPiece(piece: UnionPiece) {
    && Standing(piece.first) && Standing(piece.furthest) && SameContentChain(piece.first, piece.furthest)
    && Lt(piece.first.iStart, PieceReach(piece))
  }

  function RunEnds(run: Run): Ends {
    Ends(run.iStart, RunReach(run))
  }

  predicate AscendingRuns(runs: seq<Run>) {
    forall i, j :: 0 <= i < j < |runs| ==> Le(runs[i].iStart, runs[j].iStart)
  }

  // ---------------------------------------------------------------- the sweep

  predicate Joins(piece: UnionPiece, run: Run) {
    SameContentChain(piece.first, run) && Le(run.iStart, PieceReach(piece))
  }

  function Joined(piece: UnionPiece, run: Run): UnionPiece {
    if Lt(PieceReach(piece), RunReach(run)) then UnionPiece(piece.first, run) else piece
  }

  /** The sweep over ascending runs: `piece` is the last piece, still open to a run that joins it. */
  function Sweep(piece: UnionPiece, rest: seq<Run>): (r: seq<UnionPiece>)
    ensures r != [] && |r| <= 1 + |rest|
    decreases |rest|
  {
    if rest == [] then [piece]
    else if Joins(piece, rest[0]) then Sweep(Joined(piece, rest[0]), rest[1..])
    else [piece] + Sweep(UnionPiece(rest[0], rest[0]), rest[1..])
  }

  function PiecesOf(sorted: seq<Run>): seq<UnionPiece> {
    if sorted == [] then [] else Sweep(UnionPiece(sorted[0], sorted[0]), sorted[1..])
  }

  function AllPieceEnds(pieces: seq<UnionPiece>): (r: seq<Ends>)
    ensures |r| == |pieces|
    ensures forall i :: 0 <= i < |pieces| ==> r[i] == PieceEnds(pieces[i])
  {
    seq(|pieces|, i requires 0 <= i < |pieces| => PieceEnds(pieces[i]))
  }

  function AllRunEnds(runs: seq<Run>): (r: seq<Ends>)
    ensures |r| == |runs|
    ensures forall i :: 0 <= i < |runs| ==> r[i] == RunEnds(runs[i])
  {
    seq(|runs|, i requires 0 <= i < |runs| => RunEnds(runs[i]))
  }

  lemma RunEndsAreWf(run: Run)
    ensures WfEnds(RunEnds(run)) && Lt(run.iStart, RunReach(run))
    ensures RunEnds(run) == EndsOf(IExtent(run))
  {
    ShiftOrders(run.iStart, 0, run.width);
    ShiftZero(run.iStart);
  }

  /**
   * Opening at or before a piece's reach is already being of its chain: a start between two positions of
   * one chain is of that chain, whatever its length.
   */
  lemma JoinsByOrderAlone(piece: UnionPiece, run: Run)
    requires ValidPiece(piece) && Standing(run) && Le(piece.first.iStart, run.iStart)
    ensures Joins(piece, run) <==> Le(run.iStart, PieceReach(piece))
  {
    if Le(run.iStart, PieceReach(piece)) {
      var reach := PieceReach(piece);
      PositionsStand(piece.furthest, piece.furthest.width);
      ChainsAreContiguous(piece.first.iStart, run.iStart, reach);
      ElementPositionComponents(run.iStart);
      assert |ChainOf(run.iStart)| == |run.iStart| - 1;
    }
  }

  lemma JoinedKeepsValid(piece: UnionPiece, run: Run)
    requires ValidPiece(piece) && Standing(run) && Le(piece.first.iStart, run.iStart)
    ensures Joins(piece, run) ==> ValidPiece(Joined(piece, run))
    ensures ValidPiece(UnionPiece(run, run))
  {
    RunEndsAreWf(run);
    if Lt(PieceReach(piece), RunReach(run)) {
      LtTransitive(piece.first.iStart, PieceReach(piece), RunReach(run));
    }
  }

  lemma JoinedDenotes(a: Ends, b: Ends, t: Tumbler)
    requires Lt(a.start, a.reach) && Lt(b.start, b.reach) && Le(a.start, b.start) && Le(b.start, a.reach)
    ensures InEnds(Ends(a.start, if Lt(a.reach, b.reach) then b.reach else a.reach), t) <==>
              InEnds(a, t) || InEnds(b, t)
  {
    var _, _, _, _, _ := Ranks(a.start, a.reach, b.start, b.reach, t);
  }

  predicate AscendFrom(start: Tumbler, rest: seq<Run>) {
    AscendingRuns(rest) && forall i :: 0 <= i < |rest| ==> Le(start, rest[i].iStart)
  }

  lemma AscendTail(start: Tumbler, rest: seq<Run>)
    requires AscendFrom(start, rest) && rest != []
    ensures AscendFrom(start, rest[1..]) && AscendFrom(rest[0].iStart, rest[1..])
  {
  }

  /** What one step of the sweep hands to the next. */
  lemma SweepStep(piece: UnionPiece, rest: seq<Run>)
    requires rest != [] && SweepReady(piece, rest)
    ensures Joins(piece, rest[0]) ==> SweepReady(Joined(piece, rest[0]), rest[1..])
    ensures SweepReady(UnionPiece(rest[0], rest[0]), rest[1..])
    ensures !Joins(piece, rest[0]) ==> Lt(PieceReach(piece), rest[0].iStart)
  {
    AscendTail(piece.first.iStart, rest);
    JoinedKeepsValid(piece, rest[0]);
    JoinsByOrderAlone(piece, rest[0]);
    LtTotal(rest[0].iStart, PieceReach(piece));
  }

  predicate SweepReady(piece: UnionPiece, rest: seq<Run>) {
    ValidPiece(piece) && AllStanding(rest) && AscendFrom(piece.first.iStart, rest)
  }

  lemma JoinedEnds(piece: UnionPiece, run: Run, t: Tumbler)
    requires ValidPiece(piece) && Joins(piece, run) && Le(piece.first.iStart, run.iStart)
    ensures InEnds(PieceEnds(Joined(piece, run)), t) <==> InEnds(PieceEnds(piece), t) || InEnds(RunEnds(run), t)
  {
    RunEndsAreWf(run);
    JoinedDenotes(PieceEnds(piece), RunEnds(run), t);
  }

  lemma RunEndsCons(rest: seq<Run>, t: Tumbler)
    requires rest != []
    ensures InAny(AllRunEnds(rest), t) <==> InEnds(RunEnds(rest[0]), t) || InAny(AllRunEnds(rest[1..]), t)
  {
    InAnySplits(AllRunEnds(rest), t);
    assert AllRunEnds(rest)[1..] == AllRunEnds(rest[1..]);
  }

  lemma PieceEndsCons(piece: UnionPiece, more: seq<UnionPiece>)
    ensures AllPieceEnds([piece] + more) == [PieceEnds(piece)] + AllPieceEnds(more)
  {
  }

  /** The swept pieces hold exactly what the runs hold, over every tumbler of every length. */
  lemma {:induction false} SweepDenotes(piece: UnionPiece, rest: seq<Run>, t: Tumbler)
    requires SweepReady(piece, rest)
    ensures InAny(AllPieceEnds(Sweep(piece, rest)), t) <==> InEnds(PieceEnds(piece), t) || InAny(AllRunEnds(rest), t)
    decreases |rest|
  {
    if rest == [] {
      assert AllPieceEnds([piece])[0] == PieceEnds(piece);
    } else {
      SweepStep(piece, rest);
      RunEndsCons(rest, t);
      if Joins(piece, rest[0]) {
        JoinedEnds(piece, rest[0], t);
        SweepDenotes(Joined(piece, rest[0]), rest[1..], t);
      } else {
        var next := UnionPiece(rest[0], rest[0]);
        SweepDenotes(next, rest[1..], t);
        PieceEndsCons(piece, Sweep(next, rest[1..]));
        InAnySplits(AllPieceEnds(Sweep(piece, rest)), t);
      }
    }
  }

  lemma WfPiece(piece: UnionPiece)
    requires ValidPiece(piece)
    ensures WfEnds(PieceEnds(piece))
  {
  }

  lemma NormalEndsCons(head: Ends, tail: seq<Ends>)
    requires WfEnds(head) && NormalEnds(tail) && (tail != [] ==> Lt(head.reach, tail[0].start))
    ensures NormalEnds([head] + tail)
  {
    var r := [head] + tail;
    forall i | 0 < i < |r| ensures Lt(r[i - 1].reach, r[i].start) {
      if i > 1 { assert r[i - 1] == tail[i - 2] && r[i] == tail[i - 1]; }
    }
  }

  /** The pieces ascend, and no two meet or abut, of one chain or of two. */
  lemma {:induction false} SweepIsNormal(piece: UnionPiece, rest: seq<Run>)
    requires SweepReady(piece, rest)
    ensures NormalEnds(AllPieceEnds(Sweep(piece, rest)))
    ensures Sweep(piece, rest)[0].first == piece.first
    decreases |rest|
  {
    WfPiece(piece);
    if rest != [] {
      SweepStep(piece, rest);
      if Joins(piece, rest[0]) {
        SweepIsNormal(Joined(piece, rest[0]), rest[1..]);
      } else {
        var next := UnionPiece(rest[0], rest[0]);
        SweepIsNormal(next, rest[1..]);
        NormalEndsCons(PieceEnds(piece), AllPieceEnds(Sweep(next, rest[1..])));
        PieceEndsCons(piece, Sweep(next, rest[1..]));
      }
    }
  }

  lemma {:induction false} SweepIsValid(piece: UnionPiece, rest: seq<Run>)
    requires SweepReady(piece, rest)
    ensures forall i :: 0 <= i < |Sweep(piece, rest)| ==> ValidPiece(Sweep(piece, rest)[i])
    decreases |rest|
  {
    if rest != [] {
      SweepStep(piece, rest);
      if Joins(piece, rest[0]) {
        SweepIsValid(Joined(piece, rest[0]), rest[1..]);
      } else {
        SweepIsValid(UnionPiece(rest[0], rest[0]), rest[1..]);
      }
    }
  }

  // ---------------------------------------------------------------- the union

  ghost predicate HoldsExactly(pieces: seq<UnionPiece>, runs: seq<Run>) {
    forall t: Tumbler :: InAny(AllPieceEnds(pieces), t) <==> InAny(AllRunEnds(runs), t)
  }

  predicate ValidUnion(pieces: seq<UnionPiece>) {
    NormalEnds(AllPieceEnds(pieces)) && forall i :: 0 <= i < |pieces| ==> ValidPiece(pieces[i])
  }

  /** Whatever ascending order the sort leaves, the pieces are sorted, disjoint, non-abutting and exact. */
  lemma PiecesOfIsUnion(sorted: seq<Run>)
    requires AllStanding(sorted) && AscendingRuns(sorted)
    ensures ValidUnion(PiecesOf(sorted)) && HoldsExactly(PiecesOf(sorted), sorted)
  {
    if sorted != [] {
      var piece, rest := UnionPiece(sorted[0], sorted[0]), sorted[1..];
      RunEndsAreWf(sorted[0]);
      SweepIsNormal(piece, rest);
      SweepIsValid(piece, rest);
      forall t: Tumbler ensures InAny(AllPieceEnds(PiecesOf(sorted)), t) <==> InAny(AllRunEnds(sorted), t) {
        SweepDenotes(piece, rest, t);
        RunEndsCons(sorted, t);
      }
    }
  }

  function InsertRun(run: Run, runs: seq<Run>): (r: seq<Run>)
    ensures |r| == |runs| + 1
  {
    if runs == [] || Le(run.iStart, runs[0].iStart) then [run] + runs
    else [runs[0]] + InsertRun(run, runs[1..])
  }

  function SortRuns(runs: seq<Run>): (r: seq<Run>)
    ensures |r| == |runs|
  {
    if runs == [] then [] else InsertRun(runs[0], SortRuns(runs[1..]))
  }

  lemma {:induction false} InsertRunKeeps(run: Run, runs: seq<Run>)
    ensures forall x :: x in InsertRun(run, runs) <==> x == run || x in runs
    ensures AscendingRuns(runs) ==> AscendingRuns(InsertRun(run, runs))
  {
    if runs == [] {
    } else if Le(run.iStart, runs[0].iStart) {
      if AscendingRuns(runs) {
        forall j | 0 <= j < |runs| ensures Le(run.iStart, runs[j].iStart) {
          if j > 0 { LeTransitive(run.iStart, runs[0].iStart, runs[j].iStart); }
        }
      }
    } else {
      InsertRunKeeps(run, runs[1..]);
      LtTotal(run.iStart, runs[0].iStart);
      var r := InsertRun(run, runs[1..]);
      assert runs == [runs[0]] + runs[1..];
      if AscendingRuns(runs) {
        forall j | 0 <= j < |r| ensures Le(runs[0].iStart, r[j].iStart) {
          assert r[j] in r;
        }
      }
    }
  }

  lemma {:induction false} SortRunsKeeps(runs: seq<Run>)
    ensures AscendingRuns(SortRuns(runs))
    ensures forall x :: x in SortRuns(runs) <==> x in runs
  {
    if runs != [] {
      SortRunsKeeps(runs[1..]);
      InsertRunKeeps(runs[0], SortRuns(runs[1..]));
      assert runs == [runs[0]] + runs[1..];
    }
  }

  /** The union of a run set: sorted by start, then swept once. */
  function UnionOf(runs: seq<Run>): seq<UnionPiece> {
    PiecesOf(SortRuns(runs))
  }

  lemma SameRunsDenoteTheSame(x: seq<Run>, y: seq<Run>, t: Tumbler)
    requires forall r :: r in x ==> r in y
    ensures InAny(AllRunEnds(x), t) ==> InAny(AllRunEnds(y), t)
  {
    if InAny(AllRunEnds(x), t) {
      var i :| 0 <= i < |AllRunEnds(x)| && InEnds(AllRunEnds(x)[i], t);
      assert x[i] in y;
      var j :| 0 <= j < |y| && y[j] == x[i];
      assert InEnds(AllRunEnds(y)[j], t);
    }
  }

  lemma UnionIsExact(runs: seq<Run>)
    requires AllStanding(runs)
    ensures ValidUnion(UnionOf(runs)) && HoldsExactly(UnionOf(runs), runs)
  {
    var sorted := SortRuns(runs);
    SortRunsKeeps(runs);
    forall i | 0 <= i < |sorted| ensures Standing(sorted[i]) {
      assert sorted[i] in runs;
    }
    PiecesOfIsUnion(sorted);
    forall t: Tumbler ensures InAny(AllPieceEnds(UnionOf(runs)), t) <==> InAny(AllRunEnds(runs), t) {
      SameRunsDenoteTheSame(sorted, runs, t);
      SameRunsDenoteTheSame(runs, sorted, t);
    }
  }

  /** The piece as an owned run, `first`'s start widened to the piece's reach. */
  function ToRun(piece: UnionPiece): (r: Run)
    requires ValidPiece(piece)
    ensures RunEnds(r) == PieceEnds(piece) && Standing(r)
  {
    PieceWidth(piece);
    var r := Run(piece.first.iStart, OrdinalOf(PieceReach(piece)) - OrdinalOf(piece.first.iStart));
    SameChainSameOrdinal(RunReach(r), PieceReach(piece));
    r
  }

  lemma PieceWidth(piece: UnionPiece)
    requires ValidPiece(piece)
    ensures OrdinalOf(piece.first.iStart) < OrdinalOf(PieceReach(piece))
    ensures ChainOf(PieceReach(piece)) == ChainOf(piece.first.iStart)
    ensures forall k: nat :: ChainOf(Shift(piece.first.iStart, k)) == ChainOf(piece.first.iStart)
    ensures forall k: nat :: OrdinalOf(Shift(piece.first.iStart, k)) == OrdinalOf(piece.first.iStart) + k
  {
    PositionsStand(piece.furthest, piece.furthest.width);
    ChainOrder(piece.first.iStart, PieceReach(piece));
    forall k: nat
      ensures ChainOf(Shift(piece.first.iStart, k)) == ChainOf(piece.first.iStart)
      ensures OrdinalOf(Shift(piece.first.iStart, k)) == OrdinalOf(piece.first.iStart) + k
    {
      PositionsStand(piece.first, k);
      assert TumblerAt(piece.first, k) == Shift(piece.first.iStart, k);
    }
  }

  function UnionRuns(pieces: seq<UnionPiece>): (r: seq<Run>)
    requires forall i :: 0 <= i < |pieces| ==> ValidPiece(pieces[i])
    ensures |r| == |pieces| && AllStanding(r)
    ensures forall i :: 0 <= i < |pieces| ==> r[i] == ToRun(pieces[i])
    ensures AllRunEnds(r) == AllPieceEnds(pieces)
  {
    seq(|pieces|, i requires 0 <= i < |pieces| => ToRun(pieces[i]))
  }

  /** I-extents and endpoints say one thing. */
  lemma HoldsByEnds(runs: seq<Run>, a: Tumbler)
    ensures Holds(runs, a) <==> InAny(AllRunEnds(runs), a)
  {
    forall i | 0 <= i < |runs| ensures Contains(IExtent(runs[i]), a) <==> InEnds(AllRunEnds(runs)[i], a) {
      RunEndsAreWf(runs[i]);
    }
    if Holds(runs, a) {
      var i :| 0 <= i < |runs| && Contains(IExtent(runs[i]), a);
      assert InEnds(AllRunEnds(runs)[i], a);
    }
    if InAny(AllRunEnds(runs), a) {
      var i :| 0 <= i < |AllRunEnds(runs)| && InEnds(AllRunEnds(runs)[i], a);
      assert Contains(IExtent(runs[i]), a);
    }
  }

  lemma {:induction false} FlatStands(runs: seq<Run>, a: Tumbler)
    requires AllStanding(runs) && a in Flat(runs)
    ensures IsElementPosition(a)
  {
    FlatMembers(runs, a);
    var i :| 0 <= i < |runs| && a in Addrs(runs[i]);
    var k :| 0 <= k < runs[i].width && Addrs(runs[i])[k] == a;
    PositionsStand(runs[i], k);
  }

  /** The union holds exactly the addresses some run of the set holds. */
  lemma UnionHoldsTheAddresses(runs: seq<Run>, a: Tumbler)
    requires AllStanding(runs)
    ensures ValidUnion(UnionOf(runs))
    ensures a in Flat(UnionRuns(UnionOf(runs))) <==> a in Flat(runs)
  {
    UnionIsExact(runs);
    var united := UnionRuns(UnionOf(runs));
    if a in Flat(runs) { FlatStands(runs, a); }
    if a in Flat(united) { FlatStands(united, a); }
    if IsElementPosition(a) {
      HoldsIsExact(runs, a);
      HoldsIsExact(united, a);
      HoldsByEnds(runs, a);
      HoldsByEnds(united, a);
    }
  }

  // ---------------------------------------------------------------- each address once

  predicate NoDuplicates<T(==)>(s: seq<T>) {
    forall i, j :: 0 <= i < j < |s| ==> s[i] != s[j]
  }

  function Members(s: seq<Tumbler>): set<Tumbler> {
    set a | a in s
  }

  lemma {:induction false} DistinctCount(s: seq<Tumbler>)
    requires NoDuplicates(s)
    ensures |Members(s)| == |s|
  {
    if s != [] {
      DistinctCount(s[1..]);
      assert s == [s[0]] + s[1..];
      assert Members(s) == {s[0]} + Members(s[1..]);
      assert s[0] !in s[1..];
    }
  }

  lemma NoDuplicatesConcat(x: seq<Tumbler>, y: seq<Tumbler>)
    requires NoDuplicates(x) && NoDuplicates(y) && forall a :: a in x ==> a !in y
    ensures NoDuplicates(x + y)
  {
    var s := x + y;
    forall i, j | 0 <= i < j < |s| ensures s[i] != s[j] {
      if i < |x| <= j { assert s[i] in x && s[j] in y; }
    }
  }

  lemma AddrIsBelowReach(run: Run, a: Tumbler)
    requires a in Addrs(run)
    ensures Lt(a, RunReach(run)) && InEnds(RunEnds(run), a)
  {
    var k :| 0 <= k < run.width && Addrs(run)[k] == a;
    ShiftOrders(run.iStart, 0, k);
    ShiftZero(run.iStart);
    ShiftOrders(run.iStart, k, run.width);
  }

  /** Runs with separated extents repeat no address. */
  lemma {:induction false} SeparatedRunsAreDistinct(runs: seq<Run>)
    requires NormalEnds(AllRunEnds(runs)) && AllStanding(runs)
    ensures NoDuplicates(Flat(runs))
  {
    if runs != [] {
      var es := AllRunEnds(runs);
      NormalTail(es);
      assert es[1..] == AllRunEnds(runs[1..]);
      SeparatedRunsAreDistinct(runs[1..]);
      forall a | a in Addrs(runs[0]) ensures a !in Flat(runs[1..]) {
        AddrIsBelowReach(runs[0], a);
        if a in Flat(runs[1..]) {
          FlatStands(runs[1..], a);
          HoldsIsExact(runs[1..], a);
          HoldsByEnds(runs[1..], a);
          NormalTailIsPast(es, a);
          LtAsymmetric(a, RunReach(runs[0]));
        }
      }
      forall i, j | 0 <= i < j < runs[0].width ensures Addrs(runs[0])[i] != Addrs(runs[0])[j] {
        AddrsDistinct(runs[0], i, j);
      }
      NoDuplicatesConcat(Addrs(runs[0]), Flat(runs[1..]));
    }
  }

  /** The summed piece widths count the distinct addresses of the set, however often it repeats them. */
  lemma UnionWidthCountsDistinct(runs: seq<Run>)
    requires AllStanding(runs)
    ensures ValidUnion(UnionOf(runs))
    ensures TotalWidth(UnionRuns(UnionOf(runs))) == |Members(Flat(runs))|
    ensures NoDuplicates(Flat(UnionRuns(UnionOf(runs))))
  {
    UnionIsExact(runs);
    var united := UnionRuns(UnionOf(runs));
    SeparatedRunsAreDistinct(united);
    DistinctCount(Flat(united));
    FlatLength(united);
    forall a: Tumbler ensures a in Flat(united) <==> a in Flat(runs) {
      UnionHoldsTheAddresses(runs, a);
    }
    assert Members(Flat(united)) == Members(Flat(runs));
  }

  /** The order the sort leaves equal starts in changes nothing: the owned pieces are those of the set. */
  lemma UnionIsOrderBlind(x: seq<Run>, y: seq<Run>)
    requires AllStanding(x) && AllStanding(y) && AscendingRuns(x) && AscendingRuns(y)
    requires forall r :: r in x <==> r in y
    ensures ValidUnion(PiecesOf(x)) && ValidUnion(PiecesOf(y))
    ensures UnionRuns(PiecesOf(x)) == UnionRuns(PiecesOf(y))
  {
    PiecesOfIsUnion(x);
    PiecesOfIsUnion(y);
    forall t: Tumbler ensures InAny(AllPieceEnds(PiecesOf(x)), t) <==> InAny(AllPieceEnds(PiecesOf(y)), t) {
      SameRunsDenoteTheSame(x, y, t);
      SameRunsDenoteTheSame(y, x, t);
    }
    NormalFormIsUnique(AllPieceEnds(PiecesOf(x)), AllPieceEnds(PiecesOf(y)));
    var rx, ry := UnionRuns(PiecesOf(x)), UnionRuns(PiecesOf(y));
    forall i | 0 <= i < |rx| ensures rx[i] == ry[i] {
      assert AllRunEnds(rx)[i] == AllRunEnds(ry)[i];
      EndsDetermineRun(rx[i], ry[i]);
    }
  }

  lemma EndsDetermineRun(a: Run, b: Run)
    requires RunEnds(a) == RunEnds(b)
    ensures a == b
  {
    assert OrdinalOf(RunReach(a)) == OrdinalOf(a.iStart) + a.width;
    assert OrdinalOf(RunReach(b)) == OrdinalOf(b.iStart) + b.width;
  }

  // ---------------------------------------------------------------- whole-run membership

  /** How many leading pieces open at or before `start`. */
  function PartitionPoint(pieces: seq<UnionPiece>, start: Tumbler): (n: nat)
    ensures n <= |pieces|
  {
    if pieces == [] || !Le(pieces[0].first.iStart, start) then 0 else 1 + PartitionPoint(pieces[1..], start)
  }

  /** One search: the last piece opening at or before the run is of its chain and reaches as far. */
  predicate Covers(pieces: seq<UnionPiece>, run: Run) {
    var at := PartitionPoint(pieces, run.iStart);
    at > 0 && SameContentChain(pieces[at - 1].first, run) && Le(RunReach(run), PieceReach(pieces[at - 1]))
  }

  lemma {:induction false} PartitionPointSplits(pieces: seq<UnionPiece>, start: Tumbler, i: nat)
    requires NormalEnds(AllPieceEnds(pieces)) && i < |pieces|
    ensures i < PartitionPoint(pieces, start) <==> Le(pieces[i].first.iStart, start)
  {
    var es := AllPieceEnds(pieces);
    NormalIsAscending(es);
    assert es[0].start == pieces[0].first.iStart && es[i].start == pieces[i].first.iStart;
    if Le(pieces[0].first.iStart, start) {
      if i > 0 {
        NormalTail(es);
        assert es[1..] == AllPieceEnds(pieces[1..]);
        PartitionPointSplits(pieces[1..], start, i - 1);
      }
    } else {
      if i > 0 && Le(pieces[i].first.iStart, start) { LeTransitive(es[0].start, es[i].start, start); }
    }
  }

  /** In a normal sequence a point is held only by the last interval opening at or before it. */
  lemma HeldOnlyByTheLast(es: seq<Ends>, t: Tumbler, at: nat)
    requires NormalEnds(es) && at < |es| && Le(es[at].start, t)
    requires at + 1 < |es| ==> Lt(t, es[at + 1].start)
    ensures InAny(es, t) <==> Lt(t, es[at].reach)
  {
    NormalIsAscending(es);
    if Lt(t, es[at].reach) { assert InEnds(es[at], t); }
    if InAny(es, t) {
      var i :| 0 <= i < |es| && InEnds(es[i], t);
      if i < at {
        assert Lt(es[i].reach, es[i + 1].start);
        assert Le(es[i + 1].start, es[at].start);
        OrderLaws();
      } else if i > at {
        assert Le(es[at + 1].start, es[i].start);
        OrderLaws();
      }
    }
  }

  lemma NoneBeforeTheFirst(es: seq<Ends>, t: Tumbler)
    requires NormalEnds(es) && (es != [] ==> Lt(t, es[0].start))
    ensures !InAny(es, t)
  {
    NormalIsAscending(es);
    if InAny(es, t) {
      var i :| 0 <= i < |es| && InEnds(es[i], t);
      assert Le(es[0].start, es[i].start);
      OrderLaws();
    }
  }

  ghost predicate AllHeld(runs: seq<Run>, run: Run) {
    forall k :: 0 <= k < run.width ==> TumblerAt(run, k) in Flat(runs)
  }

  lemma AddressHeldByUnion(runs: seq<Run>, run: Run, k: nat)
    requires AllStanding(runs) && Standing(run) && k < run.width
    ensures TumblerAt(run, k) in Flat(runs) <==> InAny(AllPieceEnds(UnionOf(runs)), TumblerAt(run, k))
  {
    UnionIsExact(runs);
    PositionsStand(run, k);
    HoldsIsExact(runs, TumblerAt(run, k));
    HoldsByEnds(runs, TumblerAt(run, k));
  }

  /** A piece of the run's own chain, opening at or before it: held whole exactly when the piece reaches as far. */
  lemma OffsetsBelowReach(piece: UnionPiece, run: Run)
    requires ValidPiece(piece) && Standing(run) && SameContentChain(piece.first, run)
    requires Le(piece.first.iStart, run.iStart)
    requires Lt(run.iStart, PieceReach(piece)) && !Le(RunReach(run), PieceReach(piece))
    ensures exists k :: 0 <= k < run.width && TumblerAt(run, k) == PieceReach(piece)
  {
    var reach := PieceReach(piece);
    PositionsStand(piece.furthest, piece.furthest.width);
    PositionsStand(run, run.width);
    ChainOrder(run.iStart, reach);
    ChainOrder(RunReach(run), reach);
    var k := OrdinalOf(reach) - OrdinalOf(run.iStart);
    PositionsStand(run, k);
    SameChainSameOrdinal(TumblerAt(run, k), reach);
  }

  /** The run's start inside a piece makes the piece one of the run's own chain. */
  lemma InsidePieceIsOfChain(piece: UnionPiece, run: Run)
    requires ValidPiece(piece) && Standing(run) && InEnds(PieceEnds(piece), run.iStart)
    ensures SameContentChain(piece.first, run)
  {
    JoinsByOrderAlone(piece, run);
  }

  lemma StartHeld(runs: seq<Run>, run: Run)
    requires AllStanding(runs) && Standing(run)
    ensures run.iStart in Flat(runs) <==> InAny(AllPieceEnds(UnionOf(runs)), run.iStart)
    ensures AllHeld(runs, run) ==> run.iStart in Flat(runs)
  {
    ShiftZero(run.iStart);
    AddressHeldByUnion(runs, run, 0);
    assert TumblerAt(run, 0) == run.iStart;
  }

  /** Where no piece opens at or before the run, its start is held by nothing. */
  lemma NoPieceBefore(runs: seq<Run>, run: Run)
    requires AllStanding(runs) && Standing(run) && PartitionPoint(UnionOf(runs), run.iStart) == 0
    ensures run.iStart !in Flat(runs)
  {
    var pieces := UnionOf(runs);
    UnionIsExact(runs);
    StartHeld(runs, run);
    if pieces != [] {
      PartitionPointSplits(pieces, run.iStart, 0);
      LtTotal(run.iStart, pieces[0].first.iStart);
    }
    NoneBeforeTheFirst(AllPieceEnds(pieces), run.iStart);
  }

  lemma LastPieceBefore(runs: seq<Run>, run: Run)
    requires AllStanding(runs) && Standing(run) && PartitionPoint(UnionOf(runs), run.iStart) > 0
    ensures var at := PartitionPoint(UnionOf(runs), run.iStart) - 1;
            && Le(UnionOf(runs)[at].first.iStart, run.iStart)
            && (run.iStart in Flat(runs) <==> Lt(run.iStart, PieceReach(UnionOf(runs)[at])))
  {
    var pieces := UnionOf(runs);
    UnionIsExact(runs);
    StartHeld(runs, run);
    var at := PartitionPoint(pieces, run.iStart) - 1;
    PartitionPointSplits(pieces, run.iStart, at);
    if at + 1 < |pieces| {
      PartitionPointSplits(pieces, run.iStart, at + 1);
      LtTotal(run.iStart, pieces[at + 1].first.iStart);
    }
    HeldOnlyByTheLast(AllPieceEnds(pieces), run.iStart, at);
  }

  /** Whole-run membership is one search: true exactly when every address of the run is held by some run of the set. */
  lemma CoversIsExact(runs: seq<Run>, run: Run)
    requires AllStanding(runs) && Standing(run)
    ensures Covers(UnionOf(runs), run) <==> AllHeld(runs, run)
  {
    if PartitionPoint(UnionOf(runs), run.iStart) == 0 {
      NoPieceBefore(runs, run);
      StartHeld(runs, run);
    } else {
      UnionIsExact(runs);
      LastPieceBefore(runs, run);
      CoversByLastPiece(runs, run, PartitionPoint(UnionOf(runs), run.iStart) - 1);
    }
  }

  lemma CoversByLastPiece(runs: seq<Run>, run: Run, at: nat)
    requires AllStanding(runs) && Standing(run)
    requires ValidUnion(UnionOf(runs)) && HoldsExactly(UnionOf(runs), runs)
    requires at < |UnionOf(runs)| && at + 1 == PartitionPoint(UnionOf(runs), run.iStart)
    requires Le(UnionOf(runs)[at].first.iStart, run.iStart)
    requires run.iStart in Flat(runs) <==> Lt(run.iStart, PieceReach(UnionOf(runs)[at]))
    ensures Covers(UnionOf(runs), run) <==> AllHeld(runs, run)
  {
    var pieces := UnionOf(runs);
    var piece, es := pieces[at], AllPieceEnds(pieces);
    RunEndsAreWf(run);
    if Covers(pieces, run) {
      forall k | 0 <= k < run.width ensures TumblerAt(run, k) in Flat(runs) {
        AddressHeldByUnion(runs, run, k);
        assert Addrs(run)[k] == TumblerAt(run, k);
        AddrIsBelowReach(run, TumblerAt(run, k));
        WithinPiece(PieceEnds(piece), RunEnds(run), TumblerAt(run, k));
        assert InEnds(es[at], TumblerAt(run, k));
      }
    }
    if AllHeld(runs, run) {
      ShiftZero(run.iStart);
      assert TumblerAt(run, 0) in Flat(runs);
      InsidePieceIsOfChain(piece, run);
      if !Le(RunReach(run), PieceReach(piece)) {
        OffsetsBelowReach(piece, run);
        var k :| 0 <= k < run.width && TumblerAt(run, k) == PieceReach(piece);
        AddressHeldByUnion(runs, run, k);
        ReachIsNotHeld(es, at);
      }
    }
  }

  lemma WithinPiece(outer: Ends, inner: Ends, t: Tumbler)
    requires Le(outer.start, inner.start) && Le(inner.reach, outer.reach) && InEnds(inner, t)
    ensures InEnds(outer, t)
  {
    OrderLaws();
  }

  /** No piece holds another's reach: no two abut. */
  lemma ReachIsNotHeld(es: seq<Ends>, at: nat)
    requires NormalEnds(es) && at < |es|
    ensures !InAny(es, es[at].reach)
  {
    LtIrreflexive(es[at].reach);
    HeldOnlyByTheLast(es, es[at].reach, at);
  }

  // ---------------------------------------------------------------- as it runs

  lemma SweepUnfolds(pieces: seq<UnionPiece>, sorted: seq<Run>, n: nat)
    requires n < |sorted| && pieces != []
    ensures var last := pieces[|pieces| - 1]; var init := pieces[..|pieces| - 1];
            init + Sweep(last, sorted[n..]) ==
            if Joins(last, sorted[n]) then init + Sweep(Joined(last, sorted[n]), sorted[n + 1..])
            else pieces + Sweep(UnionPiece(sorted[n], sorted[n]), sorted[n + 1..])
  {
    var last, init := pieces[|pieces| - 1], pieces[..|pieces| - 1];
    assert sorted[n..][0] == sorted[n] && sorted[n..][1..] == sorted[n + 1..];
    assert init + [last] == pieces;
    Associates(init, [last], Sweep(UnionPiece(sorted[n], sorted[n]), sorted[n + 1..]));
  }

  /** The sweep, the last piece's reach kept beside it. */
  method Of(runs: seq<Run>) returns (pieces: seq<UnionPiece>)
    ensures pieces == UnionOf(runs)
  {
    var sorted := SortRuns(runs);
    if sorted == [] {
      return [];
    }
    pieces := [UnionPiece(sorted[0], sorted[0])];
    var lastReach := RunReach(sorted[0]);
    var n := 1;
    while n < |sorted|
      invariant 1 <= n <= |sorted| && pieces != []
      invariant lastReach == PieceReach(pieces[|pieces| - 1])
      invariant pieces[..|pieces| - 1] + Sweep(pieces[|pieces| - 1], sorted[n..]) == UnionOf(runs)
    {
      SweepUnfolds(pieces, sorted, n);
      var run := sorted[n];
      var runReach := RunReach(run);
      var last := pieces[|pieces| - 1];
      if SameContentChain(last.first, run) && Le(run.iStart, lastReach) {
        if Lt(lastReach, runReach) {
          pieces := pieces[|pieces| - 1 := last.(furthest := run)];
          lastReach := runReach;
        }
      } else {
        pieces := pieces + [UnionPiece(run, run)];
        lastReach := runReach;
      }
      n := n + 1;
    }
  }

  /** The partition point by binary search, over pieces already sorted by start. */
  method SearchCovers(pieces: seq<UnionPiece>, run: Run) returns (held: bool)
    requires NormalEnds(AllPieceEnds(pieces))
    ensures held <==> Covers(pieces, run)
  {
    var lo: nat, hi: nat := 0, |pieces|;
    while lo < hi
      invariant 0 <= lo <= PartitionPoint(pieces, run.iStart) <= hi <= |pieces|
    {
      var mid := (lo + hi) / 2;
      PartitionPointSplits(pieces, run.iStart, mid);
      if Le(pieces[mid].first.iStart, run.iStart) {
        lo := mid + 1;
      } else {
        hi := mid;
      }
    }
    held := lo > 0 && SameContentChain(pieces[lo - 1].first, run) && Le(RunReach(run), PieceReach(pieces[lo - 1]));
  }
}

/**
 * The implicit-position run-list. What it stands for is the plain sequence of addresses `Flat`;
 * every operation is judged against the corresponding operation on that sequence.
 */
module RunLists {
  import opened Wrappers
  import opened Tumblers
  import opened Arithmetic
  import opened Addresses
  import opened Spans
  import opened Runs

  /** The V-to-I map a run sequence denotes: position `p` (from one) holds `Flat(runs)[p - 1]`. */
  function Flat(runs: seq<Run>): (f: seq<Tumbler>)
    ensures runs != [] ==> f != []
  {
    if runs == [] then [] else Addrs(runs[0]) + Flat(runs[1..])
  }

  function TotalWidth(runs: seq<Run>): nat {
    if runs == [] then 0 else runs[0].width + TotalWidth(runs[1..])
  }

  lemma Associates<T>(a: seq<T>, b: seq<T>, c: seq<T>)
    ensures (a + b) + c == a + (b + c)
  {
  }

  lemma {:induction false} FlatLength(runs: seq<Run>)
    ensures |Flat(runs)| == TotalWidth(runs)
  {
    if runs != [] { FlatLength(runs[1..]); }
  }

  lemma {:induction false} FlatConcat(x: seq<Run>, y: seq<Run>)
    ensures Flat(x + y) == Flat(x) + Flat(y)
  {
    if x == [] {
      assert x + y == y;
    } else {
      FlatConcat(x[1..], y);
      assert (x + y)[1..] == x[1..] + y;
      Associates(Addrs(x[0]), Flat(x[1..]), Flat(y));
    }
  }

  lemma FlatOne(run: Run)
    ensures Flat([run]) == Addrs(run)
  {
    assert Flat([run][1..]) == [];
  }

  // ---------------------------------------------------------------- merging

  /** The whole residual merge test: the right run starts where the left one reaches. */
  predicate IAdjacent(left: Run, rightStart: Tumbler) {
    RunReach(left) == rightStart
  }

  /** Maximal merge: no neighbouring pair is adjacent. */
  predicate Merged(runs: seq<Run>) {
    forall i :: 0 < i < |runs| ==> !IAdjacent(runs[i - 1], runs[i].iStart)
  }

  /** The run accumulator: the last run widened where adjacent, else the run pushed. */
  function ExtendOrPush(runs: seq<Run>, run: Run): (r: seq<Run>)
    ensures r != [] && |runs| <= |r| <= |runs| + 1
  {
    if runs != [] && IAdjacent(runs[|runs| - 1], run.iStart) then
      var last := runs[|runs| - 1];
      runs[..|runs| - 1] + [last.(width := last.width + run.width)]
    else runs + [run]
  }

  function CoalesceOnto(acc: seq<Run>, runs: seq<Run>): seq<Run>
    decreases |runs|
  {
    if runs == [] then acc else CoalesceOnto(ExtendOrPush(acc, runs[0]), runs[1..])
  }

  function Coalesced(runs: seq<Run>): seq<Run> {
    CoalesceOnto([], runs)
  }

  /** Widening a run over the one that continues it keeps the addresses. */
  lemma WidenedAddrs(left: Run, right: Run)
    requires IAdjacent(left, right.iStart)
    ensures Addrs(left.(width := left.width + right.width)) == Addrs(left) + Addrs(right)
  {
    var wide := left.(width := left.width + right.width);
    forall k | 0 <= k < wide.width ensures Addrs(wide)[k] == (Addrs(left) + Addrs(right))[k] {
      if k >= left.width {
        ShiftComposes(left.iStart, left.width, k - left.width);
      }
    }
  }

  lemma ExtendOrPushFlat(runs: seq<Run>, run: Run)
    ensures Flat(ExtendOrPush(runs, run)) == Flat(runs) + Addrs(run)
  {
    FlatOne(run);
    if runs != [] && IAdjacent(runs[|runs| - 1], run.iStart) {
      var init, last := runs[..|runs| - 1], runs[|runs| - 1];
      var wide := last.(width := last.width + run.width);
      assert runs == init + [last];
      FlatConcat(init, [last]);
      FlatConcat(init, [wide]);
      FlatOne(last);
      FlatOne(wide);
      WidenedAddrs(last, run);
      Associates(Flat(init), Addrs(last), Addrs(run));
    } else {
      FlatConcat(runs, [run]);
    }
  }

  lemma ExtendOrPushMerged(runs: seq<Run>, run: Run)
    requires Merged(runs)
    ensures Merged(ExtendOrPush(runs, run))
  {
    var r := ExtendOrPush(runs, run);
    forall i | 0 < i < |r| ensures !IAdjacent(r[i - 1], r[i].iStart) {
      if i < |runs| { assert !IAdjacent(runs[i - 1], runs[i].iStart); }
    }
  }

  lemma {:induction false} CoalesceOntoFlat(acc: seq<Run>, runs: seq<Run>)
    ensures Flat(CoalesceOnto(acc, runs)) == Flat(acc) + Flat(runs)
    decreases |runs|
  {
    if runs != [] {
      ExtendOrPushFlat(acc, runs[0]);
      CoalesceOntoFlat(ExtendOrPush(acc, runs[0]), runs[1..]);
      Associates(Flat(acc), Addrs(runs[0]), Flat(runs[1..]));
    }
  }

  lemma {:induction false} CoalesceOntoMerged(acc: seq<Run>, runs: seq<Run>)
    requires Merged(acc)
    ensures Merged(CoalesceOnto(acc, runs))
    decreases |runs|
  {
    if runs != [] {
      ExtendOrPushMerged(acc, runs[0]);
      CoalesceOntoMerged(ExtendOrPush(acc, runs[0]), runs[1..]);
    }
  }

  lemma {:induction false} CoalesceOntoStands(acc: seq<Run>, runs: seq<Run>)
    requires AllStanding(acc) && AllStanding(runs)
    ensures AllStanding(CoalesceOnto(acc, runs))
    decreases |runs|
  {
    if runs != [] { CoalesceOntoStands(ExtendOrPush(acc, runs[0]), runs[1..]); }
  }

  /** The coalesce keeps the sequence, merges maximally, and keeps every start a full element position. */
  lemma CoalescedKeeps(runs: seq<Run>)
    ensures Flat(Coalesced(runs)) == Flat(runs)
    ensures Merged(Coalesced(runs))
    ensures AllStanding(runs) ==> AllStanding(Coalesced(runs))
  {
    CoalesceOntoFlat([], runs);
    CoalesceOntoMerged([], runs);
    if AllStanding(runs) { CoalesceOntoStands([], runs); }
  }

  lemma FlatHead(runs: seq<Run>)
    requires runs != []
    ensures |Flat(runs)| >= runs[0].width && Flat(runs)[0] == runs[0].iStart
    ensures Flat(runs)[runs[0].width..] == Flat(runs[1..])
    ensures forall k :: 0 <= k < runs[0].width ==> Flat(runs)[k] == TumblerAt(runs[0], k)
    ensures |runs| > 1 ==> |Flat(runs)| > runs[0].width && Flat(runs)[runs[0].width] == runs[1].iStart
  {
    ShiftZero(runs[0].iStart);
    if |runs| > 1 {
      ShiftZero(runs[1].iStart);
      assert Flat(runs[1..])[0] == Addrs(runs[1])[0];
    }
  }

  lemma MergedHeadsAgree(x: seq<Run>, y: seq<Run>)
    requires Merged(x) && x != [] && y != [] && Flat(x) == Flat(y)
    ensures x[0].iStart == y[0].iStart && x[0].width >= y[0].width
  {
    FlatHead(x);
    FlatHead(y);
    if |x| == 1 {
      FlatOne(x[0]);
      assert x == [x[0]];
    } else {
      assert !IAdjacent(x[0], x[1].iStart);
    }
  }

  /** M12: the maximally merged decomposition of a sequence of addresses is unique. */
  lemma {:induction false} MergedIsUnique(x: seq<Run>, y: seq<Run>)
    requires Merged(x) && Merged(y) && Flat(x) == Flat(y)
    ensures x == y
  {
    if x != [] && y != [] {
      MergedHeadsAgree(x, y);
      MergedHeadsAgree(y, x);
      FlatHead(x);
      FlatHead(y);
      MergedIsUnique(x[1..], y[1..]);
    }
  }

  /** So an already merged list is its own coalesce, and coalescing is idempotent. */
  lemma CoalescedIsCanonical(x: seq<Run>, y: seq<Run>)
    ensures Flat(x) == Flat(y) <==> Coalesced(x) == Coalesced(y)
    ensures Merged(x) <==> Coalesced(x) == x
  {
    CoalescedKeeps(x);
    CoalescedKeeps(y);
    if Flat(x) == Flat(y) { MergedIsUnique(Coalesced(x), Coalesced(y)); }
    if Merged(x) { MergedIsUnique(Coalesced(x), x); }
  }

  // ---------------------------------------------------------------- the split

  /** Where a boundary before ordinal `ord` falls in a sequence of `n` positions, for any ordinal. */
  function Cut(ord: nat, n: nat): (c: nat)
    ensures c <= n
  {
    if ord <= 1 then 0 else if ord - 1 <= n then ord - 1 else n
  }

  /** The runs before and from the boundary at `ord`, an interior boundary splitting its run. */
  function SplitRuns(runs: seq<Run>, ord: nat): (r: (seq<Run>, seq<Run>))
    decreases |runs|
  {
    if ord <= 1 then ([], runs)
    else if runs == [] then ([], [])
    else
      var run := runs[0];
      if ord - 1 < run.width then
        var kept: Positive := ord - 1;
        ([Run(run.iStart, kept)], [Run(TumblerAt(run, kept), run.width - kept)] + runs[1..])
      else
        var (left, right) := SplitRuns(runs[1..], ord - run.width);
        ([run] + left, right)
  }

  lemma SplitAddrs(run: Run, kept: Positive)
    requires kept < run.width
    ensures Addrs(Run(run.iStart, kept)) + Addrs(Run(TumblerAt(run, kept), run.width - kept)) == Addrs(run)
  {
    var l, r := Run(run.iStart, kept), Run(TumblerAt(run, kept), run.width - kept);
    assert IAdjacent(l, r.iStart);
    WidenedAddrs(l, r);
    assert l.(width := l.width + r.width) == run;
  }

  lemma CutAtSeam<T>(a: seq<T>, b: seq<T>, f: seq<T>)
    requires f == a + b
    ensures f[..|a|] == a && f[|a|..] == b
  {
  }

  lemma CutPast<T>(a: seq<T>, b: seq<T>, k: nat)
    requires k <= |b|
    ensures (a + b)[..|a| + k] == a + b[..k] && (a + b)[|a| + k..] == b[k..]
  {
  }

  lemma {:induction false} SplitRunsSplitsFlat(runs: seq<Run>, ord: nat)
    ensures var (left, right) := SplitRuns(runs, ord);
            var c := Cut(ord, |Flat(runs)|);
            Flat(left) == Flat(runs)[..c] && Flat(right) == Flat(runs)[c..]
    decreases |runs|
  {
    if ord > 1 && runs != [] {
      var run := runs[0];
      if ord - 1 < run.width {
        var kept: Positive := ord - 1;
        var l, r := Run(run.iStart, kept), Run(TumblerAt(run, kept), run.width - kept);
        SplitAddrs(run, kept);
        FlatOne(l);
        FlatConcat([r], runs[1..]);
        FlatOne(r);
        Associates(Addrs(l), Addrs(r), Flat(runs[1..]));
        CutAtSeam(Addrs(l), Addrs(r) + Flat(runs[1..]), Flat(runs));
      } else {
        SplitRunsSplitsFlat(runs[1..], ord - run.width);
        var (left, right) := SplitRuns(runs[1..], ord - run.width);
        FlatConcat([run], left);
        FlatOne(run);
        CutPast(Addrs(run), Flat(runs[1..]), Cut(ord - run.width, |Flat(runs[1..])|));
      }
    }
  }

  lemma {:induction false} SplitRunsStand(runs: seq<Run>, ord: nat)
    requires AllStanding(runs)
    ensures AllStanding(SplitRuns(runs, ord).0) && AllStanding(SplitRuns(runs, ord).1)
    decreases |runs|
  {
    if ord > 1 && runs != [] {
      if ord - 1 < runs[0].width {
        PositionsStand(runs[0], ord - 1);
      } else {
        SplitRunsStand(runs[1..], ord - runs[0].width);
      }
    }
  }

  // ---------------------------------------------------------------- locate, point, holds

  /** The first run whose V-reach lies past `ord`, with `ord`'s offset in it; runs start at `vStart`. */
  function LocateFrom(runs: seq<Run>, vStart: nat, ord: nat): (r: Option<(Run, nat)>)
    requires vStart <= ord
    ensures r.Some? ==> r.value.1 < r.value.0.width
    decreases |runs|
  {
    if runs == [] then None
    else if ord < vStart + runs[0].width then Some((runs[0], ord - vStart))
    else LocateFrom(runs[1..], vStart + runs[0].width, ord)
  }

  function Locate(runs: seq<Run>, ord: nat): (r: Option<(Run, nat)>)
    ensures r.Some? ==> r.value.1 < r.value.0.width
  {
    if ord == 0 then None else LocateFrom(runs, 1, ord)
  }

  function Point(runs: seq<Run>, ord: nat): Option<Tumbler> {
    match Locate(runs, ord)
    case None => None
    case Some((run, off)) => Some(TumblerAt(run, off))
  }

  lemma {:induction false} LocateFromReads(runs: seq<Run>, vStart: nat, ord: nat)
    requires vStart <= ord
    ensures var r := LocateFrom(runs, vStart, ord);
            if ord - vStart < |Flat(runs)| then r.Some? && TumblerAt(r.value.0, r.value.1) == Flat(runs)[ord - vStart]
            else r.None?
    decreases |runs|
  {
    if runs != [] {
      FlatHead(runs);
      if ord >= vStart + runs[0].width {
        LocateFromReads(runs[1..], vStart + runs[0].width, ord);
      }
    }
  }

  /** D-SEQ: a position is bound exactly where its ordinal is in the dense prefix, and holds that entry. */
  lemma PointIsIndex(runs: seq<Run>, ord: nat)
    ensures Point(runs, ord) == if 1 <= ord <= |Flat(runs)| then Some(Flat(runs)[ord - 1]) else None
  {
    if ord >= 1 { LocateFromReads(runs, 1, ord); }
  }

  /** Whether some run's I-extent holds `a`. */
  predicate Holds(runs: seq<Run>, a: Tumbler) {
    exists i :: 0 <= i < |runs| && Contains(IExtent(runs[i]), a)
  }

  lemma {:induction false} FlatMembers(runs: seq<Run>, a: Tumbler)
    ensures a in Flat(runs) <==> exists i :: 0 <= i < |runs| && a in Addrs(runs[i])
  {
    if runs != [] {
      FlatMembers(runs[1..], a);
      if i :| 0 <= i < |runs| && a in Addrs(runs[i]) {
        if i > 0 { assert a in Addrs(runs[1..][i - 1]); }
      }
      if i :| 0 <= i < |runs[1..]| && a in Addrs(runs[1..][i]) {
        assert a in Addrs(runs[i + 1]);
      }
    }
  }

  /** I-extent membership is exact for full element positions, the interiors of coalesced runs included. */
  lemma HoldsIsExact(runs: seq<Run>, a: Tumbler)
    requires AllStanding(runs) && IsElementPosition(a)
    ensures Holds(runs, a) <==> a in Flat(runs)
  {
    FlatMembers(runs, a);
    forall i | 0 <= i < |runs| ensures Contains(IExtent(runs[i]), a) <==> a in Addrs(runs[i]) {
      ExtentIsExact(runs[i], a);
    }
  }

  // ---------------------------------------------------------------- the operations

  function SpliceIn(runs: seq<Run>, ord: nat, newRuns: seq<Run>): seq<Run> {
    var (left, right) := SplitRuns(runs, ord);
    Coalesced(left + newRuns + right)
  }

  function Append(runs: seq<Run>, run: Run): seq<Run> {
    SpliceIn(runs, TotalWidth(runs) + 1, [run])
  }

  function RemoveRange(runs: seq<Run>, from: nat, width: nat): seq<Run> {
    var (left, rest) := SplitRuns(runs, from);
    var (_, right) := SplitRuns(rest, width + 1);
    Coalesced(left + right)
  }

  /** Peels regions off the right of `prefix`, cut by descending cut: what remains, then the regions as peeled. */
  function Peel(prefix: seq<Run>, cuts: seq<nat>): (r: (seq<Run>, seq<Run>))
    decreases |cuts|
  {
    if cuts == [] then (prefix, [])
    else
      var (left, region) := SplitRuns(prefix, cuts[|cuts| - 1]);
      var (first, regions) := Peel(left, cuts[..|cuts| - 1]);
      (first, region + regions)
  }

  /** The transpose: the exterior right split off, the interior regions peeled, and tiled as peeled. */
  function Reorder(runs: seq<Run>, cuts: seq<nat>): seq<Run> {
    if cuts == [] then runs
    else
      var (prefix, exteriorRight) := SplitRuns(runs, cuts[|cuts| - 1]);
      var (first, regions) := Peel(prefix, cuts[..|cuts| - 1]);
      Coalesced(first + regions + exteriorRight)
  }

  /** The first kept ordinal of a block at `vStart`. */
  function FirstKept(vStart: nat, lo: nat): nat {
    if vStart < lo then lo else vStart
  }

  /** One past the last kept ordinal of a block reaching `vReach`. */
  function PastKept(vReach: nat, hi: Option<nat>): nat {
    if hi.Some? && hi.value < vReach then hi.value else vReach
  }

  /** A block the range touches: kept whole, or rebuilt at its clipped boundaries. */
  function ClipPiece(run: Run, vStart: nat, lo: nat, hi: Option<nat>): Run
    requires lo < vStart + run.width && (hi.Some? ==> vStart < hi.value && lo < hi.value)
  {
    var first, past := FirstKept(vStart, lo), PastKept(vStart + run.width, hi);
    if first == vStart && past == vStart + run.width then run
    else Run(TumblerAt(run, first - vStart), past - first)
  }

  /** The runs covering ordinals `[lo, hi)`, boundary runs clipped; runs start at `vStart`. */
  function Clip(runs: seq<Run>, vStart: nat, lo: nat, hi: Option<nat>): seq<Run>
    requires hi.Some? ==> lo < hi.value
    decreases |runs|
  {
    if runs == [] || (hi.Some? && hi.value <= vStart) then []
    else
      var rest := Clip(runs[1..], vStart + runs[0].width, lo, hi);
      if vStart + runs[0].width <= lo then rest
      else [ClipPiece(runs[0], vStart, lo, hi)] + rest
  }

  function ResolveRange(runs: seq<Run>, ord: nat, count: nat): seq<Run> {
    var lo := if ord < 1 then 1 else ord;
    if lo < ord + count then Clip(runs, 1, lo, Some(ord + count)) else []
  }

  function ResolveFrom(runs: seq<Run>, ord: nat): seq<Run> {
    Clip(runs, 1, if ord < 1 then 1 else ord, None)
  }

  // ---------------------------------------------------------------- refinement of the plain sequence

  /** INSERT/COPY: the new addresses land at the boundary, every other keeps its order. */
  lemma SpliceInRefines(runs: seq<Run>, ord: nat, newRuns: seq<Run>)
    ensures var f := Flat(runs); var c := Cut(ord, |f|);
            Flat(SpliceIn(runs, ord, newRuns)) == f[..c] + Flat(newRuns) + f[c..]
    ensures Merged(SpliceIn(runs, ord, newRuns))
    ensures AllStanding(runs) && AllStanding(newRuns) ==> AllStanding(SpliceIn(runs, ord, newRuns))
  {
    var (left, right) := SplitRuns(runs, ord);
    SplitRunsSplitsFlat(runs, ord);
    if AllStanding(runs) { SplitRunsStand(runs, ord); }
    FlatConcat(left, newRuns);
    FlatConcat(left + newRuns, right);
    CoalescedKeeps(left + newRuns + right);
  }

  lemma AppendRefines(runs: seq<Run>, run: Run)
    ensures Flat(Append(runs, run)) == Flat(runs) + Addrs(run)
    ensures Merged(Append(runs, run))
    ensures AllStanding(runs) && Standing(run) ==> AllStanding(Append(runs, run))
  {
    FlatLength(runs);
    FlatOne(run);
    SpliceInRefines(runs, TotalWidth(runs) + 1, [run]);
  }

  lemma RemovedSeq(f: seq<Tumbler>, left: seq<Tumbler>, rest: seq<Tumbler>, right: seq<Tumbler>, c: nat, ord: nat)
    requires c <= |f| && left == f[..c] && rest == f[c..] && right == rest[Cut(ord, |rest|)..]
    ensures left + right == f[..c] + f[c + Cut(ord, |f| - c)..]
  {
    SliceOfSuffix(f, c, Cut(ord, |rest|));
  }

  lemma CoalescedFlat(runs: seq<Run>)
    ensures Flat(Coalesced(runs)) == Flat(runs)
  {
    CoalescedKeeps(runs);
  }

  /** Two runs of runs put together and coalesced read as the two sequences put together. */
  lemma JoinedFlat(left: seq<Run>, right: seq<Run>)
    ensures Flat(Coalesced(left + right)) == Flat(left) + Flat(right)
  {
    FlatConcat(left, right);
    CoalescedFlat(left + right);
  }

  lemma RemovedFlat(runs: seq<Run>, from: nat, width: nat)
    ensures var f := Flat(runs); var c := Cut(from, |f|); var d := Cut(width + 1, |f| - c);
            Flat(RemoveRange(runs, from, width)) == f[..c] + f[c + d..]
  {
    var left, rest := SplitRuns(runs, from).0, SplitRuns(runs, from).1;
    var right := SplitRuns(rest, width + 1).1;
    RemovedParts(runs, from, width, left, rest, right);
    JoinedFlat(left, right);
  }

  lemma SplitFlat(runs: seq<Run>, ord: nat)
    ensures Flat(SplitRuns(runs, ord).0) == Flat(runs)[..Cut(ord, |Flat(runs)|)]
    ensures Flat(SplitRuns(runs, ord).1) == Flat(runs)[Cut(ord, |Flat(runs)|)..]
  {
    SplitRunsSplitsFlat(runs, ord);
  }

  lemma RemovedParts(runs: seq<Run>, from: nat, width: nat, left: seq<Run>, rest: seq<Run>, right: seq<Run>)
    requires left == SplitRuns(runs, from).0 && rest == SplitRuns(runs, from).1 && right == SplitRuns(rest, width + 1).1
    ensures var f := Flat(runs); var c := Cut(from, |f|);
            Flat(left) + Flat(right) == f[..c] + f[c + Cut(width + 1, |f| - c)..]
  {
    SplitFlat(runs, from);
    SplitFlat(rest, width + 1);
    RemovedSeq(Flat(runs), Flat(left), Flat(rest), Flat(right), Cut(from, |Flat(runs)|), width + 1);
  }

  lemma RemovedStands(runs: seq<Run>, from: nat, width: nat)
    ensures Merged(RemoveRange(runs, from, width))
    ensures AllStanding(runs) ==> AllStanding(RemoveRange(runs, from, width))
  {
    var (left, rest) := SplitRuns(runs, from);
    var (dropped, right) := SplitRuns(rest, width + 1);
    if AllStanding(runs) { SplitRunsStand(runs, from); SplitRunsStand(rest, width + 1); }
    CoalescedKeeps(left + right);
  }

  /** DELETE: the clamped range goes and the gap closes. */
  lemma RemoveRangeRefines(runs: seq<Run>, from: nat, width: nat)
    ensures var f := Flat(runs); var c := Cut(from, |f|); var d := Cut(width + 1, |f| - c);
            Flat(RemoveRange(runs, from, width)) == f[..c] + f[c + d..]
    ensures Merged(RemoveRange(runs, from, width))
    ensures AllStanding(runs) ==> AllStanding(RemoveRange(runs, from, width))
  {
    RemovedFlat(runs, from, width);
    RemovedStands(runs, from, width);
  }

  lemma SliceOfSuffix<T>(f: seq<T>, c: nat, d: nat)
    requires c + d <= |f|
    ensures f[c..][d..] == f[c + d..]
  {
  }

  lemma ClippedAddrs(run: Run, a: nat, b: nat)
    requires a < b <= run.width
    ensures Addrs(Run(TumblerAt(run, a), b - a)) == Addrs(run)[a..b]
  {
    forall k | 0 <= k < b - a ensures Addrs(Run(TumblerAt(run, a), b - a))[k] == Addrs(run)[a..b][k] {
      ShiftComposes(run.iStart, a, k);
    }
  }

  /** A clamp into `[0, n]`. */
  function Within0(x: int, n: nat): (c: nat)
    ensures c <= n
  {
    if x <= 0 then 0 else if x <= n then x else n
  }

  lemma ClipPieceAddrs(run: Run, vStart: nat, lo: nat, hi: Option<nat>)
    requires lo < vStart + run.width && (hi.Some? ==> vStart < hi.value && lo < hi.value)
    ensures var i, j := FirstKept(vStart, lo) - vStart, PastKept(vStart + run.width, hi) - vStart;
            i < j <= run.width && Addrs(ClipPiece(run, vStart, lo, hi)) == Addrs(run)[i..j]
  {
    ClippedAddrs(run, FirstKept(vStart, lo) - vStart, PastKept(vStart + run.width, hi) - vStart);
  }

  /** The 0-based bounds a clip reads from a sequence of `n` positions that starts at `vStart`. */
  function ClipLow(vStart: nat, lo: nat, n: nat): (c: nat)
    ensures c <= n
  {
    Within0(lo - vStart, n)
  }

  function ClipHigh(vStart: nat, hi: Option<nat>, n: nat): (c: nat)
    ensures c <= n
  {
    if hi.Some? then Within0(hi.value - vStart, n) else n
  }

  /** A clip of the plain sequence, past one block `a`. */
  function ClipSeq(f: seq<Tumbler>, vStart: nat, lo: nat, hi: Option<nat>): seq<Tumbler>
    requires hi.Some? ==> lo < hi.value
  {
    f[ClipLow(vStart, lo, |f|)..ClipHigh(vStart, hi, |f|)]
  }

  lemma ClipSeqSkips(a: seq<Tumbler>, g: seq<Tumbler>, vStart: nat, lo: nat, hi: Option<nat>)
    requires (hi.Some? ==> lo < hi.value) && vStart + |a| <= lo
    ensures ClipSeq(a + g, vStart, lo, hi) == ClipSeq(g, vStart + |a|, lo, hi)
  {
  }

  lemma ClipSeqStops(a: seq<Tumbler>, g: seq<Tumbler>, vStart: nat, lo: nat, hi: nat)
    requires lo < hi <= vStart + |a| && lo < vStart + |a| && vStart < hi
    ensures ClipSeq(a + g, vStart, lo, Some(hi)) == a[FirstKept(vStart, lo) - vStart..hi - vStart]
    ensures ClipSeq(g, vStart + |a|, lo, Some(hi)) == []
  {
  }

  lemma ClipSeqCrosses(a: seq<Tumbler>, g: seq<Tumbler>, vStart: nat, lo: nat, hi: Option<nat>)
    requires lo < vStart + |a| && (hi.Some? ==> vStart + |a| < hi.value)
    ensures ClipSeq(a + g, vStart, lo, hi) == a[FirstKept(vStart, lo) - vStart..] + ClipSeq(g, vStart + |a|, lo, hi)
  {
    var i, l := FirstKept(vStart, lo) - vStart, ClipHigh(vStart + |a|, hi, |g|);
    assert ClipHigh(vStart, hi, |a + g|) == |a| + l;
    assert (a + g)[i..|a| + l] == a[i..] + g[..l];
  }

  lemma ClipSeqKeeps(a: seq<Tumbler>, g: seq<Tumbler>, vStart: nat, lo: nat, hi: Option<nat>)
    requires lo < vStart + |a| && (hi.Some? ==> lo < hi.value && vStart < hi.value)
    ensures ClipSeq(a + g, vStart, lo, hi)
         == a[FirstKept(vStart, lo) - vStart..PastKept(vStart + |a|, hi) - vStart] + ClipSeq(g, vStart + |a|, lo, hi)
  {
    if hi.Some? && hi.value <= vStart + |a| {
      ClipSeqStops(a, g, vStart, lo, hi.value);
    } else {
      ClipSeqCrosses(a, g, vStart, lo, hi);
    }
  }

  lemma FlatPush(run: Run, rest: seq<Run>)
    ensures Flat([run] + rest) == Addrs(run) + Flat(rest)
  {
    assert ([run] + rest)[1..] == rest;
  }

  lemma {:induction false} ClipRefines(runs: seq<Run>, vStart: nat, lo: nat, hi: Option<nat>)
    requires hi.Some? ==> lo < hi.value
    ensures Flat(Clip(runs, vStart, lo, hi)) == ClipSeq(Flat(runs), vStart, lo, hi)
    decreases |runs|
  {
    if runs != [] && !(hi.Some? && hi.value <= vStart) {
      ClipRefines(runs[1..], vStart + runs[0].width, lo, hi);
      ClipRefinesPast(runs[0], Flat(runs[1..]), Clip(runs[1..], vStart + runs[0].width, lo, hi), vStart, lo, hi);
    }
  }

  /** One block ahead of a clip already refined. */
  lemma ClipRefinesPast(run: Run, g: seq<Tumbler>, rest: seq<Run>, vStart: nat, lo: nat, hi: Option<nat>)
    requires hi.Some? ==> lo < hi.value && vStart < hi.value
    requires Flat(rest) == ClipSeq(g, vStart + run.width, lo, hi)
    ensures var clipped := if vStart + run.width <= lo then rest else [ClipPiece(run, vStart, lo, hi)] + rest;
            Flat(clipped) == ClipSeq(Addrs(run) + g, vStart, lo, hi)
  {
    if vStart + run.width <= lo {
      ClipSeqSkips(Addrs(run), g, vStart, lo, hi);
    } else {
      FlatPush(ClipPiece(run, vStart, lo, hi), rest);
      ClipKeepsPast(run, g, vStart, lo, hi);
    }
  }

  lemma ClipKeepsPast(run: Run, g: seq<Tumbler>, vStart: nat, lo: nat, hi: Option<nat>)
    requires lo < vStart + run.width && (hi.Some? ==> lo < hi.value && vStart < hi.value)
    ensures ClipSeq(Addrs(run) + g, vStart, lo, hi) == Addrs(ClipPiece(run, vStart, lo, hi))
              + ClipSeq(g, vStart + run.width, lo, hi)
  {
    ClipPieceAddrs(run, vStart, lo, hi);
    ClipSeqKeeps(Addrs(run), g, vStart, lo, hi);
  }

  lemma RangeBounds(ord: nat, count: nat, n: nat)
    ensures var lo := if ord < 1 then 1 else ord;
            && Cut(ord, n) <= Cut(ord + count, n)
            && (lo < ord + count ==>
                 ClipLow(1, lo, n) == Cut(ord, n) && ClipHigh(1, Some(ord + count), n) == Cut(ord + count, n))
            && (lo >= ord + count ==> Cut(ord, n) == Cut(ord + count, n))
  {
  }

  /** Range resolution: accept and intersect, the runs of exactly the arranged part of the range. */
  lemma ResolveRangeRefines(runs: seq<Run>, ord: nat, count: nat)
    ensures var f := Flat(runs);
            var a, b := Cut(ord, |f|), Cut(ord + count, |f|);
            a <= b && Flat(ResolveRange(runs, ord, count)) == f[a..b]
  {
    var lo := if ord < 1 then 1 else ord;
    RangeBounds(ord, count, |Flat(runs)|);
    if lo < ord + count {
      ClipRefines(runs, 1, lo, Some(ord + count));
      assert ResolveRange(runs, ord, count) == Clip(runs, 1, lo, Some(ord + count));
    } else {
      assert ResolveRange(runs, ord, count) == [];
    }
  }

  lemma ResolveFromRefines(runs: seq<Run>, ord: nat)
    ensures Flat(ResolveFrom(runs, ord)) == Flat(runs)[Cut(ord, |Flat(runs)|)..]
  {
    ClipRefines(runs, 1, if ord < 1 then 1 else ord, None);
  }

  lemma ClipPieceStands(run: Run, vStart: nat, lo: nat, hi: Option<nat>)
    requires lo < vStart + run.width && (hi.Some? ==> vStart < hi.value && lo < hi.value)
    requires Standing(run)
    ensures Standing(ClipPiece(run, vStart, lo, hi))
  {
    PositionsStand(run, FirstKept(vStart, lo) - vStart);
  }

  lemma ClipPieceEnds(run: Run, vStart: nat, lo: nat, hi: Option<nat>)
    requires lo < vStart + run.width && (hi.Some? ==> vStart < hi.value && lo < hi.value)
    ensures vStart >= lo ==> ClipPiece(run, vStart, lo, hi).iStart == run.iStart
    ensures PastKept(vStart + run.width, hi) == vStart + run.width ==>
              RunReach(ClipPiece(run, vStart, lo, hi)) == RunReach(run)
  {
    var first, past := FirstKept(vStart, lo), PastKept(vStart + run.width, hi);
    ShiftZero(run.iStart);
    ShiftComposes(run.iStart, first - vStart, past - first);
  }

  lemma {:induction false} ClipStands(runs: seq<Run>, vStart: nat, lo: nat, hi: Option<nat>)
    requires hi.Some? ==> lo < hi.value
    requires AllStanding(runs)
    ensures AllStanding(Clip(runs, vStart, lo, hi))
    decreases |runs|
  {
    if runs != [] && !(hi.Some? && hi.value <= vStart) {
      ClipStands(runs[1..], vStart + runs[0].width, lo, hi);
      if vStart + runs[0].width > lo { ClipPieceStands(runs[0], vStart, lo, hi); }
    }
  }

  lemma MergedCons(run: Run, rest: seq<Run>)
    requires Merged(rest) && (rest != [] ==> !IAdjacent(run, rest[0].iStart))
    ensures Merged([run] + rest)
  {
    var r := [run] + rest;
    forall i | 0 < i < |r| ensures !IAdjacent(r[i - 1], r[i].iStart) {
      if i > 1 { assert r[i - 1] == rest[i - 2] && r[i] == rest[i - 1]; }
    }
  }

  /** A clip of a merged list is merged: it opens no seam inside the range. */
  lemma {:induction false} ClipIsMerged(runs: seq<Run>, vStart: nat, lo: nat, hi: Option<nat>)
    requires hi.Some? ==> lo < hi.value
    requires Merged(runs)
    ensures var r := Clip(runs, vStart, lo, hi);
            Merged(r) && (r != [] && lo <= vStart ==> runs != [] && r[0].iStart == runs[0].iStart)
    decreases |runs|
  {
    if runs != [] && !(hi.Some? && hi.value <= vStart) {
      var vReach := vStart + runs[0].width;
      var rest := Clip(runs[1..], vReach, lo, hi);
      ClipIsMerged(runs[1..], vReach, lo, hi);
      if vReach > lo {
        ClipPieceEnds(runs[0], vStart, lo, hi);
        MergedCons(ClipPiece(runs[0], vStart, lo, hi), rest);
      }
    }
  }

  // ---------------------------------------------------------------- the transpose

  /** The transpose of the plain sequence: regions between consecutive cuts, in reverse order. */
  function PeelSeq(prefix: seq<Tumbler>, cuts: seq<nat>): (r: (seq<Tumbler>, seq<Tumbler>))
    decreases |cuts|
  {
    if cuts == [] then (prefix, [])
    else
      var c := Cut(cuts[|cuts| - 1], |prefix|);
      var (first, regions) := PeelSeq(prefix[..c], cuts[..|cuts| - 1]);
      (first, prefix[c..] + regions)
  }

  function ReorderSeq(f: seq<Tumbler>, cuts: seq<nat>): seq<Tumbler> {
    if cuts == [] then f
    else
      var c := Cut(cuts[|cuts| - 1], |f|);
      var (first, regions) := PeelSeq(f[..c], cuts[..|cuts| - 1]);
      first + regions + f[c..]
  }

  lemma {:induction false} PeelRefines(prefix: seq<Run>, cuts: seq<nat>)
    ensures Flat(Peel(prefix, cuts).0) == PeelSeq(Flat(prefix), cuts).0
    ensures Flat(Peel(prefix, cuts).1) == PeelSeq(Flat(prefix), cuts).1
    ensures AllStanding(prefix) ==> AllStanding(Peel(prefix, cuts).0) && AllStanding(Peel(prefix, cuts).1)
    decreases |cuts|
  {
    if cuts != [] {
      var cut := cuts[|cuts| - 1];
      var (left, region) := SplitRuns(prefix, cut);
      SplitRunsSplitsFlat(prefix, cut);
      if AllStanding(prefix) { SplitRunsStand(prefix, cut); }
      PeelRefines(left, cuts[..|cuts| - 1]);
      FlatConcat(region, Peel(left, cuts[..|cuts| - 1]).1);
    }
  }

  lemma ReorderRefines(runs: seq<Run>, cuts: seq<nat>)
    ensures Flat(Reorder(runs, cuts)) == ReorderSeq(Flat(runs), cuts)
    ensures Merged(runs) ==> Merged(Reorder(runs, cuts))
    ensures AllStanding(runs) ==> AllStanding(Reorder(runs, cuts))
  {
    if cuts != [] {
      var cut := cuts[|cuts| - 1];
      var (prefix, exteriorRight) := SplitRuns(runs, cut);
      SplitRunsSplitsFlat(runs, cut);
      if AllStanding(runs) { SplitRunsStand(runs, cut); }
      var (first, regions) := Peel(prefix, cuts[..|cuts| - 1]);
      PeelRefines(prefix, cuts[..|cuts| - 1]);
      FlatConcat(first, regions);
      FlatConcat(first + regions, exteriorRight);
      CoalescedKeeps(first + regions + exteriorRight);
    }
  }

  lemma {:induction false} PeelSeqPermutes(prefix: seq<Tumbler>, cuts: seq<nat>)
    ensures multiset(PeelSeq(prefix, cuts).0) + multiset(PeelSeq(prefix, cuts).1) == multiset(prefix)
    decreases |cuts|
  {
    if cuts != [] {
      var c := Cut(cuts[|cuts| - 1], |prefix|);
      PeelSeqPermutes(prefix[..c], cuts[..|cuts| - 1]);
      assert prefix == prefix[..c] + prefix[c..];
    }
  }

  lemma PartsOf(f: seq<Tumbler>, c: nat)
    requires c <= |f|
    ensures multiset(f[..c]) + multiset(f[c..]) == multiset(f)
  {
    assert f == f[..c] + f[c..];
  }

  lemma ReorderSeqPermutes(f: seq<Tumbler>, cuts: seq<nat>)
    ensures multiset(ReorderSeq(f, cuts)) == multiset(f)
  {
    if cuts != [] {
      var c := Cut(cuts[|cuts| - 1], |f|);
      PeelSeqPermutes(f[..c], cuts[..|cuts| - 1]);
      PartsOf(f, c);
    }
  }

  /** RA1: with any cut vector whatsoever the transpose permutes the arranged addresses. */
  lemma ReorderPermutes(runs: seq<Run>, cuts: seq<nat>)
    ensures multiset(Flat(Reorder(runs, cuts))) == multiset(Flat(runs))
  {
    ReorderRefines(runs, cuts);
    ReorderSeqPermutes(Flat(runs), cuts);
  }

  lemma SlicesOfPrefix<T>(f: seq<T>, a: nat, b: nat, c: nat)
    requires a <= b <= c <= |f|
    ensures f[..c][..b] == f[..b] && f[..c][b..] == f[b..c] && f[..c][a..b] == f[a..b]
  {
  }

  /** A cut at or before another falls in what the other leaves on its left just as it fell in the whole. */
  lemma CutBeforeCut(c0: nat, c1: nat, n: nat)
    requires c0 <= c1
    ensures Cut(c0, n) <= Cut(c1, n) && Cut(c0, Cut(c1, n)) == Cut(c0, n)
  {
  }

  /** Peeling past one more cut. */
  lemma PeelPast(p: seq<Tumbler>, cuts: seq<nat>, cut: nat)
    ensures var c := Cut(cut, |p|);
            PeelSeq(p, cuts + [cut]).0 == PeelSeq(p[..c], cuts).0
              && PeelSeq(p, cuts + [cut]).1 == p[c..] + PeelSeq(p[..c], cuts).1
  {
    assert (cuts + [cut])[..|cuts|] == cuts;
  }

  lemma PeelOne(p: seq<Tumbler>, c0: nat)
    ensures var a := Cut(c0, |p|); PeelSeq(p, [c0]).0 == p[..a] && PeelSeq(p, [c0]).1 == p[a..]
  {
    PeelPast(p, [], c0);
    assert [] + [c0] == [c0];
  }

  lemma PeelTwo(p: seq<Tumbler>, c0: nat, c1: nat)
    requires c0 <= c1
    ensures var a, b := Cut(c0, |p|), Cut(c1, |p|);
            a <= b && PeelSeq(p, [c0, c1]).0 == p[..a] && PeelSeq(p, [c0, c1]).1 == p[b..] + p[a..b]
  {
    var a, b := Cut(c0, |p|), Cut(c1, |p|);
    CutBeforeCut(c0, c1, |p|);
    PeelPast(p, [c0], c1);
    assert [c0] + [c1] == [c0, c1];
    PeelOne(p[..b], c0);
    SlicesOfPrefix(p, a, a, b);
  }

  lemma PeelThree(p: seq<Tumbler>, c0: nat, c1: nat, c2: nat)
    requires c0 <= c1 <= c2
    ensures var a, b, c := Cut(c0, |p|), Cut(c1, |p|), Cut(c2, |p|);
            a <= b <= c && PeelSeq(p, [c0, c1, c2]).0 == p[..a]
              && PeelSeq(p, [c0, c1, c2]).1 == p[c..] + (p[b..c] + p[a..b])
  {
    var a, b, c := Cut(c0, |p|), Cut(c1, |p|), Cut(c2, |p|);
    CutBeforeCut(c0, c1, |p|);
    CutBeforeCut(c1, c2, |p|);
    CutBeforeCut(c0, c2, |p|);
    PeelPast(p, [c0, c1], c2);
    assert [c0, c1] + [c2] == [c0, c1, c2];
    PeelTwo(p[..c], c0, c1);
    SlicesOfPrefix(p, a, b, c);
    SlicesOfPrefix(p, a, a, c);
  }

  lemma ReorderPast(f: seq<Tumbler>, cuts: seq<nat>, cut: nat)
    ensures var c := Cut(cut, |f|);
            ReorderSeq(f, cuts + [cut]) == PeelSeq(f[..c], cuts).0 + PeelSeq(f[..c], cuts).1 + f[c..]
  {
    assert (cuts + [cut])[..|cuts|] == cuts;
  }

  lemma PivotAt(f: seq<Tumbler>, c0: nat, c1: nat, c2: nat, a: nat, b: nat, c: nat)
    requires c0 <= c1 <= c2 && a == Cut(c0, |f|) && b == Cut(c1, |f|) && c == Cut(c2, |f|)
    ensures a <= b <= c && ReorderSeq(f, [c0, c1, c2]) == f[..a] + f[b..c] + f[a..b] + f[c..]
  {
    CutBeforeCut(c0, c1, |f|);
    CutBeforeCut(c1, c2, |f|);
    CutBeforeCut(c0, c2, |f|);
    ReorderPast(f, [c0, c1], c2);
    assert [c0, c1] + [c2] == [c0, c1, c2];
    PeelTwo(f[..c], c0, c1);
    SlicesOfPrefix(f, a, b, c);
    SlicesOfPrefix(f, a, a, c);
    Associates(f[..a], f[b..c], f[a..b]);
  }

  /** Three ascending cuts: the pivot, `[c0, c1)` and `[c1, c2)` exchanged. */
  lemma PivotMeaning(f: seq<Tumbler>, c0: nat, c1: nat, c2: nat)
    requires c0 <= c1 <= c2
    ensures var a, b, c := Cut(c0, |f|), Cut(c1, |f|), Cut(c2, |f|);
            a <= b <= c && ReorderSeq(f, [c0, c1, c2]) == f[..a] + f[b..c] + f[a..b] + f[c..]
  {
    PivotAt(f, c0, c1, c2, Cut(c0, |f|), Cut(c1, |f|), Cut(c2, |f|));
  }

  /** Four ascending cuts: the swap, the outer two exchanged around a middle that keeps its place between them. */
  lemma SwapMeaning(f: seq<Tumbler>, c0: nat, c1: nat, c2: nat, c3: nat)
    requires c0 <= c1 <= c2 <= c3
    ensures var a, b, c, d := Cut(c0, |f|), Cut(c1, |f|), Cut(c2, |f|), Cut(c3, |f|);
            a <= b <= c <= d && ReorderSeq(f, [c0, c1, c2, c3]) == f[..a] + f[c..d] + f[b..c] + f[a..b] + f[d..]
  {
    var a, b, c, d := Cut(c0, |f|), Cut(c1, |f|), Cut(c2, |f|), Cut(c3, |f|);
    CutBeforeCut(c0, c1, |f|);
    CutBeforeCut(c1, c2, |f|);
    CutBeforeCut(c2, c3, |f|);
    CutBeforeCut(c1, c3, |f|);
    CutBeforeCut(c0, c3, |f|);
    ReorderPast(f, [c0, c1, c2], c3);
    assert [c0, c1, c2] + [c3] == [c0, c1, c2, c3];
    PeelThree(f[..d], c0, c1, c2);
    SlicesOfPrefix(f, a, b, d);
    SlicesOfPrefix(f, b, c, d);
    SlicesOfPrefix(f, a, a, d);
    FourParts(f[..a], f[c..d], f[b..c], f[a..b]);
  }

  lemma FourParts<T>(w: seq<T>, x: seq<T>, y: seq<T>, z: seq<T>)
    ensures w + (x + (y + z)) == w + x + y + z
  {
  }

  // ---------------------------------------------------------------- structural undo

  lemma CutOutAndBack<T>(f: seq<T>, c: nat, d: nat)
    requires c + d <= |f|
    ensures var g := f[..c] + f[c + d..];
            |g| >= c && g[..c] + f[c..c + d] + g[c..] == f
  {
  }

  lemma CutsAgree(from: nat, width: nat, n: nat)
    requires from >= 1
    ensures var c := Cut(from, n); var d := Cut(width + 1, n - c);
            Cut(from + width, n) == c + d && Cut(from, n - d) == c
  {
  }

  /**
   * A removal undone: what a range resolves to, spliced back where it was removed, gives the identical
   * run-list, runs and boundaries alike, for every range opening at or past the first position.
   */
  lemma RemoveThenSpliceUndoes(runs: seq<Run>, from: nat, width: nat)
    requires Merged(runs) && from >= 1
    ensures SpliceIn(RemoveRange(runs, from, width), from, ResolveRange(runs, from, width)) == runs
  {
    var f := Flat(runs);
    var c := Cut(from, |f|);
    var removed := RemoveRange(runs, from, width);
    RemoveRangeRefines(runs, from, width);
    ResolveRangeRefines(runs, from, width);
    SpliceInRefines(removed, from, ResolveRange(runs, from, width));
    CutsAgree(from, width, |f|);
    CutOutAndBack(f, c, Cut(width + 1, |f| - c));
    MergedIsUnique(SpliceIn(removed, from, ResolveRange(runs, from, width)), runs);
  }

  lemma ExchangeTwice<T>(f: seq<T>, a: nat, b: nat, c: nat)
    requires a <= b <= c <= |f|
    ensures var g := f[..a] + f[b..c] + f[a..b] + f[c..];
            var m := a + (c - b);
            |g| == |f| && g[..a] + g[m..c] + g[a..m] + g[c..] == f
  {
    var g := f[..a] + f[b..c] + f[a..b] + f[c..];
    var m := a + (c - b);
    assert g[..a] == f[..a];
    assert g[m..c] == f[a..b];
    assert g[a..m] == f[b..c];
    assert g[c..] == f[c..];
    assert f[..a] + f[a..b] == f[..b];
    assert f[..b] + f[b..c] == f[..c];
  }

  /** A pivot undone by the pivot at the complementary middle cut. */
  lemma PivotUndoes(runs: seq<Run>, c0: nat, c1: nat, c2: nat)
    requires Merged(runs) && 1 <= c0 <= c1 <= c2 <= |Flat(runs)| + 1
    ensures Reorder(Reorder(runs, [c0, c1, c2]), [c0, c0 + (c2 - c1), c2]) == runs
  {
    var once := Reorder(runs, [c0, c1, c2]);
    var twice := Reorder(once, [c0, c0 + (c2 - c1), c2]);
    ReorderRefines(runs, [c0, c1, c2]);
    ReorderRefines(once, [c0, c0 + (c2 - c1), c2]);
    PivotsCancel(Flat(runs), c0, c1, c2);
    MergedIsUnique(twice, runs);
  }

  lemma CutWithin(ord: nat, n: nat)
    requires 1 <= ord <= n + 1
    ensures Cut(ord, n) == ord - 1
  {
  }

  lemma PivotWithin(f: seq<Tumbler>, a: nat, b: nat, c: nat)
    requires a <= b <= c <= |f|
    ensures ReorderSeq(f, [a + 1, b + 1, c + 1]) == f[..a] + f[b..c] + f[a..b] + f[c..]
  {
    CutWithin(a + 1, |f|);
    CutWithin(b + 1, |f|);
    CutWithin(c + 1, |f|);
    PivotAt(f, a + 1, b + 1, c + 1, a, b, c);
  }

  lemma PivotsCancel(f: seq<Tumbler>, c0: nat, c1: nat, c2: nat)
    requires 1 <= c0 <= c1 <= c2 <= |f| + 1
    ensures ReorderSeq(ReorderSeq(f, [c0, c1, c2]), [c0, c0 + (c2 - c1), c2]) == f
  {
    PivotsCancelAt(f, c0 - 1, c1 - 1, c2 - 1, c0 - 1 + (c2 - c1));
    assert [c0, c1, c2] == [c0 - 1 + 1, c1 - 1 + 1, c2 - 1 + 1];
    assert [c0, c0 + (c2 - c1), c2] == [c0 - 1 + 1, c0 - 1 + (c2 - c1) + 1, c2 - 1 + 1];
  }

  lemma PivotsCancelAt(f: seq<Tumbler>, a: nat, b: nat, c: nat, m: nat)
    requires a <= b <= c <= |f| && m == a + (c - b)
    ensures ReorderSeq(ReorderSeq(f, [a + 1, b + 1, c + 1]), [a + 1, m + 1, c + 1]) == f
  {
    PivotWithin(f, a, b, c);
    var g := ReorderSeq(f, [a + 1, b + 1, c + 1]);
    ExchangeTwice(f, a, b, c);
    PivotWithin(g, a, m, c);
  }
}

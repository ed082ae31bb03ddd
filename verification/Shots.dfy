/** The publish shot's address form: read off the request, and read back off the member it minted. */
module Shots {
  import opened Wrappers
  import opened Tumblers
  import opened Arithmetic
  import opened Addresses
  import opened Runs
  import opened RunLists
  import opened RunUnions
  import opened Chains
  import opened Forms
  import opened States
  import opened Journals

  /** The trunk of the document an address was minted under, for a content element; none for any other address. */
  function OriginOf(a: Tumbler): Option<Tumbler> {
    if !T4Valid(a) || Subspace(a) != Some(CONTENT_SUBSPACE) then None
    else
      match DocumentOf(a)
      case None => None
      case Some(d) =>
        DocumentOfIsDocument(a);
        Some(TrunkOf(d))
  }

  /**
   * The drafts whose identity the shot re-mints, the runs it renders. What a client states of a run's origin decides
   * nothing here.
   */
  datatype Shot = Shot(draft: Option<Address>, also: seq<Address>, runs: seq<Run>)

  /** The rendering draft first, then each other draft, as the document it projects to. */
  function NamedDrafts(shot: Shot): (r: seq<Tumbler>)
    ensures |r| == |shot.also| + if shot.draft.Some? then 1 else 0
  {
    (match shot.draft case None => [] case Some(d) => [TrunkOf(d)])
      + seq(|shot.also|, i requires 0 <= i < |shot.also| => TrunkOf(shot.also[i]))
  }

  predicate IsDraftNative(drafts: seq<Tumbler>, origin: Tumbler) {
    origin in drafts
  }

  /** A run the commit copies in: the shot document's own, or a named draft's. */
  predicate ByValue(drafts: seq<Tumbler>, trunk: Tumbler, run: Run) {
    match OriginOf(run.iStart)
    case None => false
    case Some(origin) => origin == trunk || IsDraftNative(drafts, origin)
  }

  function Windows(runs: seq<Run>): (r: seq<SegmentRun>)
    ensures |r| == |runs| && forall i :: 0 <= i < |runs| ==> r[i] == Window(runs[i])
  {
    seq(|runs|, i requires 0 <= i < |runs| => Window(runs[i]))
  }

  /**
   * The form, the consecutive windows in hand accumulated as the placement will accumulate them; a value run closes
   * the group.
   */
  function FormFrom(drafts: seq<Tumbler>, trunk: Tumbler, windows: seq<Run>, runs: seq<Run>): seq<SegmentRun>
    decreases |runs|
  {
    if runs == [] then Windows(windows)
    else if ByValue(drafts, trunk, runs[0]) then
      (Windows(windows) + [Value(runs[0])]) + FormFrom(drafts, trunk, [], runs[1..])
    else FormFrom(drafts, trunk, ExtendOrPush(windows, runs[0]), runs[1..])
  }

  function AddressForm(shot: Shot, doc: Address): seq<SegmentRun> {
    FormFrom(NamedDrafts(shot), TrunkOf(doc), [], shot.runs)
  }

  lemma FormStep(out: seq<SegmentRun>, drafts: seq<Tumbler>, trunk: Tumbler, windows: seq<Run>, runs: seq<Run>, i: nat)
    requires i < |runs|
    ensures out + FormFrom(drafts, trunk, windows, runs[i..]) ==
            if ByValue(drafts, trunk, runs[i]) then
              (out + Windows(windows) + [Value(runs[i])]) + FormFrom(drafts, trunk, [], runs[i + 1..])
            else out + FormFrom(drafts, trunk, ExtendOrPush(windows, runs[i]), runs[i + 1..])
  {
    assert runs[i..][0] == runs[i] && runs[i..][1..] == runs[i + 1..];
    Associates(out, Windows(windows), [Value(runs[i])]);
    Associates(out, Windows(windows) + [Value(runs[i])], FormFrom(drafts, trunk, [], runs[i + 1..]));
  }

  /** The form as it is built: a window accumulator, drained before each value run and at the end. */
  method BuildAddressForm(shot: Shot, doc: Address) returns (out: seq<SegmentRun>)
    ensures out == AddressForm(shot, doc)
  {
    var trunk, drafts := TrunkOf(doc), NamedDrafts(shot);
    out := [];
    var windows: seq<Run> := [];
    assert shot.runs[0..] == shot.runs;
    for i := 0 to |shot.runs|
      invariant out + FormFrom(drafts, trunk, windows, shot.runs[i..]) == AddressForm(shot, doc)
    {
      FormStep(out, drafts, trunk, windows, shot.runs, i);
      var run := shot.runs[i];
      if ByValue(drafts, trunk, run) {
        out := out + Windows(windows) + [Value(run)];
        windows := [];
      } else {
        windows := ExtendOrPush(windows, run);
      }
    }
    out := out + Windows(windows);
  }

  // ---------------------------------------------------------------- the request's form

  lemma {:induction false} WindowLabels(runs: seq<Run>)
    ensures FormLabels(Windows(runs)) == Somes(Flat(runs))
  {
    if runs != [] {
      WindowLabels(runs[1..]);
      assert Windows(runs)[1..] == Windows(runs[1..]);
      SomesConcat(Addrs(runs[0]), Flat(runs[1..]));
    }
  }

  lemma SomesConcat(x: seq<Tumbler>, y: seq<Tumbler>)
    ensures Somes(x + y) == Somes(x) + Somes(y)
  {
  }

  function RequestItem(drafts: seq<Tumbler>, trunk: Tumbler, run: Run): seq<Label> {
    if ByValue(drafts, trunk, run) then Nones(run.width) else Somes(Addrs(run))
  }

  /** What the request signs, run by run. */
  function RequestLabels(drafts: seq<Tumbler>, trunk: Tumbler, runs: seq<Run>): seq<Label> {
    if runs == [] then [] else RequestItem(drafts, trunk, runs[0]) + RequestLabels(drafts, trunk, runs[1..])
  }

  lemma OneLabel(item: SegmentRun)
    ensures FormLabels([item]) == ItemLabels(item)
  {
    assert [item][1..] == [];
    assert FormLabels([]) == [];
  }

  lemma ValueStep(windows: seq<Run>, run: Run, rest: seq<SegmentRun>)
    ensures FormLabels((Windows(windows) + [Value(run)]) + rest) == Somes(Flat(windows))
              + (Nones(run.width) + FormLabels(rest))
  {
    WindowLabels(windows);
    OneLabel(Value(run));
    FormLabelsConcat(Windows(windows), [Value(run)]);
    FormLabelsConcat(Windows(windows) + [Value(run)], rest);
    Associates(Somes(Flat(windows)), Nones(run.width), FormLabels(rest));
  }

  lemma NoWindows(rest: seq<Label>)
    ensures Somes(Flat([])) + rest == rest
  {
  }

  lemma {:induction false} FormSigns(drafts: seq<Tumbler>, trunk: Tumbler, windows: seq<Run>, runs: seq<Run>)
    ensures FormLabels(FormFrom(drafts, trunk, windows, runs)) == Somes(Flat(windows))
              + RequestLabels(drafts, trunk, runs)
    decreases |runs|
  {
    if runs == [] {
      WindowLabels(windows);
    } else if ByValue(drafts, trunk, runs[0]) {
      FormSigns(drafts, trunk, [], runs[1..]);
      ValueStep(windows, runs[0], FormFrom(drafts, trunk, [], runs[1..]));
      NoWindows(RequestLabels(drafts, trunk, runs[1..]));
    } else {
      FormSigns(drafts, trunk, ExtendOrPush(windows, runs[0]), runs[1..]);
      WindowStep(windows, runs[0], RequestLabels(drafts, trunk, runs[1..]));
    }
  }

  lemma WindowStep(windows: seq<Run>, run: Run, rest: seq<Label>)
    ensures Somes(Flat(ExtendOrPush(windows, run))) + rest == Somes(Flat(windows)) + (Somes(Addrs(run)) + rest)
  {
    ExtendOrPushFlat(windows, run);
    SomesConcat(Flat(windows), Addrs(run));
    Associates(Somes(Flat(windows)), Somes(Addrs(run)), rest);
  }

  lemma JoinAtValue(x: seq<SegmentRun>, run: Run, y: seq<SegmentRun>)
    requires WindowsMerged(x) && WindowsMerged(y)
    ensures WindowsMerged((x + [Value(run)]) + y)
  {
    var f := (x + [Value(run)]) + y;
    assert f[|x|] == Value(run);
    forall i | 0 < i < |f| && f[i - 1].Window? && f[i].Window? ensures !IAdjacent(f[i - 1].run, f[i].run.iStart) {
      if i < |x| { assert f[i - 1] == x[i - 1] && f[i] == x[i]; }
      else { assert i > |x| + 1 && f[i - 1] == y[i - 2 - |x|] && f[i] == y[i - 1 - |x|]; }
    }
  }

  lemma {:induction false} FormMerged(drafts: seq<Tumbler>, trunk: Tumbler, windows: seq<Run>, runs: seq<Run>)
    requires Merged(windows)
    ensures WindowsMerged(FormFrom(drafts, trunk, windows, runs))
    decreases |runs|
  {
    if runs != [] {
      if ByValue(drafts, trunk, runs[0]) {
        FormMerged(drafts, trunk, [], runs[1..]);
        JoinAtValue(Windows(windows), runs[0], FormFrom(drafts, trunk, [], runs[1..]));
      } else {
        ExtendOrPushMerged(windows, runs[0]);
        FormMerged(drafts, trunk, ExtendOrPush(windows, runs[0]), runs[1..]);
      }
    }
  }

  // ---------------------------------------------------------------- the member's form

  function Classed(trunk: Tumbler, run: Run): SegmentRun {
    if OriginOf(run.iStart) == Some(trunk) then Value(run) else Window(run)
  }

  function ClassedRuns(trunk: Tumbler, runs: seq<Run>): (r: seq<SegmentRun>)
    ensures |r| == |runs| && forall i :: 0 <= i < |runs| ==> r[i] == Classed(trunk, runs[i])
  {
    seq(|runs|, i requires 0 <= i < |runs| => Classed(trunk, runs[i]))
  }

  /** The form read at a member's first `placed` positions, each run classed as the commit left it. */
  function AddressFormOf(s: M5State, member: Address, placed: nat): seq<SegmentRun> {
    ClassedRuns(TrunkOf(member), ResolveRange(ContentList(s, member), 1, placed))
  }

  /** What one position of a member signs. */
  function LabelOf(trunk: Tumbler, a: Tumbler): Label {
    if OriginOf(a) == Some(trunk) then None else Some(a)
  }

  function LabelsOf(trunk: Tumbler, s: seq<Tumbler>): (r: seq<Label>)
    ensures |r| == |s| && forall i :: 0 <= i < |s| ==> r[i] == LabelOf(trunk, s[i])
  {
    seq(|s|, i requires 0 <= i < |s| => LabelOf(trunk, s[i]))
  }

  /** Positions of one chain have one origin. */
  lemma OriginFollowsChain(x: Tumbler, y: Tumbler)
    requires IsElementPosition(x) && IsElementPosition(y) && |x| == |y| && ChainOf(x) == ChainOf(y)
    ensures OriginOf(x) == OriginOf(y)
  {
    SubspaceOfElementPosition(x);
    SubspaceOfElementPosition(y);
    DocumentOfElementPosition(x);
    DocumentOfElementPosition(y);
    assert forall i :: 0 <= i < |x| - 1 ==> x[i] == ChainOf(x)[i] == y[i];
    assert x[..|x| - 3] == y[..|y| - 3];
  }

  lemma RunHasOneOrigin(run: Run, k: nat)
    requires Standing(run) && k < run.width
    ensures OriginOf(TumblerAt(run, k)) == OriginOf(run.iStart)
  {
    PositionsStand(run, k);
    OriginFollowsChain(TumblerAt(run, k), run.iStart);
  }

  lemma ClassedLabels(trunk: Tumbler, run: Run)
    requires Standing(run)
    ensures ItemLabels(Classed(trunk, run)) == LabelsOf(trunk, Addrs(run))
  {
    forall k | 0 <= k < run.width ensures LabelOf(trunk, Addrs(run)[k]) == ItemLabels(Classed(trunk, run))[k] {
      RunHasOneOrigin(run, k);
    }
  }

  lemma LabelsConcat(trunk: Tumbler, x: seq<Tumbler>, y: seq<Tumbler>)
    ensures LabelsOf(trunk, x + y) == LabelsOf(trunk, x) + LabelsOf(trunk, y)
  {
  }

  lemma {:induction false} MemberSigns(trunk: Tumbler, runs: seq<Run>)
    requires AllStanding(runs)
    ensures FormLabels(ClassedRuns(trunk, runs)) == LabelsOf(trunk, Flat(runs))
  {
    if runs != [] {
      MemberSigns(trunk, runs[1..]);
      ClassedLabels(trunk, runs[0]);
      assert ClassedRuns(trunk, runs)[1..] == ClassedRuns(trunk, runs[1..]);
      LabelsConcat(trunk, Addrs(runs[0]), Flat(runs[1..]));
    }
  }

  lemma ClassedMerged(trunk: Tumbler, runs: seq<Run>)
    requires Merged(runs)
    ensures WindowsMerged(ClassedRuns(trunk, runs))
  {
    var f := ClassedRuns(trunk, runs);
    forall i | 0 < i < |f| ensures !IAdjacent(f[i - 1].run, f[i].run.iStart) {
      assert !IAdjacent(runs[i - 1], runs[i].iStart);
    }
  }

  // ---------------------------------------------------------------- request and commit agree

  /** How one request run may be placed: a window as itself, a value run as trunk runs of its width. */
  predicate PlacedFor(drafts: seq<Tumbler>, trunk: Tumbler, run: Run, placed: seq<Run>) {
    if ByValue(drafts, trunk, run) then
      && AllStanding(placed) && |Flat(placed)| == run.width
      && forall i :: 0 <= i < |placed| ==> OriginOf(placed[i].iStart) == Some(trunk)
    else placed == [run]
  }

  /** The placement laid down run by run. */
  function LaidDown(placed: seq<seq<Run>>): seq<Run> {
    if placed == [] then [] else placed[0] + LaidDown(placed[1..])
  }

  predicate PlacesEach(drafts: seq<Tumbler>, trunk: Tumbler, runs: seq<Run>, placed: seq<seq<Run>>) {
    |placed| == |runs| && forall i :: 0 <= i < |runs| ==> PlacedFor(drafts, trunk, runs[i], placed[i])
  }

  lemma {:induction false} TrunkLabels(trunk: Tumbler, runs: seq<Run>)
    requires AllStanding(runs) && forall i :: 0 <= i < |runs| ==> OriginOf(runs[i].iStart) == Some(trunk)
    ensures LabelsOf(trunk, Flat(runs)) == Nones(|Flat(runs)|)
  {
    if runs != [] {
      TrunkLabels(trunk, runs[1..]);
      ClassedLabels(trunk, runs[0]);
      LabelsConcat(trunk, Addrs(runs[0]), Flat(runs[1..]));
      NonesConcat(runs[0].width, |Flat(runs[1..])|);
    }
  }

  lemma WindowIsNotTrunk(drafts: seq<Tumbler>, trunk: Tumbler, run: Run)
    requires Standing(run) && !ByValue(drafts, trunk, run)
    ensures LabelsOf(trunk, Addrs(run)) == Somes(Addrs(run))
  {
    ClassedLabels(trunk, run);
  }

  lemma PlacedSigns(drafts: seq<Tumbler>, trunk: Tumbler, run: Run, placed: seq<Run>)
    requires Standing(run) && PlacedFor(drafts, trunk, run, placed)
    ensures LabelsOf(trunk, Flat(placed)) == RequestItem(drafts, trunk, run)
    ensures AllStanding(placed)
  {
    if ByValue(drafts, trunk, run) {
      TrunkLabels(trunk, placed);
    } else {
      FlatOne(run);
      WindowIsNotTrunk(drafts, trunk, run);
    }
  }

  lemma {:induction false} PlacementSigns(drafts: seq<Tumbler>, trunk: Tumbler, runs: seq<Run>, placed: seq<seq<Run>>)
    requires AllStanding(runs) && PlacesEach(drafts, trunk, runs, placed)
    ensures LabelsOf(trunk, Flat(LaidDown(placed))) == RequestLabels(drafts, trunk, runs)
    ensures AllStanding(LaidDown(placed)) && |Flat(LaidDown(placed))| == TotalWidth(runs)
  {
    if runs != [] {
      PlacementSigns(drafts, trunk, runs[1..], placed[1..]);
      PlacedSigns(drafts, trunk, runs[0], placed[0]);
      FlatConcat(placed[0], LaidDown(placed[1..]));
      LabelsConcat(trunk, Flat(placed[0]), Flat(LaidDown(placed[1..])));
      assert |LabelsOf(trunk, Flat(placed[0]))| == runs[0].width;
    }
  }

  /** A member's leading positions, read off its coalesced list, are the placement's, whatever tail was carried. */
  lemma LeadingPositions(laid: seq<Run>, tail: seq<Run>)
    requires AllStanding(laid) && AllStanding(tail)
    ensures var r := ResolveRange(Coalesced(laid + tail), 1, |Flat(laid)|);
            Flat(r) == Flat(laid) && Merged(r) && AllStanding(r)
  {
    var list, n := Coalesced(laid + tail), |Flat(laid)|;
    CoalescedKeeps(laid + tail);
    FlatConcat(laid, tail);
    ResolveRangeRefines(list, 1, n);
    CutAtSeam(Flat(laid), Flat(tail), Flat(list));
    if n > 0 {
      ClipIsMerged(list, 1, 1, Some(1 + n));
      ClipStands(list, 1, 1, Some(1 + n));
    }
  }

  /**
   * Request and commit agree: for any placement that keeps each window and lays trunk positions of the same
   * count for each value run, the member read back at the request's count spells the body the client signed.
   */
  lemma RequestAndCommitAgree(shot: Shot, doc: Address, placed: seq<seq<Run>>, tail: seq<Run>)
    requires AllStanding(shot.runs) && AllStanding(tail)
    requires PlacesEach(NamedDrafts(shot), TrunkOf(doc), shot.runs, placed)
    ensures var list := Coalesced(LaidDown(placed) + tail);
            Body(ClassedRuns(TrunkOf(doc), ResolveRange(list, 1, TotalWidth(shot.runs)))) ==
              Body(AddressForm(shot, doc))
  {
    var drafts, trunk := NamedDrafts(shot), TrunkOf(doc);
    var laid := LaidDown(placed);
    PlacementSigns(drafts, trunk, shot.runs, placed);
    LeadingPositions(laid, tail);
    var r := ResolveRange(Coalesced(laid + tail), 1, TotalWidth(shot.runs));
    MemberSigns(trunk, r);
    ClassedMerged(trunk, r);
    FormSigns(drafts, trunk, [], shot.runs);
    FormMerged(drafts, trunk, [], shot.runs);
    NoWindows(RequestLabels(drafts, trunk, shot.runs));
    FormsAgree(ClassedRuns(trunk, r), AddressForm(shot, doc));
  }

  /** The same, of the state the shot's own record leaves: a member just minted, holding nothing before. */
  lemma MemberSpellsTheRequest(
    s: M5State, at: nat, shot: Shot, doc: Address, member: Address, placed: seq<seq<Run>>, tail: seq<Run>,
    terms: ShotTerms, rendering: Option<DocId>
  )
    requires AllStanding(shot.runs) && AllStanding(tail) && TrunkOf(member) == TrunkOf(doc)
    requires PlacesEach(NamedDrafts(shot), TrunkOf(doc), shot.runs, placed)
    requires ContentList(s, member) == []
    ensures var after := Apply(s, at, ShotPlace(member, LaidDown(placed) + tail, terms, rendering));
            Body(AddressFormOf(after, member, TotalWidth(shot.runs))) == Body(AddressForm(shot, doc))
  {
    var runs := LaidDown(placed) + tail;
    FirstContent(s, at, member, runs, terms, rendering);
    RequestAndCommitAgree(shot, doc, placed, tail);
  }

  lemma FirstContent(s: M5State, at: nat, member: DocId, runs: seq<Run>, terms: ShotTerms, rendering: Option<DocId>)
    requires ContentList(s, member) == []
    ensures ContentList(Apply(s, at, ShotPlace(member, runs, terms, rendering)), member) == Coalesced(runs)
  {
    assert [] + runs + [] == runs;
    assert SpliceIn([], 1, runs) == Coalesced(runs);
  }

  // ---------------------------------------------------------------- the values re-inserted

  predicate Reinserts(drafts: seq<Tumbler>, run: Run) {
    DraftNative(drafts, run.iStart)
  }

  function ReinsertedRuns(drafts: seq<Tumbler>, runs: seq<Run>): seq<Run> {
    if runs == [] then []
    else (if Reinserts(drafts, runs[0]) then [runs[0]] else []) + ReinsertedRuns(drafts, runs[1..])
  }

  predicate DraftNative(drafts: seq<Tumbler>, a: Tumbler) {
    OriginOf(a).Some? && IsDraftNative(drafts, OriginOf(a).value)
  }

  lemma {:induction false} ReinsertedStand(drafts: seq<Tumbler>, runs: seq<Run>)
    requires AllStanding(runs)
    ensures AllStanding(ReinsertedRuns(drafts, runs))
  {
    if runs != [] { ReinsertedStand(drafts, runs[1..]); }
  }

  lemma OneRunsNatives(drafts: seq<Tumbler>, run: Run, a: Tumbler)
    requires Standing(run) && a in Addrs(run)
    ensures DraftNative(drafts, a) <==> Reinserts(drafts, run)
  {
    var k :| 0 <= k < run.width && Addrs(run)[k] == a;
    RunHasOneOrigin(run, k);
  }

  lemma {:induction false} ReinsertedMembers(drafts: seq<Tumbler>, runs: seq<Run>, a: Tumbler)
    requires AllStanding(runs)
    ensures a in Flat(ReinsertedRuns(drafts, runs)) <==> a in Flat(runs) && DraftNative(drafts, a)
  {
    if runs != [] {
      var rest := ReinsertedRuns(drafts, runs[1..]);
      ReinsertedMembers(drafts, runs[1..], a);
      if a in Addrs(runs[0]) { OneRunsNatives(drafts, runs[0], a); }
      FlatConcat([runs[0]], rest);
      FlatOne(runs[0]);
      NothingBefore(rest);
    }
  }

  lemma NothingBefore(rest: seq<Run>)
    ensures [] + rest == rest
  {
  }

  /** The merged widths of the re-inserted runs. */
  function ReinsertedValues(shot: Shot): nat
    requires AllStanding(shot.runs)
  {
    var runs := ReinsertedRuns(NamedDrafts(shot), shot.runs);
    ReinsertedStand(NamedDrafts(shot), shot.runs);
    UnionIsExact(runs);
    TotalWidth(UnionRuns(UnionOf(runs)))
  }

  /** It counts the distinct named-draft positions the request arranges, a position named twice once. */
  lemma ReinsertedValuesCountsPositions(shot: Shot)
    requires AllStanding(shot.runs)
    ensures var drafts := NamedDrafts(shot);
            ReinsertedValues(shot) == |set a | a in Flat(shot.runs) && DraftNative(drafts, a)|
  {
    var drafts := NamedDrafts(shot);
    var runs := ReinsertedRuns(drafts, shot.runs);
    ReinsertedStand(drafts, shot.runs);
    UnionIsExact(runs);
    UnionWidthCountsDistinct(runs);
    forall a: Tumbler ensures a in Flat(runs) <==> a in Flat(shot.runs) && DraftNative(drafts, a) {
      ReinsertedMembers(drafts, shot.runs, a);
    }
    assert Members(Flat(runs)) == set a | a in Flat(shot.runs) && DraftNative(drafts, a);
  }
}

/** Whole runs of the fold: what every sequence of records keeps, from genesis. */
module Journals {
  import opened Wrappers
  import opened Tumblers
  import opened Arithmetic
  import opened Addresses
  import opened Spans
  import opened SpanSets
  import opened Runs
  import opened RunLists
  import opened RunUnions
  import opened Chains
  import opened Reads
  import opened VSpaces
  import opened States
  import opened Orders

  /** A record at its commit position; the records of one transaction share theirs. */
  datatype Entry = Entry(at: nat, rec: M5Rec)

  type Journal = seq<Entry>

  function Replay(journal: Journal): M5State {
    if journal == [] then Genesis
    else Apply(Replay(journal[..|journal| - 1]), journal[|journal| - 1].at, journal[|journal| - 1].rec)
  }

  /** Every run a record carries passed the run's own door. */
  predicate RecStands(rec: M5Rec) {
    match rec
    case ContentPlace(_, _, runs) => AllStanding(runs)
    case ShotPlace(_, runs, _, _) => AllStanding(runs)
    case _ => true
  }

  predicate JournalStands(journal: Journal) {
    forall i :: 0 <= i < |journal| ==> RecStands(journal[i].rec)
  }

  // ---------------------------------------------------------------- what one record does to one document

  /** Whether a record changes the document's content arrangement. */
  predicate ChangesContent(rec: M5Rec, doc: DocId) {
    match rec
    case ContentPlace(d, _, _) => d == doc
    case ContentRemove(d, _, _) => d == doc
    case ContentReorder(d, _) => d == doc
    case ShotPlace(d, _, _, _) => d == doc
    case VersionSnapshot(_, member) => member == doc
    case LinkSeat(_, _) => false
    case BaseRecord(_, _, _, _, _) => false
  }

  /** The runs a record places in a document. */
  function PlacedBy(s: M5State, rec: M5Rec, doc: DocId): seq<Run> {
    match rec
    case ContentPlace(d, _, runs) => if d == doc then runs else []
    case ShotPlace(d, runs, _, _) => if d == doc then runs else []
    case VersionSnapshot(source, member) => if member == doc then ContentList(s, source) else []
    case _ => []
  }

  lemma UnchangedContent(s: M5State, at: nat, rec: M5Rec, doc: DocId)
    requires !ChangesContent(rec, doc)
    ensures ContentList(Apply(s, at, rec), doc) == ContentList(s, doc)
    ensures PlacedBy(s, rec, doc) == []
  {
  }

  lemma AppendedReads(provenance: Provenance, d: DocId, runs: seq<Run>, doc: DocId)
    ensures EverContained(AppendRuns(provenance, d, runs), doc)
         == EverContained(provenance, doc) + Image(if d == doc then runs else [])
  {
    NothingPlaced(EverContained(provenance, doc));
  }

  lemma NothingPlaced(spans: SpanSet)
    ensures spans + Image([]) == spans
  {
  }

  /** The relation after a record: appended to where the record places, else untouched. */
  lemma ProvenanceAfter(s: M5State, at: nat, rec: M5Rec)
    ensures var r := Apply(s, at, rec).provenance;
            match rec
            case ContentPlace(d, _, runs) => r == AppendRuns(s.provenance, d, runs)
            case ShotPlace(d, runs, _, _) => r == if runs == [] then s.provenance else AppendRuns(s.provenance, d, runs)
            case VersionSnapshot(source, member) =>
              r == if ContentList(s, source) == [] then s.provenance
                else AppendRuns(s.provenance, member, ContentList(s, source))
            case _ => r == s.provenance
  {
  }

  lemma AppendedUnless(provenance: Provenance, after: Provenance, d: DocId, runs: seq<Run>, doc: DocId)
    requires after == AppendRuns(provenance, d, runs) || (runs == [] && after == provenance)
    ensures EverContained(after, doc) == EverContained(provenance, doc) + Image(if d == doc then runs else [])
  {
    AppendedReads(provenance, d, runs, doc);
    NothingPlaced(EverContained(provenance, doc));
  }

  /** R gains exactly the extents a record places, after everything already there. */
  lemma RecordedGrows(s: M5State, at: nat, rec: M5Rec, doc: DocId)
    ensures EverContained(Apply(s, at, rec).provenance, doc)
         == EverContained(s.provenance, doc) + Image(PlacedBy(s, rec, doc))
  {
    ProvenanceAfter(s, at, rec);
    var after := Apply(s, at, rec).provenance;
    NothingPlaced(EverContained(s.provenance, doc));
    match rec
    case ContentPlace(d, _, runs) => AppendedUnless(s.provenance, after, d, runs, doc);
    case ShotPlace(d, runs, _, _) => AppendedUnless(s.provenance, after, d, runs, doc);
    case VersionSnapshot(source, member) => AppendedUnless(s.provenance, after, member, ContentList(s, source), doc);
    case _ =>
  }

  ghost predicate ListSound(runs: seq<Run>) {
    Merged(runs) && AllStanding(runs)
  }

  lemma SplicedMembers(runs: seq<Run>, ord: nat, newRuns: seq<Run>, a: Tumbler)
    ensures a in Flat(SpliceIn(runs, ord, newRuns)) <==> a in Flat(runs) || a in Flat(newRuns)
  {
    SpliceInRefines(runs, ord, newRuns);
    var c := Cut(ord, |Flat(runs)|);
    assert Flat(runs) == Flat(runs)[..c] + Flat(runs)[c..];
  }

  lemma RemovedMembers(runs: seq<Run>, from: nat, width: nat, a: Tumbler)
    ensures a in Flat(RemoveRange(runs, from, width)) ==> a in Flat(runs)
  {
    RemoveRangeRefines(runs, from, width);
  }

  lemma ReorderedMembers(runs: seq<Run>, cuts: seq<nat>, a: Tumbler)
    ensures a in Flat(Reorder(runs, cuts)) <==> a in Flat(runs)
  {
    ReorderPermutes(runs, cuts);
    assert a in Flat(runs) <==> a in multiset(Flat(runs));
    assert a in Flat(Reorder(runs, cuts)) <==> a in multiset(Flat(Reorder(runs, cuts)));
  }

  /** A record arranges in a document only what was there and what it placed. */
  lemma ContentOrigin(s: M5State, at: nat, rec: M5Rec, doc: DocId, a: Tumbler)
    requires a in Flat(ContentList(Apply(s, at, rec), doc))
    ensures a in Flat(ContentList(s, doc)) || a in Flat(PlacedBy(s, rec, doc))
  {
    var content := ContentList(s, doc);
    if !ChangesContent(rec, doc) {
      UnchangedContent(s, at, rec, doc);
    } else {
      match rec
      case ContentPlace(_, ordinal, runs) => SplicedMembers(content, ordinal, runs, a);
      case ShotPlace(_, runs, _, _) => SplicedMembers(content, 1, runs, a);
      case ContentRemove(_, from, width) => RemovedMembers(content, from, width, a);
      case ContentReorder(_, cuts) => ReorderedMembers(content, cuts, a);
      case _ =>
    }
  }

  lemma ContentStaysSound(s: M5State, at: nat, rec: M5Rec, doc: DocId)
    requires RecStands(rec) && forall d: DocId :: ListSound(ContentList(s, d))
    ensures ListSound(ContentList(Apply(s, at, rec), doc))
  {
    var content := ContentList(s, doc);
    if !ChangesContent(rec, doc) {
      UnchangedContent(s, at, rec, doc);
    } else {
      match rec
      case ContentPlace(_, ordinal, runs) => SpliceInRefines(content, ordinal, runs);
      case ShotPlace(_, runs, _, _) => SpliceInRefines(content, 1, runs);
      case ContentRemove(_, from, width) => RemoveRangeRefines(content, from, width);
      case ContentReorder(_, cuts) => ReorderRefines(content, cuts);
      case _ =>
    }
  }

  lemma LinksAfterSeat(s: M5State, at: nat, rec: M5Rec, doc: DocId)
    requires rec.LinkSeat?
    ensures LinkList(Apply(s, at, rec), doc) ==
            if rec.doc == doc && AdmitsStart(rec.link) then Append(LinkList(s, doc), Run(rec.link, 1))
            else LinkList(s, doc)
  {
  }

  lemma LinksAfterOther(s: M5State, at: nat, rec: M5Rec, doc: DocId)
    requires !rec.LinkSeat?
    ensures LinkList(Apply(s, at, rec), doc) ==
            if rec.VersionSnapshot? && rec.member == doc && ContentList(s, rec.source) != [] then []
            else LinkList(s, doc)
  {
  }

  /** What one record leaves a document's link list: appended to, reset by a snapshot that installs content, or kept. */
  lemma LinkListAfter(s: M5State, at: nat, rec: M5Rec, doc: DocId)
    ensures var link, after := LinkList(s, doc), LinkList(Apply(s, at, rec), doc);
            match rec
            case LinkSeat(d, a) => after == if d == doc && AdmitsStart(a) then Append(link, Run(a, 1)) else link
            case VersionSnapshot(source, member) =>
              after == if member == doc && ContentList(s, source) != [] then [] else link
            case _ => after == link
  {
    if rec.LinkSeat? { LinksAfterSeat(s, at, rec, doc); } else { LinksAfterOther(s, at, rec, doc); }
  }

  lemma LinksStaySound(s: M5State, at: nat, rec: M5Rec, doc: DocId)
    requires ListSound(LinkList(s, doc))
    ensures ListSound(LinkList(Apply(s, at, rec), doc))
  {
    LinkListAfter(s, at, rec, doc);
    if rec.LinkSeat? && rec.doc == doc && AdmitsStart(rec.link) { AppendRefines(LinkList(s, doc), Run(rec.link, 1)); }
  }

  // ---------------------------------------------------------------- the class invariants

  ghost predicate ResidentListsSound(s: M5State) {
    forall doc: DocId :: ListSound(ContentList(s, doc)) && ListSound(LinkList(s, doc))
  }

  ghost predicate RecordsAreExtents(s: M5State) {
    forall doc: DocId :: AllRunExtents(EverContained(s.provenance, doc))
  }

  /** P4: what a document arranges now, it has recorded. */
  ghost predicate PresentIsRecorded(s: M5State) {
    forall doc: DocId, a: Tumbler :: a in Flat(ContentList(s, doc)) ==> Denotes(EverContained(s.provenance, doc), a)
  }

  lemma ImageHolds(runs: seq<Run>, a: Tumbler)
    requires AllStanding(runs) && a in Flat(runs)
    ensures Denotes(Image(runs), a) && IsElementPosition(a)
  {
    FlatStands(runs, a);
    ImageDenotes(runs, a);
  }

  lemma ExtentsConcat(x: SpanSet, y: SpanSet)
    requires AllRunExtents(x) && AllRunExtents(y)
    ensures AllRunExtents(x + y)
  {
    forall i | 0 <= i < |x + y| ensures IsRunExtent((x + y)[i]) {
      if i < |x| { assert (x + y)[i] == x[i]; } else { assert (x + y)[i] == y[i - |x|]; }
    }
  }

  lemma PlacedStands(s: M5State, rec: M5Rec, doc: DocId)
    requires ResidentListsSound(s) && RecStands(rec)
    ensures AllStanding(PlacedBy(s, rec, doc))
  {
    if rec.VersionSnapshot? { assert ListSound(ContentList(s, rec.source)); }
  }

  lemma RecordedStep(s: M5State, at: nat, rec: M5Rec, doc: DocId, a: Tumbler)
    requires ResidentListsSound(s) && RecStands(rec)
    requires a in Flat(ContentList(s, doc)) ==> Denotes(EverContained(s.provenance, doc), a)
    ensures a in Flat(ContentList(Apply(s, at, rec), doc)) ==>
              Denotes(EverContained(Apply(s, at, rec).provenance, doc), a)
  {
    if a in Flat(ContentList(Apply(s, at, rec), doc)) {
      var placed := PlacedBy(s, rec, doc);
      PlacedStands(s, rec, doc);
      ContentOrigin(s, at, rec, doc, a);
      RecordedGrows(s, at, rec, doc);
      UnionDenotes(EverContained(s.provenance, doc), Image(placed), a);
      if a in Flat(placed) { ImageHolds(placed, a); }
    }
  }

  lemma ApplyKeepsLists(s: M5State, at: nat, rec: M5Rec)
    requires RecStands(rec) && ResidentListsSound(s)
    ensures ResidentListsSound(Apply(s, at, rec))
  {
    forall doc: DocId
      ensures ListSound(ContentList(Apply(s, at, rec), doc)) && ListSound(LinkList(Apply(s, at, rec), doc))
    {
      ContentStaysSound(s, at, rec, doc);
      LinksStaySound(s, at, rec, doc);
    }
  }

  lemma ApplyKeepsExtents(s: M5State, at: nat, rec: M5Rec)
    requires RecStands(rec) && ResidentListsSound(s) && RecordsAreExtents(s)
    ensures RecordsAreExtents(Apply(s, at, rec))
  {
    forall doc: DocId ensures AllRunExtents(EverContained(Apply(s, at, rec).provenance, doc)) {
      PlacedStands(s, rec, doc);
      RecordedGrows(s, at, rec, doc);
      ImageDenotes(PlacedBy(s, rec, doc), [1]);
      ExtentsConcat(EverContained(s.provenance, doc), Image(PlacedBy(s, rec, doc)));
    }
  }

  lemma ApplyKeepsRecorded(s: M5State, at: nat, rec: M5Rec)
    requires RecStands(rec) && ResidentListsSound(s) && PresentIsRecorded(s)
    ensures PresentIsRecorded(Apply(s, at, rec))
  {
    forall doc: DocId, a: Tumbler | a in Flat(ContentList(Apply(s, at, rec), doc))
      ensures Denotes(EverContained(Apply(s, at, rec).provenance, doc), a)
    {
      RecordedStep(s, at, rec, doc, a);
    }
  }

  /**
   * From genesis, under every sequence of records: resident lists maximally merged and standing, R made of extents,
   * P4.
   */
  lemma {:induction false} EveryReplayIsSound(journal: Journal)
    requires JournalStands(journal)
    ensures ResidentListsSound(Replay(journal)) && RecordsAreExtents(Replay(journal))
    ensures PresentIsRecorded(Replay(journal))
  {
    if journal != [] {
      var n := |journal| - 1;
      EveryReplayIsSound(journal[..n]);
      var s := Replay(journal[..n]);
      ApplyKeepsLists(s, journal[n].at, journal[n].rec);
      ApplyKeepsExtents(s, journal[n].at, journal[n].rec);
      ApplyKeepsRecorded(s, journal[n].at, journal[n].rec);
    }
  }

  /** Every tumbler of an I-extent lies in the cell of one of its addresses. */
  lemma {:induction false} CellOf(run: Run, t: Tumbler, n: nat) returns (k: nat)
    requires 1 <= n <= run.width && Le(run.iStart, t) && Lt(t, TumblerAt(run, n))
    ensures k < n && Le(TumblerAt(run, k), t) && Lt(t, TumblerAt(run, k + 1))
  {
    ShiftZero(run.iStart);
    k := n - 1;
    LtTotal(t, TumblerAt(run, n - 1));
    if n > 1 && Lt(t, TumblerAt(run, n - 1)) { k := CellOf(run, t, n - 1); }
    if n == 1 && Lt(t, run.iStart) { LtAsymmetric(t, run.iStart); }
  }

  /** A recorded extent that holds an address holds its whole cell. */
  lemma CellWithin(span: Span, a: Tumbler, t: Tumbler)
    requires IsRunExtent(span) && IsElementPosition(a) && Contains(span, a) && Le(a, t) && Lt(t, Shift(a, 1))
    ensures Contains(span, t)
  {
    var run: Run :| Standing(run) && span == IExtent(run);
    ExtentIsExact(run, a);
    NextIsWithin(run, a);
    CellBounds(span.start, a, t, Shift(a, 1), Reach(span));
  }

  lemma NextIsWithin(run: Run, a: Tumbler)
    requires a in Addrs(run)
    ensures Le(Shift(a, 1), RunReach(run))
  {
    var k :| 0 <= k < run.width && Addrs(run)[k] == a;
    ShiftComposes(run.iStart, k, 1);
    ShiftOrders(run.iStart, k + 1, run.width);
  }

  lemma CellBounds(start: Tumbler, a: Tumbler, t: Tumbler, past: Tumbler, reach: Tumbler)
    requires Le(start, a) && Le(a, t) && Lt(t, past) && Le(past, reach)
    ensures Le(start, t) && Lt(t, reach)
  {
    OrderLaws();
  }

  /** A tumbler of the image lies in the cell of an address arranged. */
  lemma CellOfImage(content: seq<Run>, t: Tumbler) returns (a: Tumbler)
    requires AllStanding(content) && Denotes(Image(content), t)
    ensures a in Flat(content) && IsElementPosition(a) && Le(a, t) && Lt(t, Shift(a, 1))
  {
    var i :| 0 <= i < |content| && Contains(Image(content)[i], t);
    RunEndsAreWf(content[i]);
    var k := CellOf(content[i], t, content[i].width);
    a := TumblerAt(content[i], k);
    SomeAddr(content[i], a);
    FlatMembers(content, a);
    PositionsStand(content[i], k);
    ShiftComposes(content[i].iStart, k, 1);
  }

  lemma CellRecorded(ever: SpanSet, a: Tumbler, t: Tumbler)
    requires AllRunExtents(ever) && IsElementPosition(a) && Denotes(ever, a) && Le(a, t) && Lt(t, Shift(a, 1))
    ensures Denotes(ever, t)
  {
    var j :| 0 <= j < |ever| && Contains(ever[j], a);
    CellWithin(ever[j], a, t);
  }

  lemma ImageWithin(content: seq<Run>, ever: SpanSet, t: Tumbler)
    requires AllStanding(content) && AllRunExtents(ever)
    requires forall a :: a in Flat(content) ==> Denotes(ever, a)
    requires Denotes(Image(content), t)
    ensures Denotes(ever, t)
  {
    var a := CellOfImage(content, t);
    CellRecorded(ever, a, t);
  }

  /** P4 over every tumbler of every length: the content image lies in what the document has recorded. */
  lemma ImageIsRecorded(journal: Journal, doc: DocId, t: Tumbler)
    requires JournalStands(journal) && Denotes(Image(ContentList(Replay(journal), doc)), t)
    ensures Denotes(EverContained(Replay(journal).provenance, doc), t)
  {
    EveryReplayIsSound(journal);
    var s := Replay(journal);
    assert ListSound(ContentList(s, doc));
    ImageWithin(ContentList(s, doc), EverContained(s.provenance, doc), t);
  }

  /** R never loses or reorders a span: an earlier state's record is a prefix of every later one's. */
  lemma {:induction false} RecordsOnlyGrow(journal: Journal, k: nat, doc: DocId)
    requires k <= |journal|
    ensures EverContained(Replay(journal[..k]).provenance, doc) <= EverContained(Replay(journal).provenance, doc)
    decreases |journal|
  {
    if k == |journal| {
      assert journal[..k] == journal;
    } else {
      var n := |journal| - 1;
      RecordsOnlyGrow(journal[..n], k, doc);
      assert journal[..n][..k] == journal[..k];
      RecordedGrows(Replay(journal[..n]), journal[n].at, journal[n].rec, doc);
    }
  }

  // ---------------------------------------------------------------- what P4 buys

  /** The historical read misses no document that holds an address of the coverage now. */
  lemma NoFalseNegatives(journal: Journal, doc: DocId, coverage: SpanSet)
    requires JournalStands(journal)
    requires ArrangesAny(ContentList(Replay(journal), doc), coverage)
    ensures doc in DocsEverContaining(Replay(journal).provenance, coverage)
  {
    var s := Replay(journal);
    EveryReplayIsSound(journal);
    ArrangesAnyIsExact(ContentList(s, doc), coverage);
    var a :| a in Flat(ContentList(s, doc)) && Denotes(coverage, a);
    RecordedPointIsFound(s.provenance, doc, coverage, a);
  }

  /** The walk of the relation, in the tumbler order of its documents. */
  method CandidatesInOrder(provenance: Provenance, coverage: SpanSet) returns (docs: seq<DocId>)
    ensures forall i, j :: 0 <= i < j < |docs| ==> Lt(docs[i], docs[j])
    ensures forall doc :: doc in docs <==> doc in DocsEverContaining(provenance, coverage)
  {
    var spell := (doc: DocId) => doc;
    docs := KeptInOrder(provenance.Keys, spell, doc => doc in provenance && TouchesAny(provenance[doc], coverage));
    forall i, j | 0 <= i < j < |docs| ensures Lt(docs[i], docs[j]) {
      assert Lt(spell(docs[i]), spell(docs[j]));
    }
  }

  lemma RecordedPointIsFound(provenance: Provenance, doc: DocId, coverage: SpanSet, a: Tumbler)
    requires Denotes(EverContained(provenance, doc), a) && Denotes(coverage, a)
    ensures doc in DocsEverContaining(provenance, coverage)
  {
    var ever := EverContained(provenance, doc);
    var i :| 0 <= i < |ever| && Contains(ever[i], a);
    var j :| 0 <= j < |coverage| && Contains(coverage[j], a);
    SharedPointTouches(ever[i], coverage[j], a);
  }

  lemma SharedPointTouches(x: Span, y: Span, a: Tumbler)
    requires Contains(x, a) && Contains(y, a)
    ensures ClassifySpans(x, y) !in {Apart, Touching}
  {
    ClassificationMeaning(x, y);
    assert InEnds(EndsOf(x), a) && InEnds(EndsOf(y), a);
  }

  /** A full element position is reported deleted exactly when the document recorded it and does not arrange it now. */
  lemma DeletionsAreHistoryLessPresent(journal: Journal, doc: DocId, z: Tumbler)
    requires JournalStands(journal)
    ensures var s := Replay(journal);
            var r := Deletions(EverContained(s.provenance, doc), Image(ContentList(s, doc)));
            r.Ok? && (IsElementPosition(z) ==>
              (Denotes(r.value, z) <==>
                Denotes(EverContained(s.provenance, doc), z) && z !in Flat(ContentList(s, doc))))
  {
    EveryReplayIsSound(journal);
    var s := Replay(journal);
    assert ListSound(ContentList(s, doc));
    DeletionsAreExact(EverContained(s.provenance, doc), ContentList(s, doc), z);
  }

  // ---------------------------------------------------------------- the last record that matters

  /** The per-document facts the slice keeps beside the arrangements. */
  datatype Fact = Arranged | Source | Terms | Base

  /** Whether a record writes a document's entry of a fact. */
  predicate Writes(rec: M5Rec, fact: Fact, doc: DocId) {
    match fact
    case Arranged => ChangesContent(rec, doc)
    case Source => rec.VersionSnapshot? && rec.member == doc
    case Terms => rec.ShotPlace? && rec.doc == doc
    case Base => (rec.BaseRecord? && rec.draft == doc) || (rec.ShotPlace? && rec.rendering == Some(doc))
  }

  /** The index of the last record that writes a fact. */
  function LastWrite(journal: Journal, fact: Fact, doc: DocId): (r: Option<nat>)
    ensures r.Some? ==> r.value < |journal| && Writes(journal[r.value].rec, fact, doc)
    ensures r.Some? ==> forall i :: r.value < i < |journal| ==> !Writes(journal[i].rec, fact, doc)
    ensures r.None? ==> forall i :: 0 <= i < |journal| ==> !Writes(journal[i].rec, fact, doc)
  {
    if journal == [] then None
    else if Writes(journal[|journal| - 1].rec, fact, doc) then Some(|journal| - 1)
    else LastWrite(journal[..|journal| - 1], fact, doc)
  }

  function Lookup<T>(entries: map<DocId, T>, doc: DocId): Option<T> {
    if doc in entries then Some(entries[doc]) else None
  }

  /** The document whose content a record changes. */
  function ChangedDoc(rec: M5Rec): Option<DocId> {
    match rec
    case ContentPlace(d, _, _) => Some(d)
    case ContentRemove(d, _, _) => Some(d)
    case ContentReorder(d, _) => Some(d)
    case ShotPlace(d, _, _, _) => Some(d)
    case VersionSnapshot(_, member) => Some(member)
    case LinkSeat(_, _) => None
    case BaseRecord(_, _, _, _, _) => None
  }

  lemma ArrangedField(s: M5State, at: nat, rec: M5Rec)
    ensures Apply(s, at, rec).arrangedAt ==
              match ChangedDoc(rec) case None => s.arrangedAt case Some(d) => s.arrangedAt[d := at]
  {
  }

  lemma SourceField(s: M5State, at: nat, rec: M5Rec)
    ensures Apply(s, at, rec).forkSources ==
              if rec.VersionSnapshot? then s.forkSources[rec.member := rec.source] else s.forkSources
  {
  }

  lemma TermsField(s: M5State, at: nat, rec: M5Rec)
    ensures Apply(s, at, rec).shotTerms == if rec.ShotPlace? then s.shotTerms[rec.doc := rec.terms] else s.shotTerms
  {
  }

  lemma LookupUpdated<T>(entries: map<DocId, T>, d: DocId, value: T, doc: DocId)
    ensures Lookup(entries[d := value], doc) == if d == doc then Some(value) else Lookup(entries, doc)
  {
  }

  lemma ArrangedStep(s: M5State, at: nat, rec: M5Rec, doc: DocId)
    ensures Lookup(Apply(s, at, rec).arrangedAt, doc) ==
            if Writes(rec, Arranged, doc) then Some(at) else Lookup(s.arrangedAt, doc)
  {
    ArrangedField(s, at, rec);
    if ChangedDoc(rec).Some? { LookupUpdated(s.arrangedAt, ChangedDoc(rec).value, at, doc); }
  }

  lemma SourceStep(s: M5State, at: nat, rec: M5Rec, doc: DocId)
    ensures Lookup(Apply(s, at, rec).forkSources, doc) ==
            if Writes(rec, Source, doc) then Some(rec.source) else Lookup(s.forkSources, doc)
  {
    SourceField(s, at, rec);
    if rec.VersionSnapshot? { LookupUpdated(s.forkSources, rec.member, rec.source, doc); }
  }

  lemma TermsStep(s: M5State, at: nat, rec: M5Rec, doc: DocId)
    ensures Lookup(Apply(s, at, rec).shotTerms, doc) ==
            if Writes(rec, Terms, doc) then Some(rec.terms) else Lookup(s.shotTerms, doc)
  {
    TermsField(s, at, rec);
    if rec.ShotPlace? { LookupUpdated(s.shotTerms, rec.doc, rec.terms, doc); }
  }

  /**
   * MOVED: a document's arranged-at position is that of the last record that changed its content, and no other record
   * moves it.
   */
  lemma {:induction false} ArrangedAtIsLastChange(journal: Journal, doc: DocId)
    ensures Lookup(Replay(journal).arrangedAt, doc) ==
            match LastWrite(journal, Arranged, doc) case None => None case Some(i) => Some(journal[i].at)
  {
    if journal != [] {
      var n := |journal| - 1;
      ArrangedAtIsLastChange(journal[..n], doc);
      ArrangedStep(Replay(journal[..n]), journal[n].at, journal[n].rec, doc);
    }
  }

  /**
   * SOURCE: a document's fork source is the source of the snapshot that last named it, whatever the snapshot shared.
   */
  lemma {:induction false} ForkSourceIsSnapshotSource(journal: Journal, doc: DocId)
    ensures Lookup(Replay(journal).forkSources, doc) ==
            match LastWrite(journal, Source, doc) case None => None case Some(i) => Some(journal[i].rec.source)
  {
    if journal != [] {
      var n := |journal| - 1;
      ForkSourceIsSnapshotSource(journal[..n], doc);
      SourceStep(Replay(journal[..n]), journal[n].at, journal[n].rec, doc);
    }
  }

  /** TERMS: a member's shot terms are those of the last shot that placed it. */
  lemma {:induction false} ShotTermsAreTheShots(journal: Journal, doc: DocId)
    ensures Lookup(Replay(journal).shotTerms, doc) ==
            match LastWrite(journal, Terms, doc) case None => None case Some(i) => Some(journal[i].rec.terms)
  {
    if journal != [] {
      var n := |journal| - 1;
      ShotTermsAreTheShots(journal[..n], doc);
      TermsStep(Replay(journal[..n]), journal[n].at, journal[n].rec, doc);
    }
  }

  /** One record alone, of all the journal's, writes a document's entry of a fact: the document is minted once. */
  predicate WrittenOnceAt(journal: Journal, fact: Fact, doc: DocId, i: nat) {
    && i < |journal| && Writes(journal[i].rec, fact, doc)
    && forall k :: 0 <= k < |journal| && k != i ==> !Writes(journal[k].rec, fact, doc)
  }

  lemma WrittenOnceIsLast(journal: Journal, fact: Fact, doc: DocId, i: nat, j: nat)
    requires WrittenOnceAt(journal, fact, doc, i) && j <= |journal|
    ensures LastWrite(journal[..j], fact, doc) == if i < j then Some(i) else None
  {
    assert forall k :: 0 <= k < j ==> journal[..j][k] == journal[k];
  }

  /** So a document a version minted once has its source from that record on, in every later state, and none before. */
  lemma ForkSourceIsWrittenOnce(journal: Journal, doc: DocId, i: nat, j: nat)
    requires WrittenOnceAt(journal, Source, doc, i) && j <= |journal|
    ensures Lookup(Replay(journal[..j]).forkSources, doc) == if i < j then Some(journal[i].rec.source) else None
  {
    ForkSourceIsSnapshotSource(journal[..j], doc);
    WrittenOnceIsLast(journal, Source, doc, i, j);
  }

  /** And a member a shot minted once has that shot's terms. */
  lemma ShotTermsAreWrittenOnce(journal: Journal, doc: DocId, i: nat, j: nat)
    requires WrittenOnceAt(journal, Terms, doc, i) && j <= |journal|
    ensures Lookup(Replay(journal[..j]).shotTerms, doc) == if i < j then Some(journal[i].rec.terms) else None
  {
    ShotTermsAreTheShots(journal[..j], doc);
    WrittenOnceIsLast(journal, Terms, doc, i, j);
  }

  // ---------------------------------------------------------------- birth extents

  /** Whether a record mints a document's arrangement. */
  predicate Mints(rec: M5Rec, doc: DocId) {
    (rec.ShotPlace? && rec.doc == doc) || (rec.VersionSnapshot? && rec.member == doc)
  }

  /** The count a minting record mints with. */
  function MintedCount(s: M5State, rec: M5Rec): nat
    requires rec.ShotPlace? || rec.VersionSnapshot?
  {
    match rec
    case ShotPlace(doc, runs, _, _) => |Flat(ContentList(s, doc))| + |Flat(runs)|
    case VersionSnapshot(source, _) => |Flat(ContentList(s, source))|
  }

  lemma EditedCount(content: seq<Run>, rec: M5Rec)
    requires rec.ShotPlace?
    ensures TotalWidth(Edited(content, rec)) == |Flat(content)| + |Flat(rec.runs)|
  {
    SpliceInRefines(content, 1, rec.runs);
    FlatLength(SpliceIn(content, 1, rec.runs));
  }

  lemma NotingStep(s: M5State, doc: DocId, count: nat, m: DocId)
    ensures Lookup(BirthExtentsNoting(s, doc, count), m) ==
            if m == doc && OpensChain(m) && m !in s.birthExtents then Some(count) else Lookup(s.birthExtents, m)
  {
  }

  lemma ShotFields(s: M5State, at: nat, rec: M5Rec, count: nat)
    requires rec.ShotPlace? && count == TotalWidth(Edited(ContentList(s, rec.doc), rec))
    ensures Apply(s, at, rec).birthExtents == BirthExtentsNoting(s, rec.doc, count)
    ensures Apply(s, at, rec).draftBases == BasesAfterShot(s, rec.doc, count, rec.rendering)
  {
  }

  lemma ShotExtents(s: M5State, at: nat, rec: M5Rec)
    requires rec.ShotPlace?
    ensures Apply(s, at, rec).birthExtents == BirthExtentsNoting(s, rec.doc, MintedCount(s, rec))
    ensures Apply(s, at, rec).draftBases == BasesAfterShot(s, rec.doc, MintedCount(s, rec), rec.rendering)
  {
    EditedCount(ContentList(s, rec.doc), rec);
    ShotFields(s, at, rec, MintedCount(s, rec));
  }

  lemma SnapshotExtents(s: M5State, at: nat, rec: M5Rec)
    requires rec.VersionSnapshot?
    ensures Apply(s, at, rec).birthExtents == BirthExtentsNoting(s, rec.member, MintedCount(s, rec))
  {
    FlatLength(ContentList(s, rec.source));
  }

  lemma KeepsExtentsAndBases(s: M5State, at: nat, rec: M5Rec)
    requires !rec.ShotPlace? && !rec.VersionSnapshot?
    ensures Apply(s, at, rec).birthExtents == s.birthExtents
    ensures !rec.BaseRecord? ==> Apply(s, at, rec).draftBases == s.draftBases
  {
  }

  lemma BirthExtentStep(s: M5State, at: nat, rec: M5Rec, m: DocId)
    ensures Lookup(Apply(s, at, rec).birthExtents, m) ==
            if OpensChain(m) && Mints(rec, m) && m !in s.birthExtents then Some(MintedCount(s, rec))
            else Lookup(s.birthExtents, m)
  {
    match rec
    case ShotPlace(doc, _, _, _) =>
      ShotExtents(s, at, rec);
      NotingStep(s, doc, MintedCount(s, rec), m);
    case VersionSnapshot(_, member) =>
      SnapshotExtents(s, at, rec);
      NotingStep(s, member, MintedCount(s, rec), m);
    case _ => KeepsExtentsAndBases(s, at, rec);
  }

  /** The index of the first record that mints a document. */
  function FirstMint(journal: Journal, m: DocId): (r: Option<nat>)
    ensures r.Some? ==> r.value < |journal| && Mints(journal[r.value].rec, m)
    ensures r.Some? ==> forall i :: 0 <= i < r.value ==> !Mints(journal[i].rec, m)
    ensures r.None? ==> forall i :: 0 <= i < |journal| ==> !Mints(journal[i].rec, m)
  {
    if journal == [] then None
    else
      var before := FirstMint(journal[..|journal| - 1], m);
      if before.Some? then before
      else if Mints(journal[|journal| - 1].rec, m) then Some(|journal| - 1) else None
  }

  /** What the first record that mints a birth version mints it with. */
  function BornWith(journal: Journal, m: DocId): Option<nat> {
    match FirstMint(journal, m)
    case Some(i) => if OpensChain(m) then Some(MintedCount(Replay(journal[..i]), journal[i].rec)) else None
    case None => None
  }

  lemma BornWithStep(journal: Journal, m: DocId)
    requires journal != []
    ensures var n := |journal| - 1;
            BornWith(journal, m) ==
            if FirstMint(journal[..n], m).None? && Mints(journal[n].rec, m) && OpensChain(m) then
              Some(MintedCount(Replay(journal[..n]), journal[n].rec))
            else BornWith(journal[..n], m)
  {
    var n := |journal| - 1;
    var before := FirstMint(journal[..n], m);
    if before.Some? { assert journal[..n][..before.value] == journal[..before.value]; }
  }

  /** BIRTH: noted once, by the first record that mints a birth version, with that record's count; never moved after. */
  lemma {:induction false} BirthExtentIsItsMints(journal: Journal, m: DocId)
    ensures Lookup(Replay(journal).birthExtents, m) == BornWith(journal, m)
  {
    if journal != [] {
      var n := |journal| - 1;
      BirthExtentIsItsMints(journal[..n], m);
      BornWithStep(journal, m);
      BirthExtentStep(Replay(journal[..n]), journal[n].at, journal[n].rec, m);
    }
  }

  // ---------------------------------------------------------------- draft bases

  /** The entry a record that writes a draft's base leaves. */
  function BaseAfter(s: M5State, at: nat, rec: M5Rec, draft: DocId): DraftBase
    requires Writes(rec, Base, draft)
  {
    match rec
    case BaseRecord(_, base, extent, source, merge) =>
      DraftBase(base, extent, source, match merge case None => None case Some(m) => Some(Stamped(m, at)))
    case ShotPlace(doc, runs, _, _) =>
      DraftBase(doc, MintedCount(s, rec),
                match Lookup(s.draftBases, draft) case None => doc case Some(standing) => standing.source, None)
  }

  lemma RenderingStep(s: M5State, doc: DocId, count: nat, rendering: Option<DocId>, draft: DocId)
    ensures Lookup(BasesAfterShot(s, doc, count, rendering), draft) ==
            if rendering == Some(draft) then
              var source := match Lookup(s.draftBases, draft) case None => doc case Some(standing) => standing.source;
              Some(DraftBase(doc, count, source, None))
            else Lookup(s.draftBases, draft)
  {
  }

  lemma ShotBase(s: M5State, at: nat, rec: M5Rec, draft: DocId)
    requires rec.ShotPlace?
    ensures Lookup(Apply(s, at, rec).draftBases, draft) ==
            if Writes(rec, Base, draft) then Some(BaseAfter(s, at, rec, draft)) else Lookup(s.draftBases, draft)
  {
    ShotExtents(s, at, rec);
    RenderingStep(s, rec.doc, MintedCount(s, rec), rec.rendering, draft);
  }

  lemma BaseStep(s: M5State, at: nat, rec: M5Rec, draft: DocId)
    ensures Lookup(Apply(s, at, rec).draftBases, draft) ==
            if Writes(rec, Base, draft) then Some(BaseAfter(s, at, rec, draft)) else Lookup(s.draftBases, draft)
  {
    match rec
    case ShotPlace(_, _, _, _) => ShotBase(s, at, rec, draft);
    case BaseRecord(_, _, _, _, _) =>
    case VersionSnapshot(_, _) =>
    case _ => KeepsExtentsAndBases(s, at, rec);
  }

  /** The entry the record at `i` leaves, on the state the records before it left. */
  function BaseAt(journal: Journal, i: nat, draft: DocId): DraftBase
    requires i < |journal| && Writes(journal[i].rec, Base, draft)
  {
    BaseAfter(Replay(journal[..i]), journal[i].at, journal[i].rec, draft)
  }

  lemma BaseAtPrefix(journal: Journal, n: nat, i: nat, draft: DocId)
    requires i < n <= |journal| && Writes(journal[i].rec, Base, draft)
    ensures BaseAt(journal[..n], i, draft) == BaseAt(journal, i, draft)
  {
    assert journal[..n][..i] == journal[..i];
  }

  /** What the last record that writes a draft's base leaves. */
  function LastBase(journal: Journal, draft: DocId): Option<DraftBase> {
    match LastWrite(journal, Base, draft) case None => None case Some(i) => Some(BaseAt(journal, i, draft))
  }

  lemma LastBaseStep(journal: Journal, draft: DocId)
    requires journal != []
    ensures var n := |journal| - 1;
            LastBase(journal, draft) ==
            if Writes(journal[n].rec, Base, draft)
            then Some(BaseAfter(Replay(journal[..n]), journal[n].at, journal[n].rec, draft))
            else LastBase(journal[..n], draft)
  {
    var n := |journal| - 1;
    var before := LastWrite(journal[..n], Base, draft);
    if before.Some? { BaseAtPrefix(journal, n, before.value, draft); }
  }

  /**
   * BASE: a draft's base is what the last staging, landing or rendering record left, a rendering clearing its marker.
   */
  lemma {:induction false} DraftBaseIsLastMove(journal: Journal, draft: DocId)
    ensures Lookup(Replay(journal).draftBases, draft) == LastBase(journal, draft)
  {
    if journal != [] {
      var n := |journal| - 1;
      DraftBaseIsLastMove(journal[..n], draft);
      LastBaseStep(journal, draft);
      BaseStep(Replay(journal[..n]), journal[n].at, journal[n].rec, draft);
    }
  }
}

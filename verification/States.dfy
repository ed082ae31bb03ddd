/** The arrangement slice, its journal records and the pure fold of one record. */
module States {
  import opened Wrappers
  import opened Tumblers
  import opened Addresses
  import opened Spans
  import opened SpanSets
  import opened Runs
  import opened RunLists
  import opened Chains
  import opened Reads
  import opened VSpaces

  /** A document's address as the maps are keyed by it: of its shape, the fold asks only whether it opens a chain. */
  type DocId = Tumbler

  predicate OpensChain(doc: DocId) {
    T4Valid(doc) && IsBirthVersion(doc)
  }

  datatype DocArrangement = DocArrangement(content: seq<Run>, link: seq<Run>)

  /** A merge as a record carries it, and as an entry holds it with the position it was put there. */
  datatype Merge = Merge(sides: seq<DocId>, head: DocId, headCopied: nat)
  datatype Marker = Marker(sides: seq<DocId>, head: DocId, headCopied: nat, at: nat)

  datatype DraftBase = DraftBase(base: DocId, extent: nat, source: DocId, merge: Option<Marker>)

  datatype ShotTerms = ShotTerms(placed: nat, baseExtent: Option<nat>)

  type Provenance = map<DocId, SpanSet>

  datatype M5State = M5State(
    arrangements: map<DocId, DocArrangement>,
    provenance: Provenance,
    birthExtents: map<DocId, nat>,
    shotTerms: map<DocId, ShotTerms>,
    forkSources: map<DocId, DocId>,
    arrangedAt: map<DocId, nat>,
    draftBases: map<DocId, DraftBase>
  )

  datatype M5Rec =
    | ContentPlace(doc: DocId, ordinal: nat, runs: seq<Run>)
    | ContentRemove(doc: DocId, from: nat, width: nat)
    | ContentReorder(doc: DocId, cuts: seq<nat>)
    | LinkSeat(doc: DocId, link: Address)
    | VersionSnapshot(source: DocId, member: DocId)
    | ShotPlace(doc: DocId, runs: seq<Run>, terms: ShotTerms, rendering: Option<DocId>)
    | BaseRecord(draft: DocId, base: DocId, extent: nat, source: DocId, merge: Option<Merge>)

  const Genesis := M5State(map[], map[], map[], map[], map[], map[], map[])

  const EmptyArrangement := DocArrangement([], [])

  /** Absent means empty: every read of the map goes through here. */
  function ArrangementOf(s: M5State, doc: DocId): DocArrangement {
    if doc in s.arrangements then s.arrangements[doc] else EmptyArrangement
  }

  function ContentList(s: M5State, doc: DocId): seq<Run> {
    ArrangementOf(s, doc).content
  }

  function LinkList(s: M5State, doc: DocId): seq<Run> {
    ArrangementOf(s, doc).link
  }

  /** The two subspaces an arrangement has. */
  function ListOf(arrangement: DocArrangement, subspace: nat): Option<seq<Run>> {
    if subspace == CONTENT_SUBSPACE then Some(arrangement.content)
    else if subspace == LINK_SUBSPACE then Some(arrangement.link)
    else None
  }

  function WithContent(s: M5State, doc: DocId, content: seq<Run>): map<DocId, DocArrangement> {
    s.arrangements[doc := ArrangementOf(s, doc).(content := content)]
  }

  function WithLink(s: M5State, doc: DocId, link: seq<Run>): map<DocId, DocArrangement> {
    s.arrangements[doc := ArrangementOf(s, doc).(link := link)]
  }

  // ---------------------------------------------------------------- provenance

  function EverContained(provenance: Provenance, doc: DocId): SpanSet {
    if doc in provenance then provenance[doc] else []
  }

  /** The runs' I-extents, after everything the document already recorded. */
  function AppendRuns(provenance: Provenance, doc: DocId, runs: seq<Run>): Provenance {
    provenance[doc := EverContained(provenance, doc) + Image(runs)]
  }

  /** The documents with a recorded span not separated from a span of the coverage. */
  function DocsEverContaining(provenance: Provenance, coverage: SpanSet): set<DocId> {
    set doc | doc in provenance && TouchesAny(provenance[doc], coverage)
  }

  /** Whether some recorded span is not separated from some span of the coverage. */
  predicate TouchesAny(placed: SpanSet, coverage: SpanSet) {
    exists i, j :: 0 <= i < |placed| && 0 <= j < |coverage| && ClassifySpans(placed[i], coverage[j]) != Apart
  }

  // ---------------------------------------------------------------- the fold

  /** A birth version's extent, noted the first time and never again. */
  function BirthExtentsNoting(s: M5State, doc: DocId, count: nat): map<DocId, nat> {
    if !OpensChain(doc) || doc in s.birthExtents then s.birthExtents else s.birthExtents[doc := count]
  }

  function Stamped(merge: Merge, at: nat): Marker {
    Marker(merge.sides, merge.head, merge.headCopied, at)
  }

  /** The rendering draft's base moved to the member it rendered, its source kept and its marker cleared. */
  function BasesAfterShot(s: M5State, doc: DocId, count: nat, draft: Option<DocId>): map<DocId, DraftBase> {
    match draft
    case None => s.draftBases
    case Some(d) =>
      var source := if d in s.draftBases then s.draftBases[d].source else doc;
      s.draftBases[d := DraftBase(doc, count, source, None)]
  }

  /** The shot's placement, `content` being the list it leaves the member holding: an empty one installs nothing. */
  function NoteShot(
    s: M5State, at: nat, doc: DocId, runs: seq<Run>, terms: ShotTerms, rendering: Option<DocId>, content: seq<Run>
  ): M5State {
    M5State(
      if runs == [] then s.arrangements else WithContent(s, doc, content),
      if runs == [] then s.provenance else AppendRuns(s.provenance, doc, runs),
      BirthExtentsNoting(s, doc, TotalWidth(content)),
      s.shotTerms[doc := terms],
      s.forkSources,
      s.arrangedAt[doc := at],
      BasesAfterShot(s, doc, TotalWidth(content), rendering))
  }

  /**
   * The snapshot, `content` being the source's list as it stands: an empty one shares nothing and is a source all the
   * same.
   */
  function NoteSnapshot(s: M5State, at: nat, source: DocId, member: DocId, content: seq<Run>): M5State {
    M5State(
      if content == [] then s.arrangements else s.arrangements[member := DocArrangement(content, [])],
      if content == [] then s.provenance else AppendRuns(s.provenance, member, content),
      BirthExtentsNoting(s, member, TotalWidth(content)),
      s.shotTerms,
      s.forkSources[member := source],
      s.arrangedAt[member := at],
      s.draftBases)
  }

  /** The content list a record that edits one leaves. */
  function Edited(content: seq<Run>, rec: M5Rec): seq<Run> {
    match rec
    case ContentPlace(_, ordinal, runs) => SpliceIn(content, ordinal, runs)
    case ShotPlace(_, runs, _, _) => SpliceIn(content, 1, runs)
    case ContentRemove(_, from, width) => RemoveRange(content, from, width)
    case ContentReorder(_, cuts) => Reorder(content, cuts)
    case _ => content
  }

  /** One record folded at its commit position. */
  function Apply(s: M5State, at: nat, rec: M5Rec): M5State {
    match rec
    case ContentPlace(doc, _, runs) => s.(
      arrangements := WithContent(s, doc, Edited(ContentList(s, doc), rec)),
      provenance := AppendRuns(s.provenance, doc, runs),
      arrangedAt := s.arrangedAt[doc := at])
    case ShotPlace(doc, runs, terms, rendering) =>
      NoteShot(s, at, doc, runs, terms, rendering, Edited(ContentList(s, doc), rec))
    case ContentRemove(doc, _, _) => s.(
      arrangements := WithContent(s, doc, Edited(ContentList(s, doc), rec)),
      arrangedAt := s.arrangedAt[doc := at])
    case ContentReorder(doc, _) => s.(
      arrangements := WithContent(s, doc, Edited(ContentList(s, doc), rec)),
      arrangedAt := s.arrangedAt[doc := at])
    case LinkSeat(doc, link) =>
      (match NewRun(link, 1)
       case Ok(seated) => s.(arrangements := WithLink(s, doc, Append(LinkList(s, doc), seated)))
       case Err(_) => s)
    case VersionSnapshot(source, member) => NoteSnapshot(s, at, source, member, ContentList(s, source))
    case BaseRecord(draft, base, extent, source, merge) =>
      var marker := match merge case None => None case Some(m) => Some(Stamped(m, at));
      s.(draftBases := s.draftBases[draft := DraftBase(base, extent, source, marker)])
  }

  // ---------------------------------------------------------------- reads at an address

  /** The I-runs covering an ordinal V-span; nothing for any other span or subspace. */
  function Resolve(s: M5State, doc: DocId, span: Span): seq<Run> {
    match AsOrdinalVSpan(span)
    case None => []
    case Some(v) =>
      match ListOf(ArrangementOf(s, doc), v.subspace)
      case None => []
      case Some(list) => ResolveRange(list, v.ordinal, v.count)
  }

  function PointAt(s: M5State, doc: DocId, subspace: nat, ordinal: nat): Option<Tumbler> {
    match ListOf(ArrangementOf(s, doc), subspace)
    case None => None
    case Some(list) => Point(list, ordinal)
  }

  lemma RangeReadsPoints(list: seq<Run>, ordinal: nat, count: nat, k: nat)
    ensures var from := if ordinal < 1 then 1 else ordinal;
            var f := Flat(ResolveRange(list, ordinal, count));
            (if k < |f| then Some(f[k]) else None) ==
              (if from + k < ordinal + count then Point(list, from + k) else None)
  {
    var from := if ordinal < 1 then 1 else ordinal;
    ResolveRangeRefines(list, ordinal, count);
    PointIsIndex(list, from + k);
  }

  /** A resolution is exactly the addresses the point read gives across the arranged part of the span. */
  lemma ResolveReadsPoints(s: M5State, doc: DocId, subspace: nat, ordinal: nat, count: nat, k: nat)
    requires count > 0
    requires subspace in {CONTENT_SUBSPACE, LINK_SUBSPACE}
    ensures var from := if ordinal < 1 then 1 else ordinal;
            var f := Flat(Resolve(s, doc, MakeVSpan(subspace, ordinal, count).value));
            (if k < |f| then Some(f[k]) else None) ==
            (if from + k < ordinal + count then PointAt(s, doc, subspace, from + k) else None)
  {
    VSpanRoundTrips(subspace, ordinal, count, MakeVSpan(subspace, ordinal, count).value);
    RangeReadsPoints(ListOf(ArrangementOf(s, doc), subspace).value, ordinal, count, k);
  }
}

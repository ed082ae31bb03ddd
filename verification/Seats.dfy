/** Link seating: the three ordered checks, and what they keep of every link list. */
module Seats {
  import opened Wrappers
  import opened Tumblers
  import opened Arithmetic
  import opened Addresses
  import opened Runs
  import opened RunLists
  import opened RunUnions
  import opened States
  import opened Journals

  datatype SeatError = NotLinkAddress | NotHomeLink | AlreadySeated

  /** The shape is judged first, then the home, then whether the address is seated already. */
  function StageSeatLink(s: M5State, doc: DocId, link: Address): Result<M5Rec, SeatError> {
    if !AdmitsStart(link) || Subspace(link) != Some(LINK_SUBSPACE) then Err(NotLinkAddress)
    else if DocumentOf(link) != Some(doc) then Err(NotHomeLink)
    else if Holds(LinkList(s, doc), link) then Err(AlreadySeated)
    else Ok(LinkSeat(doc, link))
  }

  /** A position of the document's own link subspace. */
  predicate HomedIn(a: Tumbler, doc: DocId) {
    IsElementPosition(a) && Subspace(a) == Some(LINK_SUBSPACE) && DocumentOf(a) == Some(doc)
  }

  /** On a standing list the last check is exact: refused precisely where the address is already in the list. */
  lemma StageIsExact(s: M5State, doc: DocId, link: Address)
    requires AllStanding(LinkList(s, doc))
    ensures StageSeatLink(s, doc, link).Ok? <==> HomedIn(link, doc) && link !in Flat(LinkList(s, doc))
    ensures StageSeatLink(s, doc, link) == Err(AlreadySeated) <==> HomedIn(link, doc) && link in Flat(LinkList(s, doc))
    ensures StageSeatLink(s, doc, link).Ok? ==> StageSeatLink(s, doc, link).value == LinkSeat(doc, link)
  {
    if AdmitsStart(link) { HoldsIsExact(LinkList(s, doc), link); }
  }

  /** Every link seat was staged on the state the records before it left. */
  predicate SeatsStaged(journal: Journal) {
    forall i :: 0 <= i < |journal| && journal[i].rec.LinkSeat? ==>
      StageSeatLink(Replay(journal[..i]), journal[i].rec.doc, journal[i].rec.link) == Ok(journal[i].rec)
  }

  /** The links seated in a document, in seating order, from the last snapshot that installed an arrangement there. */
  function Seated(journal: Journal, doc: DocId): seq<Tumbler> {
    if journal == [] then []
    else
      var before := journal[..|journal| - 1];
      match journal[|journal| - 1].rec
      case LinkSeat(d, link) => Seated(before, doc) + if d == doc then [link] else []
      case VersionSnapshot(source, member) =>
        if member == doc && ContentList(Replay(before), source) != [] then [] else Seated(before, doc)
      case _ => Seated(before, doc)
  }

  lemma AppendOne(runs: seq<Run>, link: Tumbler)
    ensures Flat(Append(runs, Run(link, 1))) == Flat(runs) + [link]
  {
    AppendRefines(runs, Run(link, 1));
    ShiftZero(link);
    assert Addrs(Run(link, 1)) == [link];
  }

  lemma SeatsBefore(journal: Journal)
    requires SeatsStaged(journal) && JournalStands(journal) && journal != []
    ensures SeatsStaged(journal[..|journal| - 1]) && JournalStands(journal[..|journal| - 1])
  {
    var n := |journal| - 1;
    forall i | 0 <= i < n && journal[..n][i].rec.LinkSeat?
      ensures StageSeatLink(Replay(journal[..n][..i]), journal[..n][i].rec.doc, journal[..n][i].rec.link) ==
                Ok(journal[..n][i].rec)
    {
      assert journal[..n][..i] == journal[..i];
    }
  }

  /** Each link list holds exactly the links seated in its document, in seating order. */
  lemma {:induction false} ListIsSeatingOrder(journal: Journal, doc: DocId)
    requires SeatsStaged(journal) && JournalStands(journal)
    ensures Flat(LinkList(Replay(journal), doc)) == Seated(journal, doc)
  {
    if journal != [] {
      var n := |journal| - 1;
      var s, rec := Replay(journal[..n]), journal[n].rec;
      SeatsBefore(journal);
      ListIsSeatingOrder(journal[..n], doc);
      LinkListAfter(s, journal[n].at, rec, doc);
      if rec.LinkSeat? {
        assert StageSeatLink(s, rec.doc, rec.link) == Ok(rec);
        AppendOne(LinkList(s, doc), rec.link);
      }
    }
  }

  /** CL-UNIQ and CL-OWN over every run: seated links are pairwise distinct and each is homed where it is seated. */
  lemma {:induction false} SeatedLinksAreUnique(journal: Journal, doc: DocId)
    requires SeatsStaged(journal) && JournalStands(journal)
    ensures NoDuplicates(Flat(LinkList(Replay(journal), doc)))
    ensures forall a :: a in Flat(LinkList(Replay(journal), doc)) ==> HomedIn(a, doc)
  {
    ListIsSeatingOrder(journal, doc);
    if journal != [] {
      var n := |journal| - 1;
      var s, rec := Replay(journal[..n]), journal[n].rec;
      SeatsBefore(journal);
      SeatedLinksAreUnique(journal[..n], doc);
      ListIsSeatingOrder(journal[..n], doc);
      if rec.LinkSeat? && rec.doc == doc {
        assert StageSeatLink(s, rec.doc, rec.link) == Ok(rec);
        EveryReplayIsSound(journal[..n]);
        assert ListSound(LinkList(s, doc));
        StageIsExact(s, doc, rec.link);
      }
    }
  }
}

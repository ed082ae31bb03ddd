/** The check the in-place edits share: whether an arrangement moved since the state an edit was typed against. */
module StaleEdits {
  import opened Wrappers
  import opened Tumblers
  import opened Addresses
  import opened Runs
  import opened States
  import opened Journals

  datatype AsOf = Unchecked | Typed(at: nat)

  /** A stale edit's two positions, the typed one first, or nothing where the edit may land. */
  function ArrangementMoved(s: M5State, doc: DocId, asOf: AsOf): Option<(nat, nat)> {
    match asOf
    case Unchecked => None
    case Typed(typed) =>
      match Lookup(s.arrangedAt, doc)
      case None => None
      case Some(current) => if typed < current then Some((typed, current)) else None
  }

  /** Commit positions never go back; the records of one transaction share theirs. */
  predicate Ascends(journal: Journal) {
    forall i, j :: 0 <= i < j < |journal| ==> journal[i].at <= journal[j].at
  }

  /** The journal as it stood after the commit at `t`. */
  function UpTo(journal: Journal, t: nat): (r: Journal)
    ensures r <= journal
    ensures r == [] || r[|r| - 1].at <= t
  {
    if journal == [] || journal[|journal| - 1].at <= t then journal else UpTo(journal[..|journal| - 1], t)
  }

  /** What that prefix holds: exactly the records committed at or before `t`. */
  lemma {:induction false} UpToIsExact(journal: Journal, t: nat, i: nat)
    requires Ascends(journal) && i < |journal|
    ensures i < |UpTo(journal, t)| <==> journal[i].at <= t
  {
    var n := |journal| - 1;
    if journal[n].at > t && i < n { UpToIsExact(journal[..n], t, i); }
  }

  predicate ChangedPast(journal: Journal, doc: DocId, t: nat) {
    exists i :: 0 <= i < |journal| && t < journal[i].at && ChangesContent(journal[i].rec, doc)
  }

  lemma {:induction false} UnchangedPast(journal: Journal, doc: DocId, t: nat)
    requires !ChangedPast(journal, doc, t)
    ensures ContentList(Replay(journal), doc) == ContentList(Replay(UpTo(journal, t)), doc)
  {
    if journal != [] && journal[|journal| - 1].at > t {
      var n := |journal| - 1;
      assert !ChangesContent(journal[n].rec, doc);
      UnchangedContent(Replay(journal[..n]), journal[n].at, journal[n].rec, doc);
      assert forall i :: 0 <= i < n ==> journal[..n][i] == journal[i];
      UnchangedPast(journal[..n], doc, t);
    }
  }

  /** The last record that changed a document's content is past every other that did. */
  lemma LastChangeBounds(journal: Journal, doc: DocId)
    requires Ascends(journal)
    ensures match LastWrite(journal, Arranged, doc)
            case None => forall i :: 0 <= i < |journal| ==> !ChangesContent(journal[i].rec, doc)
            case Some(last) =>
              && ChangesContent(journal[last].rec, doc)
              && forall i :: 0 <= i < |journal| && ChangesContent(journal[i].rec, doc) ==>
                   journal[i].at <= journal[last].at
  {
    var last := LastWrite(journal, Arranged, doc);
    forall i | 0 <= i < |journal| && ChangesContent(journal[i].rec, doc)
      ensures last.Some? && journal[i].at <= journal[last.value].at
    {
      assert Writes(journal[i].rec, Arranged, doc);
    }
  }

  /**
   * Refused exactly where a record committed past `t` changed the document's content; no link seat or base record
   * ever refuses.
   */
  lemma RefusesExactlyTheMoved(journal: Journal, doc: DocId, t: nat)
    requires Ascends(journal)
    ensures ArrangementMoved(Replay(journal), doc, Typed(t)).Some? <==> ChangedPast(journal, doc, t)
  {
    ArrangedAtIsLastChange(journal, doc);
    LastChangeBounds(journal, doc);
  }

  /** The positions a refusal names: the typed one, and the last change's. */
  lemma RefusalNamesTheLastChange(journal: Journal, doc: DocId, t: nat)
    requires Ascends(journal)
    requires ArrangementMoved(Replay(journal), doc, Typed(t)).Some?
    ensures var (typed, current) := ArrangementMoved(Replay(journal), doc, Typed(t)).value;
            && typed == t < current
            && (exists i :: 0 <= i < |journal| && journal[i].at == current && ChangesContent(journal[i].rec, doc))
            && (forall i :: 0 <= i < |journal| && ChangesContent(journal[i].rec, doc) ==> journal[i].at <= current)
  {
    ArrangedAtIsLastChange(journal, doc);
    LastChangeBounds(journal, doc);
  }

  /** Stale-edit soundness: an edit the check lets through meets the very run-list it was typed against. */
  lemma LetThroughMeansUnmoved(journal: Journal, doc: DocId, t: nat)
    requires Ascends(journal)
    requires ArrangementMoved(Replay(journal), doc, Typed(t)).None?
    ensures ContentList(Replay(journal), doc) == ContentList(Replay(UpTo(journal, t)), doc)
  {
    RefusesExactlyTheMoved(journal, doc, t);
    UnchangedPast(journal, doc, t);
  }
}

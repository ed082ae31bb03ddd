/**
 * The partials of resumable uploads, and the reconciliation that holds them and their records to each other at open.
 */
module Partials {
  import opened Wrappers
  import opened Clocks
  import opened LogLines
  import opened Logs
  import opened KeyedLogs
  import opened UploadLogs
  import opened BlobDisks
  import opened PartialPaths

  function PathOf(r: UploadRecord): PartialKey {
    PartialKey(r.designation, r.id)
  }

  // ---------------------------------------------------------------- the records over the partials while a store serves

  /**
   * Where the record's partial stands, every version of its directory names it over one file; and that file, unless
   * shorter than the record's offset, is durable to it.
   */
  ghost predicate RecordHeld(k: BlobDisk, r: UploadRecord) {
    Entry(k, PathOf(r)).Some? ==>
      && Throughout(k, PathOf(r)) && Entry(k, PathOf(r)).value in k.files
      && var f := k.files[Entry(k, PathOf(r)).value];
         r.offset <= |f.live| ==> DurableTo(f, r.offset)
  }

  ghost predicate RecordsHeld(k: BlobDisk, records: RecordMap) {
    forall id {:trigger RecordHeld(k, records[id])} :: id in records ==> RecordHeld(k, records[id])
  }

  lemma RecordStaysHeld(k: BlobDisk, after: BlobDisk, spared: set<PartialKey>, r: UploadRecord)
    requires GoodDisk(k) && GoodDisk(after) && KeepsPartials(k, after, spared) && PathOf(r) !in spared
    requires RecordHeld(k, r)
    ensures RecordHeld(after, r)
  {
    EntryStays(k, after, spared, PathOf(r));
  }

  lemma RecordsStayHeld(k: BlobDisk, after: BlobDisk, spared: set<PartialKey>, records: RecordMap)
    requires GoodDisk(k) && GoodDisk(after) && KeepsPartials(k, after, spared) && RecordsHeld(k, records)
    requires forall id :: id in records && PathOf(records[id]) in spared ==> RecordHeld(after, records[id])
    ensures RecordsHeld(after, records)
  {
    forall id | id in records ensures RecordHeld(after, records[id]) {
      if PathOf(records[id]) !in spared {
        assert RecordHeld(k, records[id]);
        RecordStaysHeld(k, after, spared, records[id]);
      }
    }
  }

  /** Partials durable as they stand hold every record, whatever its offset. */
  lemma SettledHold(k: BlobDisk, records: RecordMap)
    requires GoodDisk(k) && PartialsSettled(k)
    ensures RecordsHeld(k, records)
  {
    forall id | id in records ensures RecordHeld(k, records[id]) {
      var p := PathOf(records[id]);
      if Entry(k, p).Some? {
        EntryIsOnlyIts(k, p);
        assert PartialAt(k, p).Some?;
        assert PartialDurable(k, p, PartialAt(k, p).value);
      }
    }
  }

  /** No line a failed append left whole lowers a record standing, or moves it. */
  ghost predicate OffersFit(records: RecordMap, offered: set<(UploadId, UploadRecord)>) {
    forall p {:trigger p in offered, records[p.0]} :: p in offered && p.0 in records ==>
      p.1.offset >= records[p.0].offset && p.1.designation == records[p.0].designation
  }

  lemma FewerOffersFit(records: RecordMap, offered: set<(UploadId, UploadRecord)>, fewer: set<(UploadId, UploadRecord)>)
    requires OffersFit(records, offered) && fewer <= offered
    ensures OffersFit(records, fewer)
  {
  }

  lemma MarkStaysHeld(k: BlobDisk, was: RecordMap, records: RecordMap, id: UploadId, offset: U64)
    requires RecordsHeld(k, was)
    requires || records == was
             || (&& id in was && records.Keys == was.Keys && (forall o :: o in was && o != id ==> records[o] == was[o])
                 && RecordHeld(k, was[id].(offset := offset))
                 && records[id].offset == offset && PathOf(records[id]) == PathOf(was[id]))
    ensures RecordsHeld(k, records)
  {
    forall o | o in records ensures RecordHeld(k, records[o]) {
      if o != id || records == was { assert RecordHeld(k, was[o]); }
    }
  }

  /** They fit past a mark at or past the record's offset, answered or left whole in the log. */
  lemma OffersStillFit(
    was: RecordMap, wasOffered: set<(UploadId, UploadRecord)>,
    records: RecordMap, offered: set<(UploadId, UploadRecord)>, id: UploadId, offset: U64)
    requires OffersFit(was, wasOffered)
    requires offered == {} || records == was
    requires forall p :: p in offered && p !in wasOffered ==>
               p.0 == id && p.1.offset == offset && id in was && p.1.designation == was[id].designation
    requires id in was ==> was[id].offset <= offset || offered <= wasOffered
    ensures OffersFit(records, offered)
  {
  }

  // ---------------------------------------------------------------- how the reconciliation's acts go

  /** How a removal goes: the unlink and the directory's sync after it. */
  datatype RemoveFate = RemoveOk | UnlinkFails | SyncFails

  /** How a standing record's partial is held to it: its stat, then the cut where it is longer, then the cut's sync. */
  datatype HoldFate = Holds | StatFails | CutFails | CutSyncFails

  /** How each act of a reconciliation goes. */
  datatype ReconcileFate = ReconcileFate(
    removes: PartialKey -> RemoveFate, holds: PartialKey -> HoldFate, appends: UploadId -> AppendFate,
    lists: string -> bool, syncs: string -> bool)

  /** Every act that must not fail goes through; removals and their syncs may be refused. */
  ghost predicate ReconcileOk(fate: ReconcileFate) {
    && (forall k :: fate.holds(k) == Holds)
    && (forall id :: AppendOk(fate.appends(id)))
    && (forall d :: fate.lists(d))
  }

  // ---------------------------------------------------------------- what the reconciliation leaves

  /** Whether an expired upload's removal is answered done: a partial that is not there is no failure. */
  predicate Removes(files: PartialFiles, k: PartialKey, fate: PartialKey -> RemoveFate) {
    k !in files || fate(k) == RemoveOk
  }

  predicate KeepsRecord(files: PartialFiles, r: UploadRecord, now: U64, fate: PartialKey -> RemoveFate) {
    if Stands(r, now) then PathOf(r) in files else !Removes(files, PathOf(r), fate)
  }

  /** A standing record and its partial held to the shorter of the two. */
  function HeldTo(files: PartialFiles, r: UploadRecord, now: U64): UploadRecord {
    if Stands(r, now) && PathOf(r) in files && |files[PathOf(r)]| < r.offset
    then r.(offset := |files[PathOf(r)]|) else r
  }

  function RecordsAfter(files: PartialFiles, records: RecordMap, now: U64, fate: PartialKey -> RemoveFate): RecordMap {
    map id | id in records && KeepsRecord(files, records[id], now, fate) :: HeldTo(files, records[id], now)
  }

  predicate Named(records: RecordMap, k: PartialKey) {
    k.id in records && PathOf(records[k.id]) == k
  }

  /** Whether the walk of the records leaves a file where it stands. */
  predicate WalkLeaves(records: RecordMap, now: U64, fate: PartialKey -> RemoveFate, k: PartialKey) {
    Named(records, k) ==> Stands(records[k.id], now) || fate(k) == UnlinkFails
  }

  function WalkedFile(records: RecordMap, now: U64, k: PartialKey, bytes: Bytes): Bytes {
    if Named(records, k) && Stands(records[k.id], now) && |bytes| > records[k.id].offset
    then bytes[..records[k.id].offset] else bytes
  }

  /** Whether the sweep leaves it: named by a record kept, or not this build's, or not to be removed. */
  predicate SweepLeaves(kept: RecordMap, pinned: seq<string>, fate: PartialKey -> RemoveFate, k: PartialKey) {
    Named(kept, k) || k.designation !in pinned || fate(k) == UnlinkFails
  }

  function FilesAfter(
    files: PartialFiles, records: RecordMap, pinned: seq<string>, now: U64,
    fate: PartialKey -> RemoveFate): PartialFiles
  {
    map k | k in files && WalkLeaves(records, now, fate, k)
      && SweepLeaves(RecordsAfter(files, records, now, fate), pinned, fate, k)
      :: WalkedFile(records, now, k, files[k])
  }

  predicate KeyedById(records: RecordMap) {
    forall id :: id in records ==> records[id].id == id
  }

  /** Standing records, each over a partial of exactly its offset; no other partial this build made. */
  predicate Reconciled(files: PartialFiles, records: RecordMap, pinned: seq<string>, now: U64) {
    && (forall id :: id in records ==>
          Stands(records[id], now) && PathOf(records[id]) in files
            && |files[PathOf(records[id])]| == records[id].offset)
    && (forall k :: k in files && k.designation in pinned ==> Named(records, k))
  }

  function AllRemove(): PartialKey -> RemoveFate {
    k => RemoveOk
  }

  /** Where nothing fails, what is left is reconciled. */
  lemma FailureFreeIsReconciled(files: PartialFiles, records: RecordMap, pinned: seq<string>, now: U64)
    requires KeyedById(records)
    ensures Reconciled(
              FilesAfter(files, records, pinned, now, AllRemove()), RecordsAfter(files, records, now, AllRemove()),
              pinned, now)
  {
    var kept := RecordsAfter(files, records, now, AllRemove());
    forall id | id in kept
      ensures Stands(kept[id], now) && PathOf(kept[id]) in FilesAfter(files, records, pinned, now, AllRemove())
      ensures |FilesAfter(files, records, pinned, now, AllRemove())[PathOf(kept[id])]| == kept[id].offset
    {
      RefusedRemovalsCostNoUpload(files, records, pinned, now, AllRemove(), id);
    }
  }

  /** A second reconciliation at the same instant finds nothing to do. */
  lemma ReconciledIsFixed(
    files: PartialFiles, records: RecordMap, pinned: seq<string>, now: U64, fate: PartialKey -> RemoveFate)
    requires Reconciled(files, records, pinned, now) && KeyedById(records)
    ensures FilesAfter(files, records, pinned, now, fate) == files
    ensures RecordsAfter(files, records, now, fate) == records
  {
    var kept := RecordsAfter(files, records, now, fate);
    assert kept == records;
    forall k | k in files
      ensures WalkLeaves(records, now, fate, k) && SweepLeaves(kept, pinned, fate, k)
                && WalkedFile(records, now, k, files[k]) == files[k]
    {
      if Named(records, k) { assert Stands(records[k.id], now); }
    }
  }

  /**
   * And whatever removals the volume refuses, no standing upload loses its record, its partial or a byte they agree
   * on.
   */
  lemma RefusedRemovalsCostNoUpload(
    files: PartialFiles, records: RecordMap, pinned: seq<string>, now: U64, fate: PartialKey -> RemoveFate,
    id: UploadId)
    requires KeyedById(records) && id in records && Stands(records[id], now) && PathOf(records[id]) in files
    ensures var kept, k := RecordsAfter(files, records, now, fate), PathOf(records[id]);
            var left := FilesAfter(files, records, pinned, now, fate);
            && id in kept && k in left && |left[k]| == kept[id].offset && left[k] == files[k][..kept[id].offset]
            && kept[id] == records[id].(offset := kept[id].offset) && kept[id].offset <= records[id].offset
  {
    var kept, k := RecordsAfter(files, records, now, fate), PathOf(records[id]);
    assert Named(records, k) && Named(kept, k);
    if |files[k]| <= records[id].offset { assert files[k][..|files[k]|] == files[k]; }
  }

  // ---------------------------------------------------------------- the walk, record by record

  /** What the reconciliation did, by act. */
  datatype Tally = Tally(
    expired: nat, expiredLeft: nat, withoutPartial: nat, cutBack: nat, setBack: nat, orphans: nat, orphansLeft: nat,
    bytesFreed: nat)

  const NothingDone := Tally(0, 0, 0, 0, 0, 0, 0, 0)

  /** The records and the files once the walk has met the identifiers in `met`. */
  function WalkedRecords(
    files: PartialFiles, records: RecordMap, met: set<UploadId>, now: U64, fate: PartialKey -> RemoveFate): RecordMap
  {
    map id | id in records && (id in met ==> KeepsRecord(files, records[id], now, fate))
      :: if id in met then HeldTo(files, records[id], now) else records[id]
  }

  function WalkedFiles(
    files: PartialFiles, records: RecordMap, met: set<UploadId>, now: U64, fate: PartialKey -> RemoveFate): PartialFiles
  {
    map k | k in files && (k.id in met ==> WalkLeaves(records, now, fate, k))
      :: if k.id in met then WalkedFile(records, now, k, files[k]) else files[k]
  }

  function KeptKeys(
    files: PartialFiles, records: RecordMap, met: set<UploadId>, now: U64,
    fate: PartialKey -> RemoveFate): set<PartialKey>
  {
    set id | id in met && id in records && KeepsRecord(files, records[id], now, fate) :: PathOf(records[id])
  }

  /** The disk an open reconciles, and what its listings and stats show at the partials' paths. */
  class PartialDir {
    var disk: BlobDisk
    var files: PartialFiles
    ghost const start: BlobDisk
    /** The asides that may still stand. */
    ghost var asides: set<(string, AsideName)>
    /** Every moment of the disk since it was found. */
    ghost var trail: seq<BlobDisk>

    /** No moment lost a hash its file, and every partial is durable as it stands. */
    ghost predicate Valid()
      reads this
    {
      && Shows(disk, files) && PartialsSettled(disk) && LosesNothing(start, disk)
      && disk.dirs.Keys == start.dirs.Keys && disk.rootDurable == start.rootDurable && NoOtherAsides(disk, asides)
      && NoNewHash(start, disk)
      && forall i :: 0 <= i < |trail| ==> LosesNothing(start, trail[i])
    }

    constructor (disk: BlobDisk, files: PartialFiles)
      requires GoodDisk(disk) && PartialsSettled(disk) && Shows(disk, files)
      ensures Valid() && this.disk == disk && this.files == files && start == disk
    {
      this.disk, this.files, this.start := disk, files, disk;
      this.trail, this.asides := [], AllAsides(disk);
    }

    method Act(k: BlobDisk, files: PartialFiles)
      requires Valid() && LosesNothing(disk, k) && PartialsSettled(k) && Shows(k, files)
      requires k.dirs.Keys == disk.dirs.Keys && k.rootDurable == disk.rootDurable
      requires forall d, name: AsideName :: AsideStands(k, d, name) ==> AsideStands(disk, d, name)
      requires NoNewHash(disk, k)
      modifies `disk, `files, `trail
      ensures Valid() && disk == k && this.files == files
    {
      LosesNothingOn(start, disk, k);
      assert NoNewHash(start, k) by {
        forall d, hex | NamesHash(k, d, hex) ensures NamesHash(start, d, hex) {
          assert NamesHash(disk, d, hex);
        }
      }
      disk, this.files := k, files;
      trail := trail + [k];
    }

    method Unlink(k: PartialKey)
      requires Valid() && k in files
      modifies `disk, `files, `trail
      ensures Valid() && files == old(files) - {k} && k.designation in disk.dirs
    {
      UnlinkedShows(disk, k, files);
      UnlinkLosesNothing(disk, k.designation, Partial(k.id));
      Act(WithoutName(disk, k.designation, Partial(k.id)), files - {k});
    }

    /** One aside unlinked: no partial's path is touched. */
    method UnlinkAside(d: string, name: AsideName)
      requires Valid() && d in disk.dirs
      modifies `disk, `files, `trail
      ensures Valid() && files == old(files) && disk == WithoutName(old(disk), d, name)
    {
      OtherNameShows(disk, d, name, files);
      UnlinkLosesNothing(disk, d, name);
      Act(WithoutName(disk, d, name), files);
    }

    method SyncDirectory(d: string)
      requires Valid() && d in disk.dirs
      modifies `disk, `files, `trail
      ensures Valid() && files == old(files) && disk == DirSyncedDisk(old(disk), d)
    {
      SyncedShows(disk, d, files);
      SyncLosesNothing(disk, d);
      Act(DirSyncedDisk(disk, d), files);
    }

    /** Removes a partial, its directory synced where one went; absent is fine. Answers the bytes freed. */
    method Remove(k: PartialKey, fate: RemoveFate) returns (freed: Option<nat>)
      requires Valid()
      modifies `disk, `files, `trail
      ensures Valid()
      ensures freed.Some? <==> k !in old(files) || fate == RemoveOk
      ensures files == if fate == UnlinkFails then old(files) else old(files) - {k}
      ensures freed.Some? ==> freed.value == if k in old(files) then |old(files)[k]| else 0
    {
      if k !in files {
        assert files - {k} == files;
        return Some(0);
      }
      if fate == UnlinkFails {
        return None;
      }
      var size := |files[k]|;
      Unlink(k);
      if fate == SyncFails {
        return None;
      }
      SyncDirectory(k.designation);
      return Some(size);
    }

    /** The asides known to be gone. */
    ghost method Swept(left: set<(string, AsideName)>)
      requires Valid() && NoOtherAsides(disk, left)
      modifies `asides
      ensures Valid() && asides == left
    {
      asides := left;
    }

    /** A partial longer than its record cut back to it, and the cut synced. */
    method CutBack(k: PartialKey, n: nat, fate: HoldFate) returns (ok: bool)
      requires Valid() && k in files && n <= |files[k]|
      modifies `disk, `files, `trail
      ensures Valid() && ok == (fate != CutFails && fate != CutSyncFails)
      ensures ok ==> files == old(files)[k := old(files)[k][..n]]
    {
      if fate == CutFails {
        return false;
      }
      CutIsFront(disk, k, n, files);
      ChangeFile(k, CutTo(disk.files[Entry(disk, k).value], n));
      if fate == CutSyncFails {
        return false;
      }
      SyncCut(k);
      return true;
    }

    method ChangeFile(k: PartialKey, f: FileDisk)
      requires Valid() && PartialAt(disk, k).Some? && f.live in f.may && forall b :: b in f.may ==> f.live <= b
      modifies `disk, `files, `trail
      ensures Valid() && files == old(files)[k := f.live]
    {
      ChangedShows(disk, k, f, files);
      ChangedStaysSettled(disk, k, f);
      EntryIsOnlyIts(disk, k);
      OwnFileLosesNothing(disk, k, Entry(disk, k).value, f);
      Act(WithFile(disk, Entry(disk, k).value, f), files[k := f.live]);
    }

    method SyncCut(k: PartialKey)
      requires Valid() && k in files
      modifies `disk, `files, `trail
      ensures Valid() && files == old(files)
    {
      assert PartialAt(disk, k) == Look(files, k);
      ChangeFile(k, Synced(disk.files[Entry(disk, k).value]));
    }
  }

  /** A cut of a partial durable as it stands is durable as cut, synced or not. */
  lemma CutIsFront(disk: BlobDisk, k: PartialKey, n: nat, files: PartialFiles)
    requires PartialsSettled(disk) && Shows(disk, files) && k in files && n <= |files[k]|
    ensures PartialAt(disk, k).Some?
    ensures var f := CutTo(disk.files[Entry(disk, k).value], n);
            f.live == files[k][..n] && f.live in f.may && forall b :: b in f.may ==> f.live <= b
  {
    assert PartialAt(disk, k) == Look(files, k);
    assert PartialDurable(disk, k, files[k]);
  }

  /** What one record's turn leaves of the files. */
  function MetFiles(files: PartialFiles, r: UploadRecord, now: U64, fate: PartialKey -> RemoveFate): PartialFiles {
    var k := PathOf(r);
    if Stands(r, now) then (if k in files && |files[k]| > r.offset then files[k := files[k][..r.offset]] else files)
    else if fate(k) == UnlinkFails then files else files - {k}
  }

  /** One record's turn: an expired one removed, one whose partial is gone retired, the rest held to their partials. */
  method MeetRecord(dir: PartialDir, u: UploadRecords, r: UploadRecord, now: U64, fate: ReconcileFate, did: Tally)
    returns (ok: bool, tally: Tally)
    requires dir.Valid() && u.Valid() && r.id in u.records && u.records[r.id] == r
    modifies dir`disk, dir`files, dir`trail, u, u.log
    ensures dir.Valid() && u.Valid()
    ensures ok ==> dir.files == MetFiles(old(dir.files), r, now, fate.removes)
    ensures ok ==> u.records == if KeepsRecord(old(dir.files), r, now, fate.removes)
                                then old(u.records)[r.id := HeldTo(old(dir.files), r, now)] else old(u.records) - {r.id}
    ensures ok && Stands(r, now) && PathOf(r) in old(dir.files) && |old(dir.files)[PathOf(r)]| == r.offset ==>
              tally == did
    ensures ReconcileOk(fate) && old(u.log.stopped).None? ==> ok && u.log.stopped.None?
  {
    var k := PathOf(r);
    tally := did;
    if !Stands(r, now) {
      var freed := dir.Remove(k, fate.removes(k));
      if freed.None? {
        return true, did.(expiredLeft := did.expiredLeft + 1);
      }
      var retired := u.Retire(r.id, fate.appends(r.id));
      return retired == Appended, did.(expired := did.expired + 1, bytesFreed := did.bytesFreed + freed.value);
    }
    if fate.holds(k) == StatFails {
      return false, did;
    }
    if k !in dir.files {
      var retired := u.Retire(r.id, fate.appends(r.id));
      return retired == Appended, did.(withoutPartial := did.withoutPartial + 1);
    }
    ok := true;
    var length := |dir.files[k]|;
    if length > r.offset {
      ok := dir.CutBack(k, r.offset, fate.holds(k));
      tally := did.(cutBack := did.cutBack + 1, bytesFreed := did.bytesFreed + (length - r.offset));
    } else if length < r.offset {
      ok := u.SetBack(r.id, length, fate.appends(r.id));
      tally := did.(setBack := did.setBack + 1);
    }
  }

  lemma MeetStep(
    files: PartialFiles, records: RecordMap, met: set<UploadId>, id: UploadId, now: U64,
    fate: PartialKey -> RemoveFate)
    requires KeyedById(records) && id in records && id !in met
    ensures var r := records[id];
            && (PathOf(r) in WalkedFiles(files, records, met, now, fate) <==> PathOf(r) in files)
            && (PathOf(r) in files ==> WalkedFiles(files, records, met, now, fate)[PathOf(r)] == files[PathOf(r)])
            && WalkedFiles(files, records, met + {id}, now, fate) ==
                 MetFiles(WalkedFiles(files, records, met, now, fate), r, now, fate)
  {
    var r := records[id];
    var before := WalkedFiles(files, records, met, now, fate);
    var after := WalkedFiles(files, records, met + {id}, now, fate);
    var meets := MetFiles(before, r, now, fate);
    forall k ensures k in after <==> k in meets {
      if k.id == id && k != PathOf(r) { assert !Named(records, k); }
    }
    forall k | k in after ensures after[k] == meets[k] {
      if k.id == id && k != PathOf(r) { assert !Named(records, k); }
    }
  }

  lemma MeetRecordsStep(
    files: PartialFiles, records: RecordMap, met: set<UploadId>, id: UploadId, now: U64,
    fate: PartialKey -> RemoveFate)
    requires KeyedById(records) && id in records && id !in met
    ensures var before := WalkedRecords(files, records, met, now, fate);
            && id in before && before[id] == records[id]
            && WalkedRecords(files, records, met + {id}, now, fate)
               == if KeepsRecord(files, records[id], now, fate) then before[id := HeldTo(files, records[id], now)]
                 else before - {id}
  {
  }

  lemma SameHold(files: PartialFiles, walked: PartialFiles, r: UploadRecord, now: U64, fate: PartialKey -> RemoveFate)
    requires PathOf(r) in walked <==> PathOf(r) in files
    requires PathOf(r) in files ==> walked[PathOf(r)] == files[PathOf(r)]
    ensures KeepsRecord(walked, r, now, fate) == KeepsRecord(files, r, now, fate)
    ensures HeldTo(walked, r, now) == HeldTo(files, r, now)
  {
  }

  lemma WalkStarts(files: PartialFiles, records: RecordMap, now: U64, fate: PartialKey -> RemoveFate)
    ensures WalkedRecords(files, records, {}, now, fate) == records
    ensures WalkedFiles(files, records, {}, now, fate) == files
  {
  }

  /** Every record stands over a partial of exactly its offset: the walk has nothing to do. */
  ghost predicate AllHeld(files: PartialFiles, records: RecordMap, now: U64) {
    forall id :: id in records ==>
      Stands(records[id], now) && PathOf(records[id]) in files && |files[PathOf(records[id])]| == records[id].offset
  }

  /** The state of a walk that began over `files` and `records` and has met `met`. */
  ghost predicate Walked(
    dir: PartialDir, u: UploadRecords, files: PartialFiles, records: RecordMap, met: set<UploadId>, now: U64,
    fate: PartialKey -> RemoveFate)
    reads dir, u
  {
    && u.records == WalkedRecords(files, records, met, now, fate)
    && dir.files == WalkedFiles(files, records, met, now, fate)
  }

  lemma KeptKeysStep(
    files: PartialFiles, records: RecordMap, met: set<UploadId>, id: UploadId, now: U64,
    fate: PartialKey -> RemoveFate)
    requires id in records
    ensures KeptKeys(files, records, met + {id}, now, fate)
         == KeptKeys(files, records, met, now, fate)
            + if KeepsRecord(files, records[id], now, fate) then {PathOf(records[id])} else {}
  {
  }

  /** The walk's next record. */
  method MeetNext(
    dir: PartialDir, u: UploadRecords, ghost files: PartialFiles, records: RecordMap, ghost met: set<UploadId>,
    id: UploadId,
    now: U64, fate: ReconcileFate, named: set<PartialKey>, did: Tally
  ) returns (ok: bool, names: set<PartialKey>, tally: Tally)
    requires dir.Valid() && u.Valid() && KeyedById(records) && id in records && id !in met
    requires Walked(dir, u, files, records, met, now, fate.removes)
    modifies dir`disk, dir`files, dir`trail, u, u.log
    ensures dir.Valid() && u.Valid()
    ensures ok ==> Walked(dir, u, files, records, met + {id}, now, fate.removes)
    ensures named == KeptKeys(files, records, met, now, fate.removes) ==>
              names == KeptKeys(files, records, met + {id}, now, fate.removes)
    ensures ok && AllHeld(files, records, now) ==> tally == did
    ensures ReconcileOk(fate) && old(u.log.stopped).None? ==> ok && u.log.stopped.None?
  {
    var r := records[id];
    MeetStep(files, records, met, id, now, fate.removes);
    MeetRecordsStep(files, records, met, id, now, fate.removes);
    SameHold(files, dir.files, r, now, fate.removes);
    KeptKeysStep(files, records, met, id, now, fate.removes);
    names := named + if KeepsRecord(dir.files, r, now, fate.removes) then {PathOf(r)} else {};
    ok, tally := MeetRecord(dir, u, r, now, fate, did);
  }

  /** The records first, in whatever order the map gives them. */
  method Walk(dir: PartialDir, u: UploadRecords, now: U64, fate: ReconcileFate)
    returns (ok: bool, named: set<PartialKey>, tally: Tally)
    requires dir.Valid() && u.Valid() && KeyedById(u.records)
    modifies dir`disk, dir`files, dir`trail, u, u.log
    ensures dir.Valid() && u.Valid()
    ensures ok ==> Walked(dir, u, old(dir.files), old(u.records), old(u.records.Keys), now, fate.removes)
    ensures ok ==> named == KeptKeys(old(dir.files), old(u.records), old(u.records.Keys), now, fate.removes)
    ensures ok && AllHeld(old(dir.files), old(u.records), now) ==> tally == NothingDone
    ensures ReconcileOk(fate) && old(u.log.stopped).None? ==> ok && u.log.stopped.None?
  {
    ghost var files := dir.files;
    var records := u.records;
    var ids := SortedIds(records.Keys);
    named, tally, ok := {}, NothingDone, true;
    WalkStarts(files, records, now, fate.removes);
    ghost var met := {};
    for i := 0 to |ids|
      invariant dir.Valid() && u.Valid() && ok && met == Among(ids[..i])
      invariant Walked(dir, u, files, records, met, now, fate.removes)
      invariant named == KeptKeys(files, records, met, now, fate.removes)
      invariant AllHeld(files, records, now) ==> tally == NothingDone
      invariant ReconcileOk(fate) && old(u.log.stopped).None? ==> u.log.stopped.None?
    {
      NextAmong(ids, i);
      ok, named, tally := MeetNext(dir, u, files, records, met, ids[i], now, fate, named, tally);
      if !ok {
        return;
      }
      met := met + {ids[i]};
    }
    AllAmong(ids, records.Keys);
    assert met == old(u.records.Keys);
  }

  lemma AllAmong(ids: seq<UploadId>, keys: set<UploadId>)
    requires forall id :: id in ids <==> id in keys
    ensures Among(ids[..|ids|]) == keys
  {
    assert ids[..|ids|] == ids;
  }

  ghost function Among(ids: seq<UploadId>): set<UploadId> {
    set id | id in ids
  }

  lemma NextAmong(ids: seq<UploadId>, i: nat)
    requires i < |ids| && Ascending(ids)
    ensures ids[i] !in Among(ids[..i]) && Among(ids[..i + 1]) == Among(ids[..i]) + {ids[i]}
  {
    assert ids[..i + 1] == ids[..i] + [ids[i]];
  }

  function SweptFiles(
    files: PartialFiles, pinned: seq<string>, named: set<PartialKey>, fate: PartialKey -> RemoveFate): PartialFiles
  {
    map k | k in files && (k in named || k.designation !in pinned || fate(k) == UnlinkFails) :: files[k]
  }

  /** The partials of one directory that no kept record names. */
  function Orphans(files: PartialFiles, designation: string, named: set<PartialKey>): set<PartialKey> {
    set k | k in files && k.designation == designation && k !in named
  }

  /** One pinned directory's sweep: a removal refused is left, and the walk goes on; what went is then synced. */
  method SweepDirectory(
    dir: PartialDir, designation: string, named: set<PartialKey>, fate: ReconcileFate, did: Tally)
    returns (tally: Tally)
    requires dir.Valid()
    modifies dir`disk, dir`files, dir`trail
    ensures dir.Valid() && dir.files == SweptFiles(old(dir.files), [designation], named, fate.removes)
    ensures Orphans(old(dir.files), designation, named) == {} ==> tally == did
  {
    var went;
    tally, went := UnlinkOrphans(dir, designation, named, fate.removes, did);
    if went && fate.syncs(designation) && designation in dir.disk.dirs {
      dir.SyncDirectory(designation);
    }
  }

  method UnlinkOrphans(
    dir: PartialDir, designation: string, named: set<PartialKey>, fate: PartialKey -> RemoveFate, did: Tally)
    returns (tally: Tally, went: bool)
    requires dir.Valid()
    modifies dir`disk, dir`files, dir`trail
    ensures dir.Valid() && dir.files == SweptFiles(old(dir.files), [designation], named, fate)
    ensures Orphans(old(dir.files), designation, named) == {} ==> tally == did
  {
    ghost var files := dir.files;
    var orphans := Orphans(dir.files, designation, named);
    var rest := orphans;
    tally, went := did, false;
    while rest != {}
      invariant dir.Valid() && rest <= orphans && (orphans == {} ==> tally == did)
      invariant forall k :: k in dir.files <==> k in files && (k in orphans - rest ==> fate(k) == UnlinkFails)
      invariant forall k :: k in dir.files ==> dir.files[k] == files[k]
      decreases |rest|
    {
      var k :| k in rest;
      rest := rest - {k};
      if fate(k) == UnlinkFails {
        tally := tally.(orphansLeft := tally.orphansLeft + 1);
      } else {
        tally := tally.(orphans := tally.orphans + 1, bytesFreed := tally.bytesFreed + |dir.files[k]|);
        dir.Unlink(k);
        went := true;
      }
    }
    IsSwept(files, dir.files, designation, named, fate);
  }

  lemma IsSwept(
    files: PartialFiles, left: PartialFiles, designation: string, named: set<PartialKey>,
    fate: PartialKey -> RemoveFate)
    requires forall k :: k in left <==>
               k in files && (k in Orphans(files, designation, named) ==> fate(k) == UnlinkFails)
    requires forall k :: k in left ==> left[k] == files[k]
    ensures left == SweptFiles(files, [designation], named, fate)
  {
    var swept := SweptFiles(files, [designation], named, fate);
    forall k ensures k in left <==> k in swept {
      if k in files {
        assert k in Orphans(files, designation, named) <==> k.designation in [designation] && k !in named;
      }
    }
  }

  lemma SweepStarts(files: PartialFiles, named: set<PartialKey>, fate: PartialKey -> RemoveFate)
    ensures SweptFiles(files, [], named, fate) == files
  {
  }

  lemma SweepStep(
    files: PartialFiles, pinned: seq<string>, i: nat, named: set<PartialKey>, fate: PartialKey -> RemoveFate)
    requires i < |pinned|
    ensures SweptFiles(SweptFiles(files, pinned[..i], named, fate), [pinned[i]], named, fate) ==
              SweptFiles(files, pinned[..i + 1], named, fate)
    ensures Orphans(SweptFiles(files, pinned[..i], named, fate), pinned[i], named) <= Orphans(files, pinned[i], named)
  {
    assert pinned[..i + 1] == pinned[..i] + [pinned[i]];
  }

  /** Then the directories this build pins, and no other: every partial no kept record names is an orphan. */
  method Sweep(
    dir: PartialDir, pinned: seq<string>, named: set<PartialKey>, fate: ReconcileFate, did: Tally)
    returns (ok: bool, tally: Tally)
    requires dir.Valid()
    modifies dir`disk, dir`files, dir`trail
    ensures dir.Valid() && (ok ==> dir.files == SweptFiles(old(dir.files), pinned, named, fate.removes))
    ensures (forall i :: 0 <= i < |pinned| ==> Orphans(old(dir.files), pinned[i], named) == {}) ==> tally == did
    ensures ReconcileOk(fate) ==> ok
  {
    ghost var files := dir.files;
    tally, ok := did, true;
    SweepStarts(files, named, fate.removes);
    for i := 0 to |pinned|
      invariant ok && dir.Valid() && dir.files == SweptFiles(files, pinned[..i], named, fate.removes)
      invariant (forall j :: 0 <= j < i ==> Orphans(files, pinned[j], named) == {}) ==> tally == did
    {
      if !fate.lists(pinned[i]) {
        return false, tally;
      }
      SweepStep(files, pinned, i, named, fate.removes);
      tally := SweepDirectory(dir, pinned[i], named, fate, tally);
    }
    assert pinned[..|pinned|] == pinned;
  }

  lemma WalkThenSweep(
    files: PartialFiles, records: RecordMap, pinned: seq<string>, now: U64, fate: PartialKey -> RemoveFate)
    requires KeyedById(records)
    ensures WalkedRecords(files, records, records.Keys, now, fate) == RecordsAfter(files, records, now, fate)
    ensures SweptFiles(
              WalkedFiles(files, records, records.Keys, now, fate), pinned,
              KeptKeys(files, records, records.Keys, now, fate), fate)
         == FilesAfter(files, records, pinned, now, fate)
  {
    var kept, named := RecordsAfter(files, records, now, fate), KeptKeys(files, records, records.Keys, now, fate);
    forall k ensures k in named <==> Named(kept, k) {
      if Named(kept, k) { assert PathOf(records[k.id]) == k; }
    }
    var walked := WalkedFiles(files, records, records.Keys, now, fate);
    forall k | k in files ensures k in walked <==> WalkLeaves(records, now, fate, k) {}
    forall k | k in walked ensures walked[k] == WalkedFile(records, now, k, files[k]) {}
  }

  /**
   * The reconciliation at open: nothing answered where an act that must not fail failed, else the figures of what it
   * did. Whatever fails and wherever it ends, no hash's file was lost at any moment, and every partial left standing
   * is durable as it stands.
   */
  method Reconcile(dir: PartialDir, u: UploadRecords, pinned: seq<string>, now: U64, fate: ReconcileFate)
    returns (did: Option<Tally>)
    requires dir.Valid() && u.Valid()
    modifies dir`disk, dir`files, dir`trail, u, u.log
    ensures dir.Valid() && u.Valid()
    ensures did.Some? ==>
              && dir.files == FilesAfter(old(dir.files), old(u.records), pinned, now, fate.removes)
              && u.records == RecordsAfter(old(dir.files), old(u.records), now, fate.removes)
    ensures did.Some? && Reconciled(old(dir.files), old(u.records), pinned, now) ==> did.value == NothingDone
    ensures ReconcileOk(fate) && old(u.log.stopped).None? ==> did.Some? && u.log.stopped.None?
  {
    ghost var files, records := dir.files, u.records;
    forall id | id in u.records ensures u.records[id].id == id { u.OffsetsStayInRange(id); }
    WalkThenSweep(files, records, pinned, now, fate.removes);
    var ok, named, tally := Walk(dir, u, now, fate);
    if !ok {
      return None;
    }
    if Reconciled(files, records, pinned, now) { NoOrphans(files, records, pinned, now, fate.removes); }
    ok, tally := Sweep(dir, pinned, named, fate, tally);
    did := if ok then Some(tally) else None;
  }

  lemma NoOrphans(
    files: PartialFiles, records: RecordMap, pinned: seq<string>, now: U64, fate: PartialKey -> RemoveFate)
    requires Reconciled(files, records, pinned, now) && KeyedById(records)
    ensures var walked := WalkedFiles(files, records, records.Keys, now, fate);
            var named := KeptKeys(files, records, records.Keys, now, fate);
            forall i :: 0 <= i < |pinned| ==> Orphans(walked, pinned[i], named) == {}
  {
    var walked := WalkedFiles(files, records, records.Keys, now, fate);
    var named := KeptKeys(files, records, records.Keys, now, fate);
    forall i, k | 0 <= i < |pinned| && k in Orphans(walked, pinned[i], named) ensures false {
      assert Named(records, k);
      assert KeepsRecord(files, records[k.id], now, fate);
    }
  }
}

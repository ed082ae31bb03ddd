/**
 * The store's open over whatever a crash left: the asides swept, the upload records and their partials reconciled, the
 * leases read and both logs compacted, and the root synced before anything is served.
 */
module Opens {
  import opened Wrappers
  import opened Clocks
  import opened LogLines
  import opened Logs
  import opened KeyedLogs
  import opened UploadLogs
  import opened Leases
  import opened BlobDisks
  import opened PartialPaths
  import opened Partials
  import opened Finishes
  import opened Instants
  import opened Stores
  import opened Streams

  /** How each act of an open goes. */
  datatype OpenFate = OpenFate(
    unlinks: (string, Name) -> bool, reconcile: ReconcileFate, leases: CompactFate, uploads: CompactFate,
    rootSyncOk: bool)

  /** Every act the open must not fail goes through; any removal, and the sync after it, may be refused. */
  ghost predicate OpenOk(fate: OpenFate) {
    ReconcileOk(fate.reconcile) && CompactOk(fate.leases) && CompactOk(fate.uploads) && fate.rootSyncOk
  }

  // ---------------------------------------------------------------- the asides

  function AsidesIn(dir: Dir): set<AsideName> {
    set n: AsideName | n in dir.live
  }

  /** One directory's asides removed, and what went synced; one that will not go is left, and the sweep goes on. */
  method SweepDirectoryAsides(dir: PartialDir, d: string, fate: OpenFate)
    requires dir.Valid() && d in dir.disk.dirs
    modifies dir`disk, dir`files, dir`trail
    ensures dir.Valid() && dir.files == old(dir.files)
    ensures forall e :: e in dir.disk.dirs && e != d ==> dir.disk.dirs[e] == old(dir.disk).dirs[e]
    ensures dir.disk.dirs[d].live.Keys ==
              (set n | n in old(dir.disk).dirs[d].live && (n.Aside? ==> !fate.unlinks(d, n)))
  {
    ghost var was := dir.disk;
    var rest, went := AsidesIn(dir.disk.dirs[d]), false;
    while rest != {}
      invariant dir.Valid() && dir.files == old(dir.files) && d in dir.disk.dirs
      invariant forall e :: e in dir.disk.dirs && e != d ==> dir.disk.dirs[e] == was.dirs[e]
      invariant forall n :: n in rest ==> n in dir.disk.dirs[d].live
      invariant forall n :: n in dir.disk.dirs[d].live <==>
                  n in was.dirs[d].live && (n.Aside? && n !in rest ==> !fate.unlinks(d, n))
      decreases |rest|
    {
      var n :| n in rest;
      rest := rest - {n};
      if fate.unlinks(d, n) {
        dir.UnlinkAside(d, n);
        went := true;
      }
    }
    if went && fate.reconcile.syncs(d) {
      dir.SyncDirectory(d);
    }
  }

  /** Every designation directory swept: the asides left are those the volume would not remove. */
  method SweepAsides(dir: PartialDir, fate: OpenFate) returns (ok: bool)
    requires dir.Valid()
    modifies dir
    ensures dir.Valid() && dir.files == old(dir.files)
    ensures ok ==> AllSwept(dir.asides, fate)
    ensures ok <==> forall d :: d in old(dir.disk).dirs ==> fate.reconcile.lists(d)
  {
    ghost var all := dir.disk.dirs.Keys;
    var rest := dir.disk.dirs.Keys;
    while rest != {}
      invariant dir.Valid() && dir.files == old(dir.files) && dir.disk.dirs.Keys == all && rest <= all
      invariant forall d :: d in all - rest ==> fate.reconcile.lists(d)
      invariant forall d, n: AsideName :: d !in rest && AsideStands(dir.disk, d, n) ==> !fate.unlinks(d, n)
      decreases |rest|
    {
      var d :| d in rest;
      if !fate.reconcile.lists(d) {
        return false;
      }
      SweepDirectoryAsides(dir, d, fate);
      rest := rest - {d};
    }
    dir.Swept(AllAsides(dir.disk));
    return true;
  }

  /** The asides that stand are those the volume would not remove. */
  ghost predicate OnlyRefusedAsides(k: BlobDisk, fate: OpenFate) {
    forall d, n: AsideName :: AsideStands(k, d, n) ==> !fate.unlinks(d, n)
  }

  lemma SweptAreGone(k: BlobDisk, asides: set<(string, AsideName)>, fate: OpenFate)
    requires NoOtherAsides(k, asides) && AllSwept(asides, fate)
    ensures OnlyRefusedAsides(k, fate)
  {
  }

  /** Every aside that may still stand is one of those. */
  ghost predicate AllSwept(asides: set<(string, AsideName)>, fate: OpenFate) {
    forall a :: a in asides ==> !fate.unlinks(a.0, a.1)
  }

  // ---------------------------------------------------------------- the leases

  /** The hashes of the live leases whose file what the crash left does not hold. */
  function LostTo(held: LeaseTable, left: Left, time: U64, hash: Bytes -> string): Hashes {
    set key | key in held && Live(held[key], time) && !FileLeft(left, held[key], hash)
      :: (held[key].designation, held[key].hex)
  }

  /** What a crash left holds a live lease's file exactly where the name, over what it left, is certain. */
  ghost predicate FilesTell(k: BlobDisk, left: Left, held: LeaseTable, time: U64, hash: Bytes -> string) {
    forall key {:trigger held[key]} :: key in held && Live(held[key], time) ==>
      (FileLeft(left, held[key], hash) <==> !MayBeNameless(k, held[key].designation, held[key].hex))
  }

  /**
   * Of the leases read and kept past the horizon, every live one names only whole files of its bytes over what the
   * crash left, and lacks one exactly on a hash lost; each of those hashes was out before the crash.
   */
  lemma ReadLeasesStand(s: Store, left: Left, found: Bytes, time: U64)
    requires s.Valid() && s.now <= time && MayLeaveByName(s.disk, left) && found in Outcomes(s.leases.log.disk)
    ensures var read := Fold(Reading(found, s.leases.c.isObject), s.leases.c);
            var held, lost := Unlapsed(read, s.leases.horizon, time), LostTo(read, left, time, s.hash);
            && AllCovered(OpenedOver(s.disk, left), LiveLeases(held, {}, time), lost, s.hash)
            && lost <= s.Out() && lost == LostTo(held, left, time, s.hash)
            && FilesTell(OpenedOver(s.disk, left), left, held, time, s.hash)
  {
    var read := Fold(Reading(found, s.leases.c.isObject), s.leases.c);
    FoldIsValid(Reading(found, s.leases.c.isObject), s.leases.c);
    DropKeepsLive(read, s.leases.horizon, left, time, s.hash);
    forall key | key in read && Live(read[key], time)
      ensures var l := read[key];
              && Covered(OpenedOver(s.disk, left), l, LostTo(read, left, time, s.hash), s.hash)
              && (FileLeft(left, l, s.hash) || (l.designation, l.hex) in s.Out())
              && (FileLeft(left, l, s.hash) <==> !MayBeNameless(OpenedOver(s.disk, left), l.designation, l.hex))
    {
      assert s.leases.c.valid(key, read[key]);
      ReadLeaseStands(s, left, found, read[key]);
    }
  }

  lemma ReadLeaseStands(s: Store, left: Left, found: Bytes, l: Lease)
    requires s.Valid() && MayLeaveByName(s.disk, left) && found in Outcomes(s.leases.log.disk) && Live(l, s.now)
    requires ReadsLease(Reading(found, s.leases.c.isObject), l, s.leases.c)
    ensures GoodWhereNamed(OpenedOver(s.disk, left), l.designation, l.hex, l.size, s.hash)
    ensures FileLeft(left, l, s.hash) <==> !MayBeNameless(OpenedOver(s.disk, left), l.designation, l.hex)
    ensures FileLeft(left, l, s.hash) || (l.designation, l.hex) in s.Out()
  {
    s.ReadIsKnown(l);
    CrashKeepsGood(s.disk, left, l.designation, l.hex, l.size, s.hash);
  }

  /** The horizon drops no live lease. */
  lemma DropKeepsLive(t: LeaseTable, horizon: U64, left: Left, time: U64, hash: Bytes -> string)
    ensures LiveLeases(Unlapsed(t, horizon, time), {}, time) == LiveLeases(t, {}, time)
    ensures LostTo(Unlapsed(t, horizon, time), left, time, hash) == LostTo(t, left, time, hash)
  {
    var part := Unlapsed(t, horizon, time);
    assert forall key :: key in t && Live(t[key], time) ==> key in part && part[key] == t[key];
  }

  /**
   * The lease log opened over what a crash left of it, what the horizon has passed dropped, the log rewritten to the
   * rest.
   */
  method OpenLeases(l: LeaseLog, found: Bytes, time: U64, fate: CompactFate) returns (ok: bool, leases: LeaseLog)
    requires l.Valid() && found in Outcomes(l.log.disk)
    ensures leases.Valid() && leases.offered == {} && leases.droppedAt == time && fresh(leases.log)
    ensures leases.leases.byHash == Unlapsed(Fold(Reading(found, l.c.isObject), l.c), l.horizon, time)
    ensures ok ==> leases.log.stopped.None? && HoldsExactly(leases.log.promise.held, leases.leases.byHash, leases.c)
    ensures CompactOk(fate) ==> ok
  {
    var log := CrashThenOpen(l.log, found);
    var values, _ := WholeLines(ReadLines(found).lines, l.c.isObject);
    leases := new LeaseLog(l.c, log, values, l.horizon);
    var _ := leases.DropPastHorizon(time);
    ok := CompactOpened(leases, fate);
  }

  /** The open's rewrite of a log: one that fails, before its rename or past it, fails the open. */
  method CompactOpened(leases: LeaseLog, fate: CompactFate) returns (ok: bool)
    requires leases.Valid() && leases.offered == {}
    modifies leases`gone, leases`offered, leases.log
    ensures leases.Valid() && leases.offered == {} && leases.droppedAt == old(leases.droppedAt)
    ensures ok ==> leases.log.stopped.None? && HoldsExactly(leases.log.promise.held, leases.leases.byHash, leases.c)
    ensures CompactOk(fate) ==> ok
  {
    var keys := KeysOf(leases.leases.byHash);
    var r := leases.Compact(keys, fate);
    ok := r.LeftAsIs? || r.Compacted?;
  }

  /** The leases' keys, each once, in some order. */
  method KeysOf(t: LeaseTable) returns (keys: seq<LeaseKey>)
    ensures |keys| == |t| && forall key :: key in keys <==> key in t
  {
    keys := [];
    var rest := t.Keys;
    while rest != {}
      invariant rest <= t.Keys && |keys| + |rest| == |t|
      invariant forall key :: key in t <==> key in keys || key in rest
      decreases |rest|
    {
      var key :| key in rest;
      rest := rest - {key};
      keys := keys + [key];
    }
  }

  // ---------------------------------------------------------------- the open

  /** The upload records an open holds, and the files it leaves at the partials' paths, over what a crash left. */
  ghost predicate Reopened(t: Store, left: Left, records: RecordMap, pinned: seq<string>, time: U64, fate: OpenFate)
    reads t, t.uploads
  {
    && t.uploads.records == RecordsAfter(PartialsIn(left), records, time, fate.reconcile.removes)
    && Shows(t.disk, FilesAfter(PartialsIn(left), records, pinned, time, fate.reconcile.removes))
    && PartialsSettled(t.disk)
    && OnlyRefusedAsides(t.disk, fate)
  }

  /** The disk as the open finds it: what the crash left, durable. */
  method Find(k: BlobDisk, left: Left) returns (dir: PartialDir)
    requires GoodDisk(k) && MayLeave(k, left)
    ensures fresh(dir) && dir.Valid() && dir.start == OpenedOver(k, left) && dir.files == PartialsIn(left)
  {
    OpenedIsGood(k, left);
    OpenedShows(k, left);
    dir := new PartialDir(OpenedOver(k, left), PartialsIn(left));
  }

  lemma ReopenedOver(
    t: Store, dir: PartialDir, left: Left, records: RecordMap, pinned: seq<string>, time: U64, fate: OpenFate)
    requires t.disk == dir.disk && dir.Valid() && AllSwept(dir.asides, fate)
    requires dir.files == FilesAfter(PartialsIn(left), records, pinned, time, fate.reconcile.removes)
    requires t.uploads.records == RecordsAfter(PartialsIn(left), records, time, fate.reconcile.removes)
    ensures Reopened(t, left, records, pinned, time, fate)
  {
    SweptAreGone(dir.disk, dir.asides, fate);
  }

  /** What frees room first: the asides, then the uploads and their partials held to each other. */
  method FreeRoom(dir: PartialDir, u: UploadRecords, pinned: seq<string>, time: U64, fate: OpenFate) returns (ok: bool)
    requires dir.Valid() && u.Valid()
    modifies dir, u, u.log
    ensures dir.Valid() && u.Valid()
    ensures ok ==>
              && dir.files == FilesAfter(old(dir.files), old(u.records), pinned, time, fate.reconcile.removes)
              && u.records == RecordsAfter(old(dir.files), old(u.records), time, fate.reconcile.removes)
              && AllSwept(dir.asides, fate)
    ensures ReconcileOk(fate.reconcile) && old(u.log.stopped).None? ==> ok && u.log.stopped.None?
  {
    ok := SweepAsides(dir, fate);
    if ok {
      var did := Reconcile(dir, u, pinned, time, fate.reconcile);
      ok := did.Some?;
    }
  }

  method CompactRecords(u: UploadRecords, fate: CompactFate) returns (ok: bool)
    requires u.Valid()
    modifies u`gone, u`offered, u.log
    ensures u.Valid() && (ok ==> u.log.stopped.None? && HoldsExactly(u.log.promise.held, u.records, u.c))
    ensures CompactOk(fate) ==> ok
  {
    var r := u.Compact(fate);
    ok := r.LeftAsIs? || r.Compacted?;
  }

  /** Room first, and only then what takes it: the records' log rewritten to the records left. */
  method FreeThenCompact(dir: PartialDir, u: UploadRecords, pinned: seq<string>, time: U64, fate: OpenFate)
    returns (ok: bool)
    requires dir.Valid() && u.Valid()
    modifies dir, u, u.log
    ensures dir.Valid() && u.Valid()
    ensures ok ==>
              && dir.files == FilesAfter(old(dir.files), old(u.records), pinned, time, fate.reconcile.removes)
              && u.records == RecordsAfter(old(dir.files), old(u.records), time, fate.reconcile.removes)
              && AllSwept(dir.asides, fate) && u.log.stopped.None?
    ensures OpenOk(fate) && old(u.log.stopped).None? ==> ok
  {
    ok := FreeRoom(dir, u, pinned, time, fate);
    if ok {
      ok := CompactRecords(u, fate.uploads);
      assert dir.Valid();
    }
  }

  /** The records reopened over what a crash left of their log, and held to the partials it left. */
  method OpenUploads(
    u: UploadRecords, k: BlobDisk, left: Left, found: Bytes, pinned: seq<string>, time: U64, fate: OpenFate)
    returns (ok: bool, dir: PartialDir, uploads: UploadRecords)
    requires u.Valid() && found in Outcomes(u.log.disk) && GoodDisk(k) && MayLeave(k, left)
    ensures fresh(dir) && dir.Valid() && dir.start == OpenedOver(k, left)
    ensures fresh(uploads) && fresh(uploads.log) && uploads.Valid()
    ensures ok ==>
              var files, records := PartialsIn(left), Fold(Reading(found, u.log.isObject), u.c);
              && dir.files == FilesAfter(files, records, pinned, time, fate.reconcile.removes)
              && uploads.records == RecordsAfter(files, records, time, fate.reconcile.removes)
              && AllSwept(dir.asides, fate) && uploads.log.stopped.None?
    ensures OpenOk(fate) ==> ok
  {
    uploads := ReopenUploads(u, found);
    dir := Find(k, left);
    ok := FreeThenCompact(dir, uploads, pinned, time, fate);
  }

  /** The root synced, and the store served, the hashes lost carried with it. */
  method Serve(
    hash: Bytes -> string, leases: LeaseLog, uploads: UploadRecords, dir: PartialDir, ghost time: U64,
    ghost lost: Hashes)
    returns (t: Store)
    requires leases.Valid() && uploads.Valid() && leases.log != uploads.log && leases.offered == {}
    requires leases.droppedAt <= time && uploads.log.stopped.None? && NamesAreHex(hash)
    requires dir.Valid() && dir.start.rootDurable == dir.start.dirs.Keys
    requires AllCovered(dir.start, LiveLeases(leases.leases.byHash, {}, time), lost, hash)
    ensures fresh(t) && t.Valid() && t.hash == hash && t.leases == leases && t.uploads == uploads && t.disk == dir.disk
    ensures t.now == time && t.excused == {} && t.lost == lost && t.asideQueue.names == []
    ensures t.disk.rootDurable == t.disk.dirs.Keys == t.rootSynced
    ensures Shows(t.disk, dir.files) && PartialsSettled(t.disk) && NoOtherAsides(t.disk, dir.asides)
  {
    NothingLostCovers(dir.start, dir.disk, LiveLeases(leases.leases.byHash, {}, time), lost, hash);
    SettledHold(dir.disk, uploads.records);
    assert uploads.offered == {};
    t := new Store(hash, leases, uploads, dir.disk, time, lost);
  }

  /** What the served store owes its leases: a durable file for each live one, save on a hash lost, and there none. */
  ghost predicate LeasesServed(t: Store, held: LeaseTable, lost: Hashes)
    reads t, t.leases, t.leases.leases
  {
    && t.leases.leases.byHash == held && t.lost == lost == t.Out()
    && forall key :: key in held && Live(held[key], t.now) ==>
         (held[key].designation, held[key].hex) in lost || StandsFor(t.disk, held[key], t.hash)
  }

  lemma LeasesAreServed(t: Store, dir: PartialDir, left: Left, k: BlobDisk)
    requires t.Valid() && dir.Valid() && t.disk == dir.disk && dir.start == OpenedOver(k, left)
    requires MayLeaveByName(k, left)
    requires t.excused == {} && t.lost == LostTo(t.leases.leases.byHash, left, t.now, t.hash)
    requires FilesTell(dir.start, left, t.leases.leases.byHash, t.now, t.hash)
    ensures LeasesServed(t, t.leases.leases.byHash, t.lost)
  {
    var held := t.leases.leases.byHash;
    forall key | key in held && Live(held[key], t.now)
      ensures (held[key].designation, held[key].hex) in t.lost || StandsFor(t.disk, held[key], t.hash)
    {
      assert held[key] in t.LiveNow();
      assert Covered(t.disk, held[key], t.excused + t.lost, t.hash);
      CoveredStands(t.disk, held[key], t.excused + t.lost, t.hash);
    }
    forall e | e in t.lost ensures MayBeNameless(t.disk, e.0, e.1) {
      NamelessStays(dir, e.0, e.1);
    }
  }

  /** A name the open did not find it does not make. */
  lemma NamelessStays(dir: PartialDir, d: string, hex: string)
    requires dir.Valid() && MayBeNameless(dir.start, d, hex)
    requires dir.start.rootDurable == dir.start.dirs.Keys
    requires forall e :: e in dir.start.dirs ==> dir.start.dirs[e].may == {dir.start.dirs[e].live}
    ensures MayBeNameless(dir.disk, d, hex)
  {
    assert !NamesHash(dir.start, d, hex);
    assert !NamesHash(dir.disk, d, hex);
    if d in dir.disk.dirs { assert WfDir(dir.disk.dirs[d], dir.disk.files); }
  }

  method ServeOver(
    hash: Bytes -> string, leases: LeaseLog, uploads: UploadRecords, dir: PartialDir, ghost left: Left,
    ghost k: BlobDisk, ghost time: U64)
    returns (t: Store)
    requires leases.Valid() && uploads.Valid() && leases.log != uploads.log && leases.offered == {}
    requires leases.droppedAt <= time && uploads.log.stopped.None? && NamesAreHex(hash)
    requires dir.Valid() && MayLeaveByName(k, left) && dir.start == OpenedOver(k, left)
    requires var held := leases.leases.byHash;
             && AllCovered(dir.start, LiveLeases(held, {}, time), LostTo(held, left, time, hash), hash)
             && FilesTell(dir.start, left, held, time, hash)
    ensures fresh(t) && t.Valid() && t.hash == hash && t.leases == leases && t.uploads == uploads && t.disk == dir.disk
    ensures t.now == time && t.excused == {} && t.asideQueue.names == []
    ensures t.disk.rootDurable == t.disk.dirs.Keys == t.rootSynced
    ensures LeasesServed(t, leases.leases.byHash, LostTo(leases.leases.byHash, left, time, hash))
  {
    t := Serve(hash, leases, uploads, dir, time, LostTo(leases.leases.byHash, left, time, hash));
    LeasesAreServed(t, dir, left, k);
  }

  /** Past the uploads: the leases, the root synced, and the store served. */
  method OpenRest(
    s: Store, left: Left, found: Bytes, uploads: UploadRecords, dir: PartialDir, time: U64, fate: OpenFate)
    returns (serving: Option<Store>)
    requires s.Valid() && s.now <= time && MayLeave(s.disk, left) && found in Outcomes(s.leases.log.disk)
    requires uploads.Valid() && uploads.log.stopped.None? && dir.Valid() && dir.start == OpenedOver(s.disk, left)
    ensures serving.Some? ==>
              var t, read := serving.value, Fold(Reading(found, s.leases.c.isObject), s.leases.c);
              && fresh(t) && t.Valid() && t.hash == s.hash && t.now == time
              && t.excused == {} && t.asideQueue.names == []
              && LeasesServed(t, Unlapsed(read, s.leases.horizon, time), LostTo(read, left, time, s.hash))
              && LostTo(read, left, time, s.hash) <= s.Out()
              && t.leases.log.stopped.None? && t.uploads == uploads && t.disk == dir.disk
              && t.disk.rootDurable == t.disk.dirs.Keys == t.rootSynced
    ensures OpenOk(fate) ==> serving.Some?
  {
    MayLeaveIsByName(s.disk, left);
    ReadLeasesStand(s, left, found, time);
    var ok, leases := OpenLeases(s.leases, found, time, fate.leases);
    serving := None;
    if ok && fate.rootSyncOk {
      var t := ServeOver(s.hash, leases, uploads, dir, left, s.disk, time);
      serving := Some(t);
    }
  }

  /** The store that crashed is left as it was. */
  twostate lemma StillValid(s: Store)
    requires old(s.Valid()) && unchanged(s) && unchanged(s.leases) && unchanged(s.leases.log)
    requires unchanged(s.leases.leases) && unchanged(s.uploads) && unchanged(s.uploads.log)
    ensures s.Valid()
  {
  }

  /**
   * A crash at any moment, whatever it left, and the open over it: it serves every live lease it read over its whole
   * and durable file, save those whose file the crash did not leave, each on a hash out before it; every standing
   * upload over a partial of exactly its offset, and nothing else under this build's names; or, where an act it needs
   * fails, it serves nothing.
   */
  method OpenStore(
    s: Store, left: Left, foundLeases: Bytes, foundUploads: Bytes, pinned: seq<string>, time: U64, fate: OpenFate)
    returns (serving: Option<Store>)
    requires s.Valid() && s.now <= time && MayLeave(s.disk, left)
    requires foundLeases in Outcomes(s.leases.log.disk) && foundUploads in Outcomes(s.uploads.log.disk)
    ensures serving.Some? ==>
              var t, read := serving.value, Fold(Reading(foundLeases, s.leases.c.isObject), s.leases.c);
              && fresh(t) && t.Valid() && t.hash == s.hash && t.now == time
              && t.excused == {} && t.asideQueue.names == []
              && LeasesServed(t, Unlapsed(read, s.leases.horizon, time), LostTo(read, left, time, s.hash))
              && LostTo(read, left, time, s.hash) <= s.Out()
              && Reopened(t, left, Fold(Reading(foundUploads, s.uploads.log.isObject), s.uploads.c), pinned, time, fate)
              && t.disk.rootDurable == t.disk.dirs.Keys == t.rootSynced
              && t.leases.log.stopped.None? && t.uploads.log.stopped.None?
    ensures OpenOk(fate) ==> serving.Some?
  {
    var ok, dir, uploads := OpenUploads(s.uploads, s.disk, left, foundUploads, pinned, time, fate);
    if !ok {
      return None;
    }
    StillValid(s);
    serving := OpenRest(s, left, foundLeases, uploads, dir, time, fate);
    if serving.Some? {
      var records := Fold(Reading(foundUploads, s.uploads.log.isObject), s.uploads.c);
      ReopenedOver(serving.value, dir, left, records, pinned, time, fate);
    }
  }

  /** Over what was served a crash strands a lease exactly where it may be read and its file was lost before. */
  lemma ServedStrandsExactly(t: Store, held: LeaseTable, lost: Hashes, l: Lease)
    requires t.Valid() && LeasesServed(t, held, lost) && Live(l, t.now)
    ensures t.MayStrand(l) <==> MayRead(Outcomes(t.leases.log.disk), l, t.leases.c) && (l.designation, l.hex) in lost
  {
    t.StrandsExactly(l);
  }

  /**
   * From a stream's settle to the store served after a crash: where the partial's name stands and the designation's
   * entry in the root is durable, the upload, if it still stands, is served at or past the offset settled, over a
   * durable partial of exactly its record's offset that begins with the bytes settled.
   */
  lemma SettledOffsetIsServed(
    stream: Stream, left: Left, found: Bytes, t: Store, pinned: seq<string>, time: U64, fate: OpenFate)
    requires stream.Valid() && stream.id in stream.store.uploads.records
    requires Entry(stream.store.disk, stream.Path()).Some? && stream.designation in stream.store.disk.rootDurable
    requires MayLeaveByName(stream.store.disk, left) && found in Outcomes(stream.store.uploads.log.disk)
    requires var u := stream.store.uploads;
             Reopened(t, left, Fold(Reading(found, u.log.isObject), u.c), pinned, time, fate)
    ensures var u := stream.store.uploads; stream.id in Fold(Reading(found, u.log.isObject), u.c)
    ensures var u := stream.store.uploads;
            Stands(Fold(Reading(found, u.log.isObject), u.c)[stream.id], time) ==>
              && stream.id in t.uploads.records && t.uploads.records[stream.id].offset >= stream.offset
              && PartialAt(t.disk, stream.Path()).Some?
              && var held := PartialAt(t.disk, stream.Path()).value;
                 && |held| == t.uploads.records[stream.id].offset && stream.handle.hashed[..stream.offset] <= held
                 && PartialDurable(t.disk, stream.Path(), held)
  {
    var u := stream.store.uploads;
    var records := Fold(Reading(found, u.log.isObject), u.c);
    stream.SettledOffsetSurvives(left, found, pinned, time, fate.reconcile.removes);
    if Stands(records[stream.id], time) {
      var files := FilesAfter(PartialsIn(left), records, pinned, time, fate.reconcile.removes);
      assert PartialAt(t.disk, stream.Path()) == Look(files, stream.Path());
    }
  }
}

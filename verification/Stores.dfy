/**
 * The blob store while it serves: finishes one at a time, the pruner's acts beside them, both logs, and the disk.
 * What a crash at any instant leaves is judged by the leases the next open reads.
 */
module Stores {
  import opened Wrappers
  import opened Clocks
  import opened BlobNames
  import opened LogLines
  import opened Logs
  import opened KeyedLogs
  import opened UploadLogs
  import opened Leases
  import opened BlobDisks
  import opened PartialPaths
  import opened Partials
  import opened Finishes
  import opened Instants

  /** Every name the store makes of a hash is one the name check admits. */
  ghost predicate NamesAreHex(hash: Bytes -> string) {
    forall b :: HexOk(hash(b))
  }

  /** How each act of a finish goes, in its order. */
  datatype FinishFate = FinishFate(
    syncOk: bool, linkOk: bool, renameOk: bool, dirSyncOk: bool, rootSyncOk: bool, lease: AppendFate,
    retire: AppendFate)

  datatype FinishResult = Finished(hex: string) | NoSuchUpload | RefusedAhead | FailedAt(step: Step)

  datatype Step = PartialSync | LinkAside | Rename | DirSync | RootSync | LeaseSync | RecordRetire

  /** The steps a finish makes before its rename. */
  predicate BeforeRename(step: Step) {
    step.PartialSync? || step.LinkAside? || step.Rename?
  }

  /** The append's whole line lands, and neither its sync nor its cut back goes through. */
  predicate LeftWhole(fate: AppendFate) {
    fate.statOk && fate.writeOk && !fate.syncOk && !fate.cutOk
  }

  /** Every act of the finish succeeds. */
  predicate AllOk(fate: FinishFate) {
    && fate.syncOk && fate.linkOk && fate.renameOk && fate.dirSyncOk && fate.rootSyncOk
    && AppendOk(fate.lease) && AppendOk(fate.retire)
  }

  /** How each act of a partial's creation goes: its directory, the file, the file's sync and the directory's. */
  datatype CreateFate = CreateFate(dirOk: bool, fileOk: bool, fileSyncOk: bool, dirSyncOk: bool)

  /**
   * What an expiry that failed leaves: the record standing, or the record gone and its retirement's line not written.
   */
  datatype ExpiryFailed = Removal | Retirement(freed: nat)

  /** The asides the deferred unlink owes, in order: queued only once their finish answers. */
  class AsideQueue {
    var names: seq<(string, AsideName)>

    constructor ()
      ensures names == []
    {
      names := [];
    }
  }

  function Lookup(records: RecordMap, id: UploadId): Option<UploadRecord> {
    if id in records then Some(records[id]) else None
  }

  type UploadOffers = set<(UploadId, UploadRecord)>

  /** No record but this one moves, and no line of another is left whole. */
  ghost predicate OthersKept(
    was: RecordMap, wasOffered: UploadOffers, records: RecordMap, offered: UploadOffers, id: UploadId)
  {
    && (forall o :: o != id ==> Lookup(records, o) == Lookup(was, o))
    && (forall p :: p in offered && p.0 != id ==> p in wasOffered)
  }

  predicate NameKeptOrGone(k: BlobDisk, after: BlobDisk, p: PartialKey) {
    Entry(after, p) == Entry(k, p) || Entry(after, p).None?
  }

  predicate AsideUnnamed(k: BlobDisk, d: string, hex: string, serial: nat) {
    NameAt(k, d, Hex(hex)).Some? ==> NameAt(k, d, Aside(hex, serial)).None?
  }

  class Store {
    const hash: Bytes -> string
    const leases: LeaseLog
    const uploads: UploadRecords
    var disk: BlobDisk
    var rootSynced: set<string>
    var asideSerial: nat
    const asideQueue: AsideQueue
    ghost var now: U64
    /**
     * Hashes whose file the pruner took while something a crash might leave of the lease log read a live lease on
     * them.
     */
    ghost var excused: Hashes
    /** Hashes on which the open read a live lease over no file, and no finish has durably put one since. */
    ghost var lost: Hashes
    ghost var history: seq<Instant>

    ghost function LiveNow(): set<Lease>
      reads this`now, leases`offered, leases.leases`byHash
    {
      LiveLeases(leases.leases.byHash, leases.offered, now)
    }

    /** The hashes a crash may now leave with no file, though a live lease may be read on them. */
    ghost function Out(): Hashes
      reads this`disk, this`excused, this`lost
    {
      set e | e in excused + lost && MayBeNameless(disk, e.0, e.1)
    }

    ghost function Present(): Instant
      reads this`disk, this`excused, this`lost, this`now, leases.log
      requires WfDisk(leases.log.disk)
    {
      Instant(disk, Outcomes(leases.log.disk), excused + lost, now)
    }

    /** A hash is excused only over a lease a failed append left in the log, and over none held. */
    ghost predicate ExcusesFit()
      reads this`excused, this`now, leases`offered, leases.leases`byHash
    {
      excused == {} || (leases.offered != {} && NoneHeldOn(leases.leases.byHash, excused, now))
    }

    /** The leases, and a file for every one of them, now and at every instant past. */
    ghost predicate LeasesStand()
      reads this, leases, leases.log, leases.leases
    {
      && leases.Valid() && NamesAreHex(hash) && leases.droppedAt <= now && ExcusesFit()
      && AllCovered(disk, LiveNow(), excused + lost, hash) && AllSound(history, leases.c, hash)
    }

    /** The upload records, each over a partial durable to its offset. */
    ghost predicate UploadsStand()
      reads this`disk, uploads, uploads.log
    {
      uploads.Valid() && RecordsHeld(disk, uploads.records) && OffersFit(uploads.records, uploads.offered)
    }

    ghost predicate Valid()
      reads this, leases, leases.log, leases.leases, uploads, uploads.log
    {
      && LeasesStand() && UploadsStand() && leases.log != uploads.log
      && GoodDisk(disk) && rootSynced <= disk.rootDurable
    }

    /** What an open serves: every directory's entry durable by its own root sync, no aside queued. */
    constructor (
      hash: Bytes -> string, leases: LeaseLog, uploads: UploadRecords, disk: BlobDisk, ghost now: U64,
      ghost lost: Hashes)
      requires leases.Valid() && uploads.Valid() && leases.log != uploads.log && leases.droppedAt <= now
      requires NamesAreHex(hash) && GoodDisk(disk) && disk.rootDurable == disk.dirs.Keys
      requires AllCovered(disk, LiveLeases(leases.leases.byHash, leases.offered, now), lost, hash)
      requires RecordsHeld(disk, uploads.records) && OffersFit(uploads.records, uploads.offered)
      ensures Valid() && this.hash == hash && this.leases == leases && this.uploads == uploads && this.disk == disk
      ensures excused == {} && this.lost == lost && this.now == now && history == []
      ensures asideQueue.names == [] && fresh(asideQueue) && asideSerial == 0 && rootSynced == disk.dirs.Keys
    {
      this.hash, this.leases, this.uploads, this.disk := hash, leases, uploads, disk;
      this.rootSynced, this.asideSerial := disk.dirs.Keys, 0;
      this.asideQueue := new AsideQueue();
      this.now, this.excused, this.lost, this.history := now, {}, lost, [];
      new;
      assert excused + lost == lost;
    }

    // -------------------------------------------------------------- one act on the disk

    lemma PresentIsSound(k: BlobDisk)
      requires leases.Valid() && leases.droppedAt <= now && AllCovered(k, LiveNow(), excused + lost, hash)
      ensures Sound(Instant(k, Outcomes(leases.log.disk), excused + lost, now), leases.c, hash)
    {
      leases.CrashReadsKnown();
      KnownIsSound(
        Instant(k, Outcomes(leases.log.disk), excused + lost, now), leases.c, hash,
        leases.leases.byHash, leases.offered, leases.horizon, leases.droppedAt);
    }

    /** One act on the disk, the moment after it recorded. */
    method Act(k: BlobDisk)
      requires Valid() && GoodDisk(k) && rootSynced <= k.rootDurable
      requires AllCovered(k, LiveNow(), excused + lost, hash) && RecordsHeld(k, uploads.records)
      modifies this`disk, this`history
      ensures Valid() && disk == k && history == old(history) + [Present()]
    {
      ghost var i := Instant(k, Outcomes(leases.log.disk), excused + lost, now);
      PresentIsSound(k);
      SoundOn(history, [i], leases.c, hash);
      disk := k;
      history := history + [i];
    }

    /** One act that loses no hash its file, and of the partials touches only those spared. */
    method SafeAct(k: BlobDisk, ghost spared: set<PartialKey>)
      requires Valid() && LosesNothing(disk, k) && KeepsPartials(disk, k, spared)
      requires forall id :: id in uploads.records && PathOf(uploads.records[id]) in spared ==>
                 RecordHeld(k, uploads.records[id])
      modifies this`disk, this`history
      ensures Valid() && disk == k && history == old(history) + [Present()]
    {
      NothingLostCovers(disk, k, LiveNow(), excused + lost, hash);
      RecordsStayHeld(disk, k, spared, uploads.records);
      Act(k);
    }

    /** The clock, which only goes on. */
    ghost method Tick(later: U64)
      requires Valid() && now <= later
      modifies this`now
      ensures Valid() && now == later
    {
      ghost var was := LiveNow();
      now := later;
      FewerCovered(disk, was, LiveNow(), excused + lost, excused + lost, hash);
    }

    // -------------------------------------------------------------- the finish's acts

    /** A partial's own file written, cut or synced: the one act of a stream on the disk. */
    method ChangeFile(p: PartialKey, i: nat, f: FileDisk)
      requires Valid() && OnlyIts(disk, p, i) && f.live in f.may
      requires forall id :: id in uploads.records && PathOf(uploads.records[id]) == p && Entry(disk, p) == Some(i) ==>
                 uploads.records[id].offset <= |f.live| ==> DurableTo(f, uploads.records[id].offset)
      modifies this`disk, this`history
      ensures Valid() && disk == WithFile(old(disk), i, f) && KeepsPartials(old(disk), disk, {p})
      ensures history == old(history) + [Present()]
    {
      FileKeepsPartials(disk, p, i, f);
      OwnFileLosesNothing(disk, p, i, f);
      forall id | id in uploads.records && PathOf(uploads.records[id]) == p
        ensures RecordHeld(WithFile(disk, i, f), uploads.records[id])
      {
        assert RecordHeld(disk, uploads.records[id]);
      }
      SafeAct(WithFile(disk, i, f), {p});
    }

    /**
     * The sync of a partial's own file, which holds every record over it as it was held; over a file in doubt it
     * answers, and makes nothing durable.
     */
    method SyncPartial(p: PartialKey, i: nat)
      requires Valid() && OnlyIts(disk, p, i)
      modifies this`disk, this`history
      ensures Valid() && disk == SyncedFile(old(disk), i)
      ensures KeepsPartials(old(disk), disk, {p}) && history == old(history) + [Present()]
    {
      if i in disk.doubted {
        SafeAct(disk, {});
      } else {
        ChangeFile(p, i, Synced(disk.files[i]));
      }
    }

    /** The sync that fails: what the file held past what was durable is in doubt from then on. */
    method FailSync(p: PartialKey, i: nat)
      requires Valid() && OnlyIts(disk, p, i)
      modifies this`disk, this`history
      ensures Valid() && disk == FailedSync(old(disk), i)
      ensures KeepsPartials(old(disk), disk, {p}) && history == old(history) + [Present()]
    {
      FailedSyncLosesNothing(disk, i);
      FailedSyncKeepsPartials(disk, p, i);
      forall id | id in uploads.records && PathOf(uploads.records[id]) == p
        ensures RecordHeld(FailedSync(disk, i), uploads.records[id])
      {
        assert RecordHeld(disk, uploads.records[id]);
      }
      SafeAct(FailedSync(disk, i), {p});
    }

    method LinkReplaced(d: string, hex: string) returns (aside: AsideName)
      requires Valid() && d in disk.dirs && Hex(hex) in disk.dirs[d].live
      modifies this`disk, this`history, this`asideSerial
      ensures Valid() && asideSerial == old(asideSerial) + 1 && aside == Aside(hex, old(asideSerial))
      ensures var was := old(disk).dirs[d];
              disk == WithDir(old(disk), d, Changed(was, Linked(was.live, hex, old(asideSerial))))
      ensures KeepsPartials(old(disk), disk, {}) && history == old(history) + [Present()]
    {
      LinkLosesNothing(disk, d, hex, asideSerial);
      LinkKeepsPartials(disk, d, hex, asideSerial);
      aside := Aside(hex, asideSerial);
      SafeAct(WithDir(disk, d, Changed(disk.dirs[d], Linked(disk.dirs[d].live, hex, asideSerial))), {});
      asideSerial := asideSerial + 1;
    }

    /** The rename: sound for every lease on the hash where those are of these bytes' size. */
    method Install(d: string, id: nat, ghost bytes: Bytes, hex: string)
      requires Valid() && d in disk.dirs && Partial(id) in disk.dirs[d].live && hex == hash(bytes)
      requires disk.dirs[d].live[Partial(id)] in disk.files
      requires disk.files[disk.dirs[d].live[Partial(id)]] == FileDisk(bytes, {bytes})
      requires SizesAgree(LiveNow(), d, hex, |bytes|)
      modifies this`disk, this`history
      ensures Valid() && history == old(history) + [Present()]
      ensures var was := old(disk).dirs[d]; disk == WithDir(old(disk), d, Changed(was, Installed(was.live, id, hex)))
      ensures KeepsPartials(old(disk), disk, {PartialKey(d, id)})
    {
      ghost var k := WithDir(disk, d, Changed(disk.dirs[d], Installed(disk.dirs[d].live, id, hex)));
      InstalledStands(disk, d, id, LiveNow(), excused + lost, bytes, hash);
      InstalledShape(disk, d, id, hex);
      InstallKeepsPartials(disk, d, id, hex);
      RecordsStayHeld(disk, k, {PartialKey(d, id)}, uploads.records);
      Act(WithDir(disk, d, Changed(disk.dirs[d], Installed(disk.dirs[d].live, id, hex))));
    }

    method SyncDirectory(d: string)
      requires Valid() && d in disk.dirs
      modifies this`disk, this`history
      ensures Valid() && disk == DirSyncedDisk(old(disk), d) && history == old(history) + [Present()]
      ensures KeepsPartials(old(disk), disk, {}) && SameBeside(old(disk), disk)
    {
      SyncLosesNothing(disk, d);
      SyncsKeepPartials(disk, d);
      SafeAct(DirSyncedDisk(disk, d), {});
    }

    /**
     * The root's sync, owed once by a directory no root sync since the open has made durable; entered once it
     * succeeded.
     */
    method SyncRoot(d: string)
      requires Valid() && d in disk.dirs
      modifies this`disk, this`history, this`rootSynced
      ensures Valid() && disk == RootSyncedDisk(old(disk)) && rootSynced == old(rootSynced) + {d}
      ensures history == old(history) + [Present()] && KeepsPartials(old(disk), disk, {})
    {
      SyncLosesNothing(disk, d);
      SyncsKeepPartials(disk, d);
      SafeAct(RootSyncedDisk(disk), {});
      rootSynced := rootSynced + {d};
    }

    // -------------------------------------------------------------- the finish

    /**
     * At every instant since the history stood at `n` and the disk at `was`: every file the directory held kept a
     * name, the hash was never without one, and every other upload's partial kept its name, its file and its bytes.
     */
    ghost predicate KeptSince(n: nat, was: BlobDisk, d: string, id: nat, hex: string)
      reads this`disk, this`history
    {
      && n <= |history| && Spares(was, disk, d, id, hex)
      && forall i {:trigger Spares(was, history[i].disk, d, id, hex)} ::
           n <= i < |history| ==> Spares(was, history[i].disk, d, id, hex)
    }

    /**
     * What a finish takes of the stream it consumes: the partial's own file and, where its name still stands, the
     * stream's bytes in it, of the declared length; and that no live lease on their hash is of another size.
     */
    ghost predicate MayFinish(p: PartialKey, i: nat, hex: string, length: nat)
      reads this`disk, this`now, leases`offered, leases.leases`byHash
    {
      && p.designation in disk.dirs && OnlyIts(disk, p, i)
      && (Entry(disk, p).Some? ==>
            && Entry(disk, p) == Some(i) && |disk.files[i].live| == length && hash(disk.files[i].live) == hex
            && i !in disk.doubted
            && SizesAgree(LiveNow(), p.designation, hex, length))
    }

    /** The partial synced, the replaced file linked aside, and the rename over the hash's name. */
    method PutInPlace(d: string, id: nat, i: nat, hex: string, length: nat, fate: FinishFate, ghost n: nat)
      returns (failed: Option<Step>, aside: Option<AsideName>)
      requires Valid() && MayFinish(PartialKey(d, id), i, hex, length) && n == |history|
      modifies this`disk, this`history, this`asideSerial
      ensures Valid() && d in disk.dirs && KeptSince(n, old(disk), d, id, hex)
      ensures failed.Some? ==>
                BeforeRename(failed.value) && Entry(disk, PartialKey(d, id)) == old(Entry(disk, PartialKey(d, id)))
      ensures failed.None? ==>
                && Hex(hex) in disk.dirs[d].live && disk.dirs[d].live[Hex(hex)] == i && i in disk.files
                && GoodFile(disk.files[i], hex, length, hash)
                && aside == if Hex(hex) in old(disk).dirs[d].live then Some(Aside(hex, old(asideSerial))) else None
      ensures old(PartialNamed(d, id)) && fate.syncOk && fate.linkOk && fate.renameOk && old(AsideFree(d, hex)) ==>
                failed.None?
    {
      ghost var was := disk;
      aside := None;
      SparesItself(disk, d, id, hex);
      SyncItsPartial(d, id, i, hex, fate.syncOk, n);
      if !fate.syncOk {
        return Some(PartialSync), aside;
      }
      var linked;
      linked, aside := LinkIfHeld(d, id, hex, fate, n, was);
      if !linked {
        return Some(LinkAside), aside;
      }
      if !fate.renameOk || Partial(id) !in disk.dirs[d].live {
        return Some(Rename), aside;
      }
      failed := None;
      RenameOver(d, id, i, was.files[i].live, hex, n, was);
    }

    method SyncItsPartial(d: string, id: nat, i: nat, ghost hex: string, ok: bool, ghost n: nat)
      requires Valid() && d in disk.dirs && OnlyIts(disk, PartialKey(d, id), i) && n == |history|
      modifies this`disk, this`history
      ensures Valid() && KeptSince(n, old(disk), d, id, hex)
      ensures disk == if ok then SyncedFile(old(disk), i) else FailedSync(old(disk), i)
    {
      ghost var was := disk;
      SparesItself(was, d, id, hex);
      if ok {
        SyncPartial(PartialKey(d, id), i);
      } else {
        FailSync(PartialKey(d, id), i);
      }
      SparesOn(was, was, disk, d, id, hex, {PartialKey(d, id)});
    }

    method RenameOver(d: string, id: nat, i: nat, ghost bytes: Bytes, hex: string, ghost n: nat, ghost was: BlobDisk)
      requires Valid() && KeptSince(n, was, d, id, hex) && Entry(disk, PartialKey(d, id)) == Some(i) && i in disk.files
      requires disk.files[i] == FileDisk(bytes, {bytes}) && hex == hash(bytes) && SizesAgree(LiveNow(), d, hex, |bytes|)
      requires FinishKeeps(was.dirs[d].live, Installed(disk.dirs[d].live, id, hex), id, hex)
      modifies this`disk, this`history
      ensures Valid() && KeptSince(n, was, d, id, hex)
      ensures Hex(hex) in disk.dirs[d].live && disk.dirs[d].live[Hex(hex)] == i && i in disk.files
      ensures GoodFile(disk.files[i], hex, |bytes|, hash)
    {
      ghost var k := disk;
      Install(d, id, bytes, hex);
      SparesNamed(was, k, disk, d, id, hex, {PartialKey(d, id)});
    }

    /** No aside left by an earlier finish or an earlier process has the name this one's link would take. */
    ghost predicate AsideFree(d: string, hex: string)
      reads this`disk, this`asideSerial
    {
      AsideUnnamed(disk, d, hex, asideSerial)
    }

    /** Where the hash already has a file, that file linked aside, so the rename frees nothing. */
    method LinkIfHeld(d: string, id: nat, hex: string, fate: FinishFate, ghost n: nat, ghost was: BlobDisk)
      returns (ok: bool, aside: Option<AsideName>)
      requires Valid() && d in disk.dirs && KeptSince(n, was, d, id, hex) && was.dirs[d].live == disk.dirs[d].live
      modifies this`disk, this`history, this`asideSerial
      ensures Valid() && KeptSince(n, was, d, id, hex) && d in disk.dirs && disk.files == old(disk.files)
      ensures Entry(disk, PartialKey(d, id)) == old(Entry(disk, PartialKey(d, id)))
      ensures ok && Partial(id) in disk.dirs[d].live ==>
                FinishKeeps(was.dirs[d].live, Installed(disk.dirs[d].live, id, hex), id, hex)
      ensures ok ==> aside == if Hex(hex) in old(disk.dirs[d].live) then Some(Aside(hex, old(asideSerial))) else None
      ensures asideSerial == old(asideSerial) + if Hex(hex) in old(disk.dirs[d].live) then 1 else 0
      ensures fate.linkOk && old(AsideFree(d, hex)) ==> ok
    {
      if Partial(id) in disk.dirs[d].live && AsideFree(d, hex) {
        LinkThenInstallKeeps(disk.dirs[d].live, id, hex, asideSerial);
      }
      if Hex(hex) !in disk.dirs[d].live {
        return true, None;
      }
      if !fate.linkOk || Aside(hex, asideSerial) in disk.dirs[d].live {
        asideSerial := asideSerial + 1;
        return false, None;
      }
      var name := LinkHeld(d, id, hex, n, was);
      return true, Some(name);
    }

    method LinkHeld(d: string, ghost id: nat, hex: string, ghost n: nat, ghost was: BlobDisk) returns (aside: AsideName)
      requires Valid() && d in disk.dirs && KeptSince(n, was, d, id, hex) && was.dirs[d].live == disk.dirs[d].live
      requires Hex(hex) in disk.dirs[d].live && Aside(hex, asideSerial) !in disk.dirs[d].live
      modifies this`disk, this`history, this`asideSerial
      ensures Valid() && KeptSince(n, was, d, id, hex) && asideSerial == old(asideSerial) + 1
      ensures aside == Aside(hex, old(asideSerial)) && disk.files == old(disk.files) && d in disk.dirs
      ensures disk.dirs[d].live == Linked(old(disk).dirs[d].live, hex, old(asideSerial))
    {
      ghost var k := disk;
      LinkKeeps(disk.dirs[d].live, id, hex, asideSerial);
      aside := LinkReplaced(d, hex);
      SparesNamed(was, k, disk, d, id, hex, {});
    }

    /** The designation directory synced, then the root where no sync since the open has made its entry durable. */
    method MakeDurable(
      d: string, id: nat, hex: string, length: nat, fate: FinishFate, ghost n: nat, ghost was: BlobDisk)
      returns (failed: Option<Step>)
      requires Valid() && d in disk.dirs && KeptSince(n, was, d, id, hex)
      requires Hex(hex) in disk.dirs[d].live && disk.dirs[d].live[Hex(hex)] in disk.files
      requires GoodFile(disk.files[disk.dirs[d].live[Hex(hex)]], hex, length, hash)
      modifies this`disk, this`history, this`rootSynced
      ensures Valid() && KeptSince(n, was, d, id, hex)
      ensures failed.None? ==> Durably(disk, d, hex, length, hash)
      ensures failed.Some? ==> failed.value.DirSync? || failed.value.RootSync?
      ensures fate.dirSyncOk && fate.rootSyncOk ==> failed.None?
    {
      if !fate.dirSyncOk {
        return Some(DirSync);
      }
      SyncInstalled(d, id, hex, n, was);
      if d !in rootSynced {
        if !fate.rootSyncOk {
          return Some(RootSync);
        }
        SyncItsRoot(d, id, hex, n, was);
      }
      InstalledIsDurable(disk, d, hex, length, hash);
      return None;
    }

    method SyncInstalled(d: string, ghost id: nat, ghost hex: string, ghost n: nat, ghost was: BlobDisk)
      requires Valid() && d in disk.dirs && KeptSince(n, was, d, id, hex)
      modifies this`disk, this`history
      ensures Valid() && KeptSince(n, was, d, id, hex) && disk == DirSyncedDisk(old(disk), d)
    {
      ghost var k := disk;
      SyncDirectory(d);
      SparesOn(was, k, disk, d, id, hex, {});
    }

    method SyncItsRoot(d: string, ghost id: nat, ghost hex: string, ghost n: nat, ghost was: BlobDisk)
      requires Valid() && d in disk.dirs && KeptSince(n, was, d, id, hex)
      modifies this`disk, this`history, this`rootSynced
      ensures Valid() && KeptSince(n, was, d, id, hex) && disk == RootSyncedDisk(old(disk))
    {
      ghost var k := disk;
      SyncRoot(d);
      SparesOn(was, k, disk, d, id, hex, {});
    }

    /**
     * The install in its order, each act's failure ending it: past the last the file is durable, its hash out no
     * more.
     */
    method InstallDurably(d: string, id: nat, i: nat, hex: string, length: nat, fate: FinishFate, ghost n: nat)
      returns (failed: Option<Step>, aside: Option<AsideName>)
      requires Valid() && MayFinish(PartialKey(d, id), i, hex, length) && n == |history|
      modifies this`disk, this`history, this`rootSynced, this`asideSerial, this`lost
      ensures Valid() && KeptSince(n, old(disk), d, id, hex)
      ensures failed.None? ==> Durably(disk, d, hex, length, hash) && lost == old(lost) - {(d, hex)}
      ensures failed.None? ==>
                aside == if Hex(hex) in old(disk).dirs[d].live then Some(Aside(hex, old(asideSerial))) else None
      ensures failed.Some? ==> lost == old(lost) && !failed.value.LeaseSync? && !failed.value.RecordRetire?
      ensures failed.Some? && BeforeRename(failed.value) ==>
                Entry(disk, PartialKey(d, id)) == old(Entry(disk, PartialKey(d, id)))
      ensures old(PartialNamed(d, id)) && old(AsideFree(d, hex)) && AllOk(fate) ==> failed.None?
    {
      ghost var was := disk;
      failed, aside := PutInPlace(d, id, i, hex, length, fate, n);
      if failed.None? {
        failed := MakeFound(d, id, hex, length, fate, n, was);
      }
    }

    /** Past the rename: the syncs, and the hash lost no more. */
    method MakeFound(d: string, id: nat, hex: string, length: nat, fate: FinishFate, ghost n: nat, ghost was: BlobDisk)
      returns (failed: Option<Step>)
      requires Valid() && d in disk.dirs && KeptSince(n, was, d, id, hex)
      requires Hex(hex) in disk.dirs[d].live && disk.dirs[d].live[Hex(hex)] in disk.files
      requires GoodFile(disk.files[disk.dirs[d].live[Hex(hex)]], hex, length, hash)
      modifies this`disk, this`history, this`rootSynced, this`lost
      ensures Valid() && KeptSince(n, was, d, id, hex)
      ensures failed.None? ==> Durably(disk, d, hex, length, hash) && lost == old(lost) - {(d, hex)}
      ensures failed.Some? ==> lost == old(lost) && (failed.value.DirSync? || failed.value.RootSync?)
      ensures fate.dirSyncOk && fate.rootSyncOk ==> failed.None?
    {
      failed := MakeDurable(d, id, hex, length, fate, n, was);
      if failed.None? {
        Found(d, hex, length);
      }
    }

    /** A hash whose file is durable again is lost no more. */
    ghost method Found(d: string, hex: string, length: nat)
      requires Valid() && Durably(disk, d, hex, length, hash)
      modifies this`lost
      ensures Valid() && lost == old(lost) - {(d, hex)}
    {
      DurablyIsBoth(disk, d, hex, length, hash);
      ghost var out := excused + lost;
      lost := lost - {(d, hex)};
      FewerCovered(disk, LiveNow(), LiveNow(), out, excused + lost, hash);
    }

    /** A stopped log met before the first act. */
    method JudgeStops() returns (ok: bool)
      requires Valid()
      modifies leases.log, uploads.log
      ensures Valid() && ok == (old(leases.log.stopped).None? && old(uploads.log.stopped).None?)
      ensures ok ==> leases.log.stopped.None? && uploads.log.stopped.None?
      ensures leases.log.promise == old(leases.log.promise) && uploads.log.promise == old(uploads.log.promise)
    {
      var first := leases.log.RefuseIfStopped();
      if !first {
        return false;
      }
      ok := uploads.log.RefuseIfStopped();
    }

    /** The history grown by instants of one disk. */
    ghost predicate GrewOver(was: seq<Instant>, k: BlobDisk)
      reads this`history
    {
      was <= history && forall i {:trigger history[i]} :: |was| <= i < |history| ==> history[i].disk == k
    }

    /** A lease appended and synced over a file already durable: whatever the append's end, every lease keeps a file. */
    method AppendLease(lease: Lease, fate: AppendFate) returns (r: AppendResult)
      requires Valid() && StandsFor(disk, lease, hash) && ReadableLease(KeyOf(lease), lease)
      requires leases.log.stopped.None?
      modifies this`history, leases`gone, leases`offered, leases.log, leases.leases
      ensures Valid() && GrewOver(old(history), disk)
      ensures leases.leases.byHash ==
                if r == Appended then old(leases.leases.byHash)[KeyOf(lease) := lease] else old(leases.leases.byHash)
      ensures AppendOk(fate) ==> r == Appended
      ensures r == Appended ==> leases.log.stopped.None?
      ensures LeftWhole(fate) ==> leases.log.stopped.Some? && (KeyOf(lease), lease) in leases.offered
      ensures leases.log.stopped.None? ==> leases.offered == {}
    {
      ghost var held, offered := leases.leases.byHash, leases.offered;
      OneMoreCovered(disk, held, offered, excused + lost, now, lease, hash);
      r := AppendToLog(lease, fate);
      NoteAppend(lease, held, offered);
    }

    /** The append alone, its instants not yet recorded. */
    method AppendToLog(lease: Lease, fate: AppendFate) returns (r: AppendResult)
      requires Valid() && ReadableLease(KeyOf(lease), lease) && leases.log.stopped.None?
      modifies leases`gone, leases`offered, leases.log, leases.leases
      ensures leases.Valid() && UploadsStand() && ExcusesFit() && leases.droppedAt == old(leases.droppedAt)
      ensures leases.leases.byHash ==
                if r == Appended then old(leases.leases.byHash)[KeyOf(lease) := lease] else old(leases.leases.byHash)
      ensures leases.offered <= old(leases.offered) + {(KeyOf(lease), lease)}
      ensures TrailKnown(
                leases.log.trail, leases.c, old(leases.leases.byHash), old(leases.offered) + {(KeyOf(lease), lease)},
                leases.horizon, leases.droppedAt)
      ensures AppendOk(fate) ==> r == Appended
      ensures r == Appended ==> leases.log.stopped.None?
      ensures LeftWhole(fate) ==> leases.log.stopped.Some? && (KeyOf(lease), lease) in leases.offered
    {
      r := leases.AppendSynced(lease, fate);
    }

    /** An append to the lease log just made: its instants, whatever its end. */
    ghost method NoteAppend(lease: Lease, held: LeaseTable, offered: Offers)
      requires leases.Valid() && NamesAreHex(hash) && leases.droppedAt <= now && AllSound(history, leases.c, hash)
      requires ExcusesFit()
      requires leases.leases.byHash == held || leases.leases.byHash == held[KeyOf(lease) := lease]
      requires leases.offered <= offered + {(KeyOf(lease), lease)}
      requires TrailKnown(
                 leases.log.trail, leases.c, held, offered + {(KeyOf(lease), lease)}, leases.horizon, leases.droppedAt)
      requires AllCovered(disk, LiveLeases(held, offered + {(KeyOf(lease), lease)}, now), excused + lost, hash)
      modifies this`history
      ensures LeasesStand() && GrewOver(old(history), disk)
    {
      ghost var known, out := LiveLeases(held, offered + {(KeyOf(lease), lease)}, now), excused + lost;
      forall l | l in LiveNow() ensures l in known {
        if l == lease && Live(lease, now) { assert Live((KeyOf(lease), lease).1, now); }
      }
      FewerCovered(disk, known, LiveNow(), out, out, hash);
      NoteTrail(held, offered + {(KeyOf(lease), lease)}, out);
    }

    /** The instants of an append or a rewrite of the lease log just made, and the moment after it. */
    ghost method NoteTrail(held: LeaseTable, offered: Offers, out: Hashes)
      requires leases.Valid() && NamesAreHex(hash) && leases.droppedAt <= now && ExcusesFit()
      requires TrailKnown(leases.log.trail, leases.c, held, offered, leases.horizon, leases.droppedAt)
      requires AllCovered(disk, LiveLeases(held, offered, now), out, hash)
      requires AllCovered(disk, LiveNow(), excused + lost, hash) && AllSound(history, leases.c, hash)
      modifies this`history
      ensures LeasesStand() && GrewOver(old(history), disk)
    {
      ghost var more := InstantsOf(leases.log.trail, disk, out, now);
      TrailIsSound(
        leases.log.trail, disk, out, now, leases.c, hash, held, offered, leases.horizon, leases.droppedAt);
      PresentIsSound(disk);
      SoundOn(history, more, leases.c, hash);
      SoundOn(history + more, [Present()], leases.c, hash);
      history := history + more + [Present()];
    }

    /**
     * From the partial's sync to the lease's: the lease is appended only over a file already durable under its name.
     */
    method InstallAndLease(
      d: string, id: nat, i: nat, hex: string, principal: string, length: U64, expires: U64, fate: FinishFate,
      ghost n: nat)
      returns (failed: Option<Step>, aside: Option<AsideName>)
      requires Valid() && MayFinish(PartialKey(d, id), i, hex, length) && n == |history|
      requires DesignationOk(d) && HexOk(hex) && leases.log.stopped.None?
      modifies this`disk, this`history, this`rootSynced, this`asideSerial, this`lost
      modifies leases`gone, leases`offered, leases.log, leases.leases
      ensures Valid() && KeptSince(n, old(disk), d, id, hex)
      ensures failed.None? ==>
                && Durably(disk, d, hex, length, hash) && lost == old(lost) - {(d, hex)} && leases.log.stopped.None?
                && leases.leases.byHash ==
                     old(leases.leases.byHash)[LeaseKey(d, hex, principal) := Lease(principal, d, hex, length, expires)]
      ensures failed.None? ==>
                aside == if Hex(hex) in old(disk).dirs[d].live then Some(Aside(hex, old(asideSerial))) else None
      ensures failed.Some? ==> !failed.value.RecordRetire? && leases.leases.byHash == old(leases.leases.byHash)
      ensures failed.Some? && BeforeRename(failed.value) ==>
                Entry(disk, PartialKey(d, id)) == old(Entry(disk, PartialKey(d, id)))
      ensures old(PartialNamed(d, id)) && old(AsideFree(d, hex)) && AllOk(fate) ==> failed.None?
    {
      ghost var was := disk;
      failed, aside := InstallDurably(d, id, i, hex, length, fate, n);
      if failed.None? {
        var leased := LeaseInstalled(Lease(principal, d, hex, length, expires), fate.lease, n, was, id);
        failed := if leased then None else Some(LeaseSync);
      }
    }

    method LeaseInstalled(lease: Lease, fate: AppendFate, ghost n: nat, ghost was: BlobDisk, ghost id: nat)
      returns (ok: bool)
      requires Valid() && StandsFor(disk, lease, hash) && ReadableLease(KeyOf(lease), lease)
      requires KeptSince(n, was, lease.designation, id, lease.hex) && leases.log.stopped.None?
      modifies this`history, leases`gone, leases`offered, leases.log, leases.leases
      ensures Valid() && KeptSince(n, was, lease.designation, id, lease.hex)
      ensures leases.leases.byHash ==
                if ok then old(leases.leases.byHash)[KeyOf(lease) := lease] else old(leases.leases.byHash)
      ensures (AppendOk(fate) ==> ok) && (ok ==> leases.log.stopped.None?)
    {
      ghost var past := history;
      var r := AppendLease(lease, fate);
      ok := r == Appended;
      assert forall i :: n <= i < |history| ==> history[i] == (if i < |past| then past[i] else history[i]);
    }

    /** The upload's partial stands in its designation's directory. */
    ghost predicate PartialNamed(d: string, id: nat)
      reads this`disk
    {
      Entry(disk, PartialKey(d, id)).Some?
    }

    /**
     * The finish: judged ahead, installed durably, leased, retired, and only then the replaced file's aside queued. A
     * failure before the rename leaves the upload over its partial; one past it and before the lease's sync leaves a
     * file no lease names; one past that, the deposit made. A torn stream's sync fails before any act.
     */
    method Finish(
      d: string, id: UploadId, i: nat, hex: string, principal: string, length: U64, interval: U64, time: U64,
      torn: bool,
      fate: FinishFate)
      returns (r: FinishResult)
      requires Valid() && DesignationOk(d) && HexOk(hex) && d in disk.dirs
      requires torn || MayFinish(PartialKey(d, id), i, hex, length)
      modifies this`disk, this`history, this`rootSynced, this`asideSerial, this`lost, asideQueue
      modifies leases`gone, leases`offered, leases.log, leases.leases, uploads, uploads.log
      ensures Valid() && KeptSince(old(|history|), old(disk), d, id, hex)
      ensures r.NoSuchUpload? <==>
                id !in old(uploads.records) || old(uploads.records)[id].principal != principal
                || !Stands(old(uploads.records)[id], time)
      ensures r.RefusedAhead? ==> old(leases.log.stopped).Some? || old(uploads.log.stopped).Some?
      ensures r.NoSuchUpload? || r.RefusedAhead? || torn ==>
                && disk == old(disk) && leases.leases.byHash == old(leases.leases.byHash)
                && uploads.records == old(uploads.records) && !r.Finished?
      ensures r.Finished? ==>
                && r.hex == hex && Durably(disk, d, hex, length, hash) && (d, hex) !in lost && leases.log.stopped.None?
                && uploads.records == old(uploads.records) - {id}
                && leases.leases.byHash == old(leases.leases.byHash)[
                     LeaseKey(d, hex, principal) := Lease(principal, d, hex, length, Expiry(time, interval))]
      ensures asideQueue.names == old(asideQueue.names) +
                if r.Finished? && Hex(hex) in old(disk).dirs[d].live then [(d, Aside(hex, old(asideSerial)))] else []
      ensures r.FailedAt? && !r.step.RecordRetire? ==>
                uploads.records == old(uploads.records) && leases.leases.byHash == old(leases.leases.byHash)
      ensures r.FailedAt? && BeforeRename(r.step) ==>
                Entry(disk, PartialKey(d, id)) == old(Entry(disk, PartialKey(d, id)))
      ensures uploads.offered == old(uploads.offered)
      ensures uploads.records == old(uploads.records) || uploads.records == old(uploads.records) - {id}
      ensures !r.NoSuchUpload? && !r.RefusedAhead? && !torn && AllOk(fate) ==>
                old(PartialNamed(d, id)) && old(AsideFree(d, hex)) ==> r.Finished?
      ensures old(leases.log.stopped).None? && old(uploads.log.stopped).None? ==> !r.RefusedAhead?
    {
      ghost var n, was := |history|, disk;
      SparesItself(disk, d, id, hex);
      if id !in uploads.records || uploads.records[id].principal != principal || !Stands(uploads.records[id], time) {
        return NoSuchUpload;
      }
      var ok := JudgeStops();
      if !ok {
        return RefusedAhead;
      }
      if torn {
        return FailedAt(PartialSync);
      }
      r := FinishJudged(d, id, i, hex, principal, length, Expiry(time, interval), fate, n, was);
    }

    method FinishJudged(
      d: string, id: UploadId, i: nat, hex: string, principal: string, length: U64, expires: U64, fate: FinishFate,
      ghost n: nat, ghost was: BlobDisk)
      returns (r: FinishResult)
      requires Valid() && DesignationOk(d) && HexOk(hex) && MayFinish(PartialKey(d, id), i, hex, length)
      requires n == |history| && was == disk && leases.log.stopped.None? && uploads.log.stopped.None?
      modifies this`disk, this`history, this`rootSynced, this`asideSerial, this`lost, asideQueue
      modifies leases`gone, leases`offered, leases.log, leases.leases, uploads, uploads.log
      ensures r.Finished? || r.FailedAt?
      ensures KeptSince(n, was, d, id, hex)
      ensures r.Finished? ==>
                && r.hex == hex && Durably(disk, d, hex, length, hash) && (d, hex) !in lost && leases.log.stopped.None?
                && uploads.records == old(uploads.records) - {id}
      ensures r.Finished? || (r.FailedAt? && r.step.RecordRetire?) ==>
                leases.leases.byHash ==
                  old(leases.leases.byHash)[LeaseKey(d, hex, principal) := Lease(principal, d, hex, length, expires)]
      ensures asideQueue.names == old(asideQueue.names) +
                if r.Finished? && Hex(hex) in was.dirs[d].live then [(d, Aside(hex, old(asideSerial)))] else []
      ensures r.FailedAt? && !r.step.RecordRetire? ==>
                uploads.records == old(uploads.records) && leases.leases.byHash == old(leases.leases.byHash)
      ensures r.FailedAt? && BeforeRename(r.step) ==>
                Entry(disk, PartialKey(d, id)) == old(Entry(disk, PartialKey(d, id)))
      ensures uploads.offered == old(uploads.offered)
      ensures uploads.records == old(uploads.records) || uploads.records == old(uploads.records) - {id}
      ensures old(PartialNamed(d, id)) && old(AsideFree(d, hex)) && AllOk(fate) ==> r.Finished?
      ensures Valid()
    {
      var failed, aside := InstallAndLease(d, id, i, hex, principal, length, expires, fate, n);
      if failed.None? {
        r := RetireLeased(d, id, hex, aside, length, fate.retire, n, was);
      } else {
        r := FailedAt(failed.value);
      }
    }

    /** A record retired: no lease and no file of any is touched. */
    method RetireRecord(id: UploadId, fate: AppendFate) returns (ok: bool)
      requires Valid()
      modifies uploads, uploads.log
      ensures Valid() && uploads.records == old(uploads.records) - {id} && uploads.offered == old(uploads.offered)
      ensures old(uploads.log.stopped).None? && fate.statOk && fate.writeOk ==> ok
    {
      ghost var was := uploads.records;
      var retired := uploads.Retire(id, fate);
      forall o | o in uploads.records ensures RecordHeld(disk, uploads.records[o]) {
        assert RecordHeld(disk, was[o]);
      }
      assert LeasesStand();
      return retired == Appended;
    }

    method QueueAside(d: string, aside: Option<AsideName>)
      requires Valid()
      modifies asideQueue
      ensures Valid()
      ensures asideQueue.names == old(asideQueue.names) + if aside.Some? then [(d, aside.value)] else []
    {
      if aside.Some? {
        asideQueue.names := asideQueue.names + [(d, aside.value)];
      }
      assert LeasesStand() && UploadsStand();
    }

    /** Past the lease's sync: the record retired, and only then the aside queued. */
    method RetireFinished(d: string, id: UploadId, hex: string, aside: Option<AsideName>, fate: AppendFate)
      returns (r: FinishResult)
      requires Valid()
      modifies asideQueue, uploads, uploads.log
      ensures Valid() && uploads.records == old(uploads.records) - {id} && uploads.offered == old(uploads.offered)
      ensures (r.Finished? && r.hex == hex) || (r.FailedAt? && r.step.RecordRetire?)
      ensures asideQueue.names == old(asideQueue.names) + if r.Finished? && aside.Some? then [(d, aside.value)] else []
      ensures old(uploads.log.stopped).None? && AppendOk(fate) ==> r.Finished?
    {
      var retired := RetireRecord(id, fate);
      if retired {
        QueueAside(d, aside);
        r := Finished(hex);
      } else {
        r := FailedAt(RecordRetire);
      }
    }

    /** Past the lease nothing of the disk or of the leases moves. */
    method RetireLeased(
      d: string, id: UploadId, hex: string, aside: Option<AsideName>, length: U64, fate: AppendFate, ghost n: nat,
      ghost was: BlobDisk)
      returns (r: FinishResult)
      requires Valid() && KeptSince(n, was, d, id, hex) && Durably(disk, d, hex, length, hash)
      modifies asideQueue, uploads, uploads.log
      ensures Valid() && KeptSince(n, was, d, id, hex) && Durably(disk, d, hex, length, hash)
      ensures leases.leases.byHash == old(leases.leases.byHash) && uploads.records == old(uploads.records) - {id}
      ensures leases.log.stopped == old(leases.log.stopped) && uploads.offered == old(uploads.offered)
      ensures (r.Finished? && r.hex == hex) || (r.FailedAt? && r.step.RecordRetire?)
      ensures asideQueue.names == old(asideQueue.names) + if r.Finished? && aside.Some? then [(d, aside.value)] else []
      ensures old(uploads.log.stopped).None? && AppendOk(fate) ==> r.Finished?
    {
      ghost var k, past := disk, history;
      r := RetireFinished(d, id, hex, aside, fate);
      assert disk == k && history == past;
    }

    // -------------------------------------------------------------- the uploads' own acts

    /** A new upload's partial, made and its directory synced; a directory made here owes the root its entry. */
    method CreatePartial(d: string, id: nat, fate: CreateFate) returns (ok: bool)
      requires Valid() && Entry(disk, PartialKey(d, id)).None?
      requires forall o :: o in uploads.records ==> PathOf(uploads.records[o]) != PartialKey(d, id)
      modifies this`disk, this`history
      ensures Valid() && KeepsPartials(old(disk), disk, {PartialKey(d, id)})
      ensures disk.rootDurable == old(disk.rootDurable)
      ensures SameBeside(old(disk), disk)
      ensures ok <==> fate.dirOk && fate.fileOk && fate.fileSyncOk && fate.dirSyncOk
      ensures ok ==> PartialHeld(disk, PartialKey(d, id), []) && PartialAt(disk, PartialKey(d, id)) == Some([])
      ensures !fate.fileOk ==> PartialAt(disk, PartialKey(d, id)).None?
      ensures fate.dirOk ==> d in disk.dirs
    {
      if !fate.dirOk {
        return false;
      }
      ghost var was := disk;
      MadeDirLosesNothing(disk, d);
      SafeAct(MadeDir(disk, d), {});
      assert Entry(disk, PartialKey(d, id)) == Entry(was, PartialKey(d, id));
      if !fate.fileOk {
        return false;
      }
      ghost var k := disk;
      ok := AddPartial(d, id, fate);
      SameBesideOn(was, k, disk);
      KeepsPartialsOn(was, k, disk, {}, {PartialKey(d, id)}, {PartialKey(d, id)});
    }

    method AddPartial(d: string, id: nat, fate: CreateFate) returns (ok: bool)
      requires Valid() && d in disk.dirs && Entry(disk, PartialKey(d, id)).None?
      requires forall o :: o in uploads.records ==> PathOf(uploads.records[o]) != PartialKey(d, id)
      modifies this`disk, this`history
      ensures Valid() && KeepsPartials(old(disk), disk, {PartialKey(d, id)})
      ensures disk.rootDurable == old(disk.rootDurable)
      ensures SameBeside(old(disk), disk)
      ensures d in disk.dirs && (ok <==> fate.fileSyncOk && fate.dirSyncOk)
      ensures ok ==> PartialHeld(disk, PartialKey(d, id), []) && PartialAt(disk, PartialKey(d, id)) == Some([])
    {
      ghost var was, p := disk, PartialKey(d, id);
      WithPartialLosesNothing(disk, d, id);
      WithPartialKeepsPartials(disk, d, id);
      SafeAct(WithPartial(disk, d, id), {p});
      if !fate.fileSyncOk || !fate.dirSyncOk {
        return false;
      }
      ghost var k := disk;
      CreatedIsHeld(disk, p);
      SyncDirectory(d);
      SameBesideOn(was, k, disk);
      KeepsPartialsOn(was, k, disk, {p}, {}, {p});
      return true;
    }

    method UnlinkPartial(d: string, id: nat)
      requires Valid() && d in disk.dirs
      modifies this`disk, this`history
      ensures Valid() && KeepsPartials(old(disk), disk, {PartialKey(d, id)}) && SameBeside(old(disk), disk)
      ensures d in disk.dirs && Entry(disk, PartialKey(d, id)).None? && KeepsFiles(old(disk), disk)
    {
      GoneKeepsFiles(disk, PartialKey(d, id));
      GoneKeepsPartials(disk, d, Partial(id), {PartialKey(d, id)});
      UnlinkLosesNothing(disk, d, Partial(id));
      SafeAct(WithoutName(disk, d, Partial(id)), {PartialKey(d, id)});
    }

    /** A partial removed, its directory synced where one went; absent is fine. Answers the bytes freed. */
    method RemovePartial(d: string, id: nat, fate: RemoveFate) returns (freed: Option<nat>)
      requires Valid()
      modifies this`disk, this`history
      ensures Valid() && KeepsPartials(old(disk), disk, {PartialKey(d, id)}) && SameBeside(old(disk), disk)
      ensures KeepsFiles(old(disk), disk)
      ensures forall p :: NameKeptOrGone(old(disk), disk, p)
      ensures freed.Some? <==> old(PartialAt(disk, PartialKey(d, id))).None? || fate == RemoveOk
      ensures PartialAt(disk, PartialKey(d, id)) ==
                if fate == UnlinkFails then old(PartialAt(disk, PartialKey(d, id))) else None
      ensures freed.Some? ==>
                freed.value == match old(PartialAt(disk, PartialKey(d, id))) case Some(b) => |b| case None => 0
    {
      var p := PartialKey(d, id);
      var at := PartialAt(disk, p);
      if at.None? {
        return Some(0);
      }
      if fate == UnlinkFails {
        return None;
      }
      ghost var was := disk;
      UnlinkPartial(d, id);
      if fate == SyncFails {
        return None;
      }
      ghost var k := disk;
      SyncDirectory(d);
      SameBesideOn(was, k, disk);
      KeepsFilesOn(was, k, disk);
      KeepsPartialsOn(was, k, disk, {p}, {}, {p});
      return Some(|at.value|);
    }

    /** A record created over its partial: no lease and no file of any is touched. */
    method CreateRecord(
      id: UploadId, principal: string, d: string, length: U64, interval: U64, time: U64, fate: AppendFate)
      returns (made: Option<UploadRecord>)
      requires Valid() && DesignationOk(d) && id !in uploads.records && PartialHeld(disk, PartialKey(d, id), [])
      modifies uploads, uploads.log
      ensures Valid()
      ensures made.Some? ==>
                && made.value == UploadRecord(id, principal, d, length, 0, interval, Expiry(time, interval))
                && uploads.records == old(uploads.records)[id := made.value] && uploads.log.stopped.None?
      ensures made.None? ==> uploads.records == old(uploads.records)
      ensures old(uploads.log.stopped).None? && AppendOk(fate) ==> made.Some?
      ensures OthersKept(old(uploads.records), old(uploads.offered), uploads.records, uploads.offered, id)
    {
      ghost var was := uploads.records;
      made := uploads.Create(id, principal, d, length, interval, time, fate);
      forall o | o in uploads.records ensures RecordHeld(disk, uploads.records[o]) {
        if o != id { assert RecordHeld(disk, was[o]); }
      }
      assert LeasesStand();
    }

    /**
     * Creates an upload: its partial, then its record; a failure leaves no upload, and no partial its removal could
     * take.
     */
    method CreateUpload(
      id: UploadId, principal: string, d: string, length: U64, interval: U64, time: U64, create: CreateFate,
      append: AppendFate, remove: RemoveFate)
      returns (made: Option<UploadRecord>)
      requires Valid() && DesignationOk(d) && id !in uploads.records && Entry(disk, PartialKey(d, id)).None?
      modifies this`disk, this`history, uploads, uploads.log
      ensures Valid() && KeepsPartials(old(disk), disk, {PartialKey(d, id)}) && SameBeside(old(disk), disk)
      ensures OthersKept(old(uploads.records), old(uploads.offered), uploads.records, uploads.offered, id)
      ensures made.Some? ==>
                && made.value == UploadRecord(id, principal, d, length, 0, interval, Expiry(time, interval))
                && uploads.records == old(uploads.records)[id := made.value] && uploads.log.stopped.None?
                && PartialHeld(disk, PartialKey(d, id), []) && PartialAt(disk, PartialKey(d, id)) == Some([])
      ensures made.None? ==>
                && uploads.records == old(uploads.records)
                && (remove != UnlinkFails ==> PartialAt(disk, PartialKey(d, id)).None?)
      ensures create == CreateFate(true, true, true, true) && old(uploads.log.stopped).None? && AppendOk(append) ==>
                made.Some?
    {
      ghost var was := disk;
      KeyedByTheirIds();
      var ok := CreatePartial(d, id, create);
      made := None;
      if ok {
        made := CreateRecord(id, principal, d, length, interval, time, append);
      }
      if made.None? {
        ghost var k := disk;
        var _ := RemovePartial(d, id, remove);
        SameBesideOn(was, k, disk);
        KeepsPartialsOn(was, k, disk, {PartialKey(d, id)}, {PartialKey(d, id)}, {PartialKey(d, id)});
      }
    }

    lemma KeyedByTheirIds()
      requires uploads.Valid()
      ensures forall o :: o in uploads.records ==> uploads.records[o].id == o
    {
      forall o | o in uploads.records ensures uploads.records[o].id == o { uploads.OffsetsStayInRange(o); }
    }

    /** Bytes of an upload received: its record's offset set, over a partial durable to it. */
    method MarkReceived(principal: string, id: UploadId, offset: U64, time: U64, fate: AppendFate)
      returns (marked: Result<UploadRecord, BlobError>)
      requires Valid()
      requires id in uploads.records && uploads.records[id].principal == principal ==>
                 && uploads.records[id].offset <= offset <= uploads.records[id].length
                 && RecordHeld(disk, uploads.records[id].(offset := offset))
      modifies uploads, uploads.log
      ensures Valid()
      ensures OthersKept(old(uploads.records), old(uploads.offered), uploads.records, uploads.offered, id)
      ensures marked == Err(NoUpload) <==>
                id !in old(uploads.records) || old(uploads.records)[id].principal != principal
      ensures marked.Ok? ==>
                && id in old(uploads.records) && uploads.offered == {} && uploads.log.stopped.None?
                && marked.value == old(uploads.records)[id].(
                     offset := offset, expires := Expiry(time, old(uploads.records)[id].interval))
                && uploads.records == old(uploads.records)[id := marked.value]
      ensures marked.Err? ==> uploads.records == old(uploads.records)
      ensures forall p :: p in uploads.offered && p.0 == id && p !in old(uploads.offered) ==>
                p.1.offset == offset && id in old(uploads.records)
                && p.1.designation == old(uploads.records)[id].designation
      ensures marked.Err? && marked.error.Io? ==> old(uploads.log.stopped).Some? || !AppendOk(fate)
    {
      ghost var was, offers := uploads.records, uploads.offered;
      marked := uploads.MarkReceived(principal, id, offset, time, fate);
      OffersStillFit(was, offers, uploads.records, uploads.offered, id, offset);
      MarkStaysHeld(disk, was, uploads.records, id, offset);
      assert LeasesStand();
    }

    /** Ends an upload: its partial removed, then its record retired. A removal refused leaves the record standing. */
    method EndUpload(principal: string, id: UploadId, time: U64, remove: RemoveFate, append: AppendFate)
      returns (r: Result<bool, BlobError>)
      requires Valid()
      modifies this`disk, this`history, uploads, uploads.log
      ensures Valid()
      ensures (r.Err? && r.error.NoUpload?) <==>
                id !in old(uploads.records) || old(uploads.records)[id].principal != principal
                || !Stands(old(uploads.records)[id], time)
      ensures r.Err? && r.error.NoUpload? ==> disk == old(disk) && uploads.records == old(uploads.records)
      ensures r.Ok? ==>
                && uploads.records == old(uploads.records) - {id}
                && PartialAt(disk, PathOf(old(uploads.records)[id])).None?
      ensures r.Err? && r.error.Io? ==>
                || uploads.records == old(uploads.records) - {id}
                || (uploads.records == old(uploads.records) && remove != RemoveOk)
      ensures r.Ok? || r.error.Io? ==> KeepsPartials(old(disk), disk, {PathOf(old(uploads.records)[id])})
      ensures SameBeside(old(disk), disk) && uploads.offered == old(uploads.offered)
      ensures KeepsFiles(old(disk), disk) && forall p :: NameKeptOrGone(old(disk), disk, p)
    {
      if id !in uploads.records || uploads.records[id].principal != principal || !Stands(uploads.records[id], time) {
        return Err(NoUpload);
      }
      uploads.OffsetsStayInRange(id);
      var freed := RemovePartial(uploads.records[id].designation, id, remove);
      if freed.None? {
        return Err(Io);
      }
      var retired := RetireRecord(id, append);
      return if retired then Ok(true) else Err(Io);
    }

    /** The pruner's removal of an expired upload, whatever principal minted it; one that stands is left as it is. */
    method ExpireUpload(id: UploadId, time: U64, remove: RemoveFate, append: AppendFate)
      returns (r: Result<Option<nat>, ExpiryFailed>)
      requires Valid()
      modifies this`disk, this`history, uploads, uploads.log
      ensures Valid()
      ensures (r.Ok? && r.value.None?) <==> id !in old(uploads.records) || Stands(old(uploads.records)[id], time)
      ensures r.Ok? && r.value.None? ==> disk == old(disk) && uploads.records == old(uploads.records)
      ensures r.Err? && r.error.Removal? ==> uploads.records == old(uploads.records) && remove != RemoveOk
      ensures (if r.Ok? then r.value.Some? else r.error.Retirement?) ==>
                && uploads.records == old(uploads.records) - {id}
                && PartialAt(disk, PathOf(old(uploads.records)[id])).None?
      ensures r.Err? || r.value.Some? ==> KeepsPartials(old(disk), disk, {PathOf(old(uploads.records)[id])})
      ensures SameBeside(old(disk), disk) && uploads.offered == old(uploads.offered)
      ensures KeepsFiles(old(disk), disk) && forall p :: NameKeptOrGone(old(disk), disk, p)
    {
      if id !in uploads.records || Stands(uploads.records[id], time) {
        return Ok(None);
      }
      uploads.OffsetsStayInRange(id);
      var freed := RemovePartial(uploads.records[id].designation, id, remove);
      if freed.None? {
        return Err(Removal);
      }
      var retired := RetireRecord(id, append);
      return if retired then Ok(Some(freed.value)) else Err(Retirement(freed.value));
    }

    // -------------------------------------------------------------- what may be read, and what stranded

    /** Whether a lease a failed append left whole in the log, and no map holds, is live on the hash. */
    ghost predicate InFlightOn(d: string, hex: string)
      reads this`now, leases`offered
    {
      OfferedOn(leases.offered, d, hex, now)
    }

    /** Whether something a crash may leave of the lease log reads a live lease on the hash. */
    ghost predicate ReadsLiveOn(d: string, hex: string)
      reads this`now, leases, leases.log, leases.leases
      requires leases.Valid()
    {
      exists l: Lease :: LiveOn(l, d, hex, now) && MayRead(Outcomes(leases.log.disk), l, leases.c)
    }

    lemma ReadIsKnown(l: Lease)
      requires LeasesStand() && Live(l, now) && MayRead(Outcomes(leases.log.disk), l, leases.c)
      ensures (KeyOf(l) in leases.leases.byHash && leases.leases.byHash[KeyOf(l)] == l)
                || (KeyOf(l), l) in leases.offered
      ensures l in LiveNow() && Covered(disk, l, excused + lost, hash)
    {
      leases.CrashReadsKnown();
      ReadIsLive(
        Outcomes(leases.log.disk), l, leases.c, leases.leases.byHash, leases.offered, leases.horizon, leases.droppedAt,
        now);
    }

    /**
     * Where no live lease is held on a hash, a crash may leave one read on it exactly where a failed append left one
     * whole.
     */
    lemma ReadIsInFlight(d: string, hex: string)
      requires LeasesStand() && !AnyLiveIn(leases.leases.byHash, d, hex, now)
      ensures ReadsLiveOn(d, hex) <==> InFlightOn(d, hex)
    {
      if l: Lease :| LiveOn(l, d, hex, now) && MayRead(Outcomes(leases.log.disk), l, leases.c) {
        ReadIsKnown(l);
      }
      if p :| p in leases.offered && LiveOn(p.1, d, hex, now) {
        assert Offered(p, Outcomes(leases.log.disk), leases.c) && LiveOn(p.1, d, hex, now);
      }
    }

    /** A crash now may leave a lease the next open reads, and not the whole file it names. */
    ghost predicate MayStrand(l: Lease)
      reads this, leases, leases.log, leases.leases
      requires leases.Valid()
    {
      && MayRead(Outcomes(leases.log.disk), l, leases.c)
      && exists left :: MayLeave(disk, left) && !FileLeft(left, l, hash)
    }

    ghost predicate MayStrandOn(d: string, hex: string)
      reads this, leases, leases.log, leases.leases
      requires leases.Valid()
    {
      exists l: Lease :: LiveOn(l, d, hex, now) && MayStrand(l)
    }

    /**
     * Over every reachable state: a crash may strand a live lease exactly where something it may leave of the log reads
     * that lease and its hash is out: its file taken by the pruner while something did, or not found by the open, and
     * not durable at its name since.
     */
    lemma StrandsExactly(l: Lease)
      requires Valid() && Live(l, now)
      ensures MayStrand(l) <==>
                MayRead(Outcomes(leases.log.disk), l, leases.c) && (l.designation, l.hex) in Out()
    {
      if MayRead(Outcomes(leases.log.disk), l, leases.c) {
        ReadIsKnown(l);
        if MayBeNameless(disk, l.designation, l.hex) {
          var left := NamelessMayBeLeft(disk, l.designation, l.hex);
          assert !FileLeft(left, l, hash);
        } else {
          CoveredStands(disk, l, Out(), hash);
          forall left | MayLeave(disk, left) ensures FileLeft(left, l, hash) {
            MayLeaveIsByName(disk, left);
            CrashKeepsDurable(disk, left, l.designation, l.hex, l.size, hash);
          }
        }
      }
    }

    /**
     * What a caller can read first: while the lease log takes appends, no crash strands a lease whose file the open
     * found.
     */
    lemma UnstoppedStrandsNone(l: Lease)
      requires Valid() && Live(l, now) && leases.log.stopped.None? && (l.designation, l.hex) !in lost
      ensures !MayStrand(l)
    {
      StrandsExactly(l);
    }

    /** A hash with no file at its name: a crash may strand a lease on it exactly where it may leave one read. */
    lemma NamelessStrandsExactly(d: string, hex: string)
      requires Valid() && MayBeNameless(disk, d, hex)
      ensures MayStrandOn(d, hex) <==> ReadsLiveOn(d, hex)
    {
      if l: Lease :| LiveOn(l, d, hex, now) && MayRead(Outcomes(leases.log.disk), l, leases.c) {
        ReadIsKnown(l);
        StrandsExactly(l);
      }
    }

    // -------------------------------------------------------------- the pruner's acts

    /**
     * The pruner's act on a hash no live lease is held on: its name gone, and the hash excused where one may be read
     * on it.
     */
    method Take(d: string, hex: string, k: BlobDisk)
      requires Valid() && !AnyLiveIn(leases.leases.byHash, d, hex, now) && d in disk.dirs && d in k.dirs
      requires GoodDisk(k) && k == WithDir(disk, d, Changed(disk.dirs[d], k.dirs[d].live))
      requires Hex(hex) !in k.dirs[d].live && KeepsPartials(disk, k, {})
      requires forall n :: n in disk.dirs[d].live && n.Hex? && n != Hex(hex) ==>
                 n in k.dirs[d].live && k.dirs[d].live[n] == disk.dirs[d].live[n]
      requires forall n :: n in k.dirs[d].live && n.Hex? ==> n in disk.dirs[d].live
      modifies this`disk, this`history, this`excused
      ensures Valid() && disk == k
      ensures excused == old(excused) + if old(ReadsLiveOn(d, hex)) then {(d, hex)} else {}
      ensures MayBeNameless(disk, d, hex) && (MayStrandOn(d, hex) <==> old(ReadsLiveOn(d, hex)))
    {
      ReadIsInFlight(d, hex);
      Excuse(d, hex);
      HashGoneStands(disk, d, hex, k.dirs[d].live, LiveNow(), excused + lost, hash);
      RecordsStayHeld(disk, k, {}, uploads.records);
      Act(k);
      assert k.dirs[d].live in k.dirs[d].may;
      NamelessStrandsExactly(d, hex);
    }

    ghost method Excuse(d: string, hex: string)
      requires Valid() && !AnyLiveIn(leases.leases.byHash, d, hex, now)
      modifies this`excused
      ensures Valid() && excused == old(excused) + (if InFlightOn(d, hex) then {(d, hex)} else {})
      ensures forall l :: l in LiveNow() && l.designation == d && l.hex == hex ==> (d, hex) in excused + lost
    {
      ghost var out := excused + lost;
      forall key | key in leases.leases.byHash ensures key == KeyOf(leases.leases.byHash[key]) {
        assert leases.c.valid(key, leases.leases.byHash[key]);
      }
      OneMoreExcused(leases.leases.byHash, leases.offered, excused, d, hex, now);
      excused := NowExcused(leases.offered, excused, d, hex, now);
      FewerCovered(disk, LiveNow(), LiveNow(), out, excused + lost, hash);
    }

    /**
     * The pruner's rename aside, made where no live lease is held on the hash: it costs no held lease its file. A crash
     * past it may strand a lease on the hash exactly where one might have read a lease on it before.
     */
    method RenameAside(d: string, hex: string, renameOk: bool) returns (aside: Option<AsideName>)
      requires Valid() && !AnyLiveIn(leases.leases.byHash, d, hex, now)
      modifies this`disk, this`history, this`asideSerial, this`excused
      ensures Valid() && KeepsPartials(old(disk), disk, {})
      ensures asideSerial == old(asideSerial) + if DesignationOk(d) && HexOk(hex) then 1 else 0
      ensures aside.Some? <==>
                DesignationOk(d) && HexOk(hex) && renameOk && d in old(disk.dirs) && Hex(hex) in old(disk).dirs[d].live
      ensures aside.Some? ==>
                && aside.value == Aside(hex, old(asideSerial))
                && (var was := old(disk).dirs[d];
                    disk == WithDir(old(disk), d, Changed(was, SetAside(was.live, hex, old(asideSerial)))))
                && excused == old(excused) + (if old(ReadsLiveOn(d, hex)) then {(d, hex)} else {})
                && MayBeNameless(disk, d, hex) && (MayStrandOn(d, hex) <==> old(ReadsLiveOn(d, hex)))
      ensures aside.None? ==> disk == old(disk) && excused == old(excused)
    {
      if !DesignationOk(d) || !HexOk(hex) {
        return None;
      }
      var n := asideSerial;
      asideSerial := asideSerial + 1;
      if d !in disk.dirs || Hex(hex) !in disk.dirs[d].live || !renameOk {
        return None;
      }
      SetAsideShape(disk, d, hex, n);
      SetAsideKeepsPartials(disk, d, hex, n);
      Take(d, hex, WithDir(disk, d, Changed(disk.dirs[d], SetAside(disk.dirs[d].live, hex, n))));
      return Some(Aside(hex, n));
    }

    /** The direct form: the hash's name unlinked, under the same precondition, and costing the same. */
    method UnlinkBlob(d: string, hex: string, unlinkOk: bool) returns (removed: bool)
      requires Valid() && !AnyLiveIn(leases.leases.byHash, d, hex, now)
      modifies this`disk, this`history, this`excused
      ensures Valid() && KeepsPartials(old(disk), disk, {})
      ensures removed <==>
                DesignationOk(d) && HexOk(hex) && unlinkOk && d in old(disk.dirs) && Hex(hex) in old(disk).dirs[d].live
      ensures removed ==>
                && disk == WithoutName(old(disk), d, Hex(hex))
                && excused == old(excused) + (if old(ReadsLiveOn(d, hex)) then {(d, hex)} else {})
                && MayBeNameless(disk, d, hex) && (MayStrandOn(d, hex) <==> old(ReadsLiveOn(d, hex)))
      ensures !removed ==> disk == old(disk) && excused == old(excused)
    {
      if !DesignationOk(d) || !HexOk(hex) || d !in disk.dirs || Hex(hex) !in disk.dirs[d].live || !unlinkOk {
        return false;
      }
      GoneShape(disk, d, Hex(hex));
      GoneKeepsPartials(disk, d, Hex(hex), {});
      Take(d, hex, WithoutName(disk, d, Hex(hex)));
      return true;
    }

    /** One aside removed by name; no lease names an aside. Absent is done. */
    method RemoveAside(d: string, name: AsideName, removeOk: bool) returns (ok: bool)
      requires Valid()
      modifies this`disk, this`history
      ensures Valid() && KeepsPartials(old(disk), disk, {})
      ensures ok <==> !AsideStands(old(disk), d, name) || removeOk
      ensures disk == if AsideStands(old(disk), d, name) && removeOk then WithoutName(old(disk), d, name) else old(disk)
    {
      if d !in disk.dirs || name !in disk.dirs[d].live {
        return true;
      }
      if !removeOk {
        return false;
      }
      GoneKeepsPartials(disk, d, name, {});
      UnlinkLosesNothing(disk, d, name);
      SafeAct(WithoutName(disk, d, name), {});
      return true;
    }

    /**
     * The deferred unlink of every aside queued, in order: those done are gone and no other name is touched; a failure
     * leaves its aside and the rest at the queue's head.
     */
    method UnlinkAsides(removes: nat -> bool) returns (done: nat)
      requires Valid()
      modifies this`disk, this`history, asideQueue
      ensures Valid() && KeepsPartials(old(disk), disk, {})
      ensures done <= |old(asideQueue.names)| && asideQueue.names == old(asideQueue.names)[done..]
      ensures LessAsides(old(disk), disk, old(asideQueue.names)[..done])
      ensures done < |old(asideQueue.names)| ==>
                AsideStands(disk, old(asideQueue.names)[done].0, old(asideQueue.names)[done].1)
    {
      var queued := asideQueue.names;
      ghost var was := disk;
      done := 0;
      while done < |queued|
        invariant done <= |queued| && Valid() && asideQueue.names == queued
        invariant KeepsPartials(was, disk, {}) && LessAsides(was, disk, queued[..done])
      {
        ghost var k := disk;
        var ok := RemoveAside(queued[done].0, queued[done].1, removes(done));
        KeepsPartialsOn(was, k, disk, {}, {}, {});
        if !ok {
          break;
        }
        OneAsideLess(was, k, disk, queued, done);
        done := done + 1;
      }
      SetQueue(queued[done..]);
    }

    method SetQueue(names: seq<(string, AsideName)>)
      requires Valid()
      modifies asideQueue
      ensures Valid() && asideQueue.names == names
    {
      asideQueue.names := names;
      assert LeasesStand() && UploadsStand();
    }

    // -------------------------------------------------------------- the logs' own acts

    /** What the horizon has passed dropped from the leases held. */
    method DropPastHorizon(time: U64)
      requires Valid() && time == now
      modifies leases`gone, leases`droppedAt, leases.leases
      ensures Valid() && leases.leases.byHash == Unlapsed(old(leases.leases.byHash), leases.horizon, time)
    {
      ghost var was := LiveNow();
      var _ := leases.DropPastHorizon(time);
      FewerCovered(disk, was, LiveNow(), excused + lost, excused + lost, hash);
      assert UploadsStand();
    }

    /**
     * The lease log's runtime compaction, past its drop: the log rewritten to the leases held. One whose rewrite alone
     * can be read lifts every excuse.
     */
    method CompactLeases(keys: seq<LeaseKey>, fate: CompactFate) returns (r: CompactResult)
      requires Valid() && |keys| == |leases.leases.byHash| && forall key :: key in keys <==> key in leases.leases.byHash
      modifies this`excused, this`history, leases`gone, leases`offered, leases.log
      ensures Valid() && excused == (if Alone(r, leases.log.promise) then {} else old(excused))
      ensures GrewOver(old(history), disk) && (r.Compacted? ==> excused == {} && leases.log.stopped.None?)
    {
      ghost var offered := leases.offered;
      ghost var alone: bool;
      r, alone := RewriteLog(keys, fate);
      NoteRewrite(offered, alone);
      UploadsUntouched();
    }

    /** Nothing of the uploads moved: they stand as they stood. */
    twostate lemma UploadsUntouched()
      requires old(UploadsStand()) && unchanged(`disk) && unchanged(uploads) && unchanged(uploads.log)
      ensures UploadsStand()
    {
    }

    /** The rewrite alone, its instants not yet recorded. */
    method RewriteLog(keys: seq<LeaseKey>, fate: CompactFate) returns (r: CompactResult, ghost alone: bool)
      requires leases.Valid() && |keys| == |leases.leases.byHash|
      requires forall key :: key in keys <==> key in leases.leases.byHash
      modifies leases`gone, leases`offered, leases.log
      ensures leases.Valid() && leases.droppedAt == old(leases.droppedAt)
      ensures alone == Alone(r, leases.log.promise) && (r.Compacted? ==> alone)
      ensures (alone ==> leases.offered == {}) && (!alone ==> leases.offered == old(leases.offered))
      ensures TrailKnown(
                leases.log.trail, leases.c, leases.leases.byHash, old(leases.offered), leases.horizon, leases.droppedAt)
      ensures r.Compacted? ==> leases.log.stopped.None?
    {
      r := leases.Compact(keys, fate);
      alone := Alone(r, leases.log.promise);
    }

    /** A rewrite of the lease log just made: its instants, and every excuse lifted where it alone can be read. */
    ghost method NoteRewrite(offered: Offers, alone: bool)
      requires leases.Valid() && NamesAreHex(hash) && leases.droppedAt <= now && AllSound(history, leases.c, hash)
      requires (alone ==> leases.offered == {}) && (!alone ==> leases.offered == offered)
      requires offered == {} ==> excused == {}
      requires NoneHeldOn(leases.leases.byHash, excused, now)
      requires TrailKnown(
                 leases.log.trail, leases.c, leases.leases.byHash, offered, leases.horizon, leases.droppedAt)
      requires AllCovered(disk, LiveLeases(leases.leases.byHash, offered, now), excused + lost, hash)
      modifies this`excused, this`history
      ensures LeasesStand() && GrewOver(old(history), disk) && excused == if alone then {} else old(excused)
    {
      ghost var out := excused + lost;
      FewerCovered(disk, LiveLeases(leases.leases.byHash, offered, now), LiveNow(), out, out, hash);
      if alone {
        LiftExcuses();
      }
      NoteTrail(leases.leases.byHash, offered, out);
    }

    /** With only the leases held to be read, none of them on a hash excused, nothing is excused any longer. */
    ghost method LiftExcuses()
      requires leases.Valid() && leases.offered == {} && AllCovered(disk, LiveNow(), excused + lost, hash)
      requires NoneHeldOn(leases.leases.byHash, excused, now)
      modifies this`excused
      ensures ExcusesFit() && excused == {} && AllCovered(disk, LiveNow(), excused + lost, hash)
    {
      ghost var out := excused + lost;
      forall key | key in leases.leases.byHash && Live(leases.leases.byHash[key], now)
        ensures key == KeyOf(leases.leases.byHash[key]) && !IsOn(key, excused)
      {
        assert leases.c.valid(key, leases.leases.byHash[key]);
      }
      excused := {};
      FewerCovered(disk, LiveNow(), LiveNow(), out, excused + lost, hash);
    }

    /** The upload log's runtime compaction: no record and no lease moves. */
    method CompactUploadsIfPast(trigger: nat, minLines: nat, fate: CompactFate) returns (r: Option<CompactResult>)
      requires Valid()
      modifies uploads`gone, uploads`offered, uploads.log
      ensures Valid() && uploads.records == old(uploads.records) && uploads.offered <= old(uploads.offered)
      ensures r.Some? && r.value.Compacted? ==> uploads.log.stopped.None?
    {
      ghost var offers := uploads.offered;
      r := uploads.CompactIfPast(trigger, minLines, fate);
      FewerOffersFit(uploads.records, offers, uploads.offered);
      assert LeasesStand();
    }

    // -------------------------------------------------------------- what a crash leaves

    /**
     * At every instant, those inside an append or a rewrite of the lease log among them, and whatever a crash then
     * leaves of the directories' names, each on its own, of the files and of the lease log: every lease the next open
     * reads that is still live names a file standing whole under its designation and hash, unless its hash is out.
     */
    lemma EveryInstantKeepsLeases(i: nat, left: Left, found: Bytes, l: Lease)
      requires Valid() && i < |history| && MayLeaveByName(history[i].disk, left) && found in history[i].outcomes
      requires Live(l, history[i].now) && ReadsLease(Reading(found, leases.c.isObject), l, leases.c)
      ensures (l.designation, l.hex) in history[i].out || FileLeft(left, l, hash)
    {
      assert Sound(history[i], leases.c, hash) && MayRead(history[i].outcomes, l, leases.c);
      assert Covered(history[i].disk, l, history[i].out, hash);
      CrashKeepsGood(history[i].disk, left, l.designation, l.hex, l.size, hash);
    }

    /** And now; the file is durable from that open on. */
    lemma EveryLiveLeaseNamesItsFile(left: Left, found: Bytes, l: Lease)
      requires Valid() && MayLeaveByName(disk, left) && found in Outcomes(leases.log.disk) && Live(l, now)
      requires ReadsLease(Reading(found, leases.c.isObject), l, leases.c)
      ensures (l.designation, l.hex) in Out() || (FileLeft(left, l, hash) && StandsFor(OpenedOver(disk, left), l, hash))
    {
      ReadIsKnown(l);
      CrashKeepsGood(disk, left, l.designation, l.hex, l.size, hash);
      if (l.designation, l.hex) !in Out() {
        DurablyIsBoth(OpenedOver(disk, left), l.designation, l.hex, l.size, hash);
      }
    }
  }

  function GoneFrom(gone: seq<(string, AsideName)>, d: string): set<Name> {
    set g | g in gone && g.0 == d :: g.1
  }

  /** The same names over the same files, less some asides. */
  ghost predicate LessAsides(was: BlobDisk, k: BlobDisk, gone: seq<(string, AsideName)>) {
    && k.dirs.Keys == was.dirs.Keys && k.files == was.files
    && forall d :: d in was.dirs ==> k.dirs[d].live == was.dirs[d].live - GoneFrom(gone, d)
  }

  lemma OneAsideLess(was: BlobDisk, k: BlobDisk, after: BlobDisk, queued: seq<(string, AsideName)>, done: nat)
    requires done < |queued| && LessAsides(was, k, queued[..done])
    requires var (d, name) := queued[done]; after == if AsideStands(k, d, name) then WithoutName(k, d, name) else k
    ensures LessAsides(was, after, queued[..done + 1])
  {
    var (e, name) := queued[done];
    assert queued[..done + 1] == queued[..done] + [queued[done]];
    forall d | d in was.dirs ensures after.dirs[d].live == was.dirs[d].live - GoneFrom(queued[..done + 1], d) {
      assert GoneFrom(queued[..done + 1], d) == GoneFrom(queued[..done], d) + (if e == d then {name} else {});
      assert k.dirs[d].live == was.dirs[d].live - GoneFrom(queued[..done], d);
    }
  }

  lemma HexStands(k: BlobDisk, lease: Lease, hash: Bytes -> string)
    requires WfBlobDisk(k) && StandsFor(k, lease, hash)
    ensures NamesHash(k, lease.designation, lease.hex)
  {
    assert WfDir(k.dirs[lease.designation], k.files);
  }

  /**
   * Such a state is reachable from any that serves: a lease's line lands whole while its sync and its cut back both
   * fail, so no map holds the lease, and the pruner's read finds none live on the hash and takes the file.
   */
  method StrandALease(s: Store, lease: Lease)
    requires s.Valid() && s.leases.log.stopped.None? && StandsFor(s.disk, lease, s.hash)
    requires ReadableLease(KeyOf(lease), lease) && Live(lease, s.now)
    requires !AnyLiveIn(s.leases.leases.byHash, lease.designation, lease.hex, s.now)
    modifies s`disk, s`history, s`asideSerial, s`excused
    modifies s.leases`gone, s.leases`offered, s.leases.log, s.leases.leases
    ensures s.Valid() && s.leases.log.stopped.Some? && s.MayStrand(lease)
  {
    HexStands(s.disk, lease, s.hash);
    var r := s.AppendLease(lease, AppendFate(true, 0, true, false, false, false));
    PruneInFlight(s, lease);
  }

  method PruneInFlight(s: Store, lease: Lease)
    requires s.Valid() && (KeyOf(lease), lease) in s.leases.offered && ReadableLease(KeyOf(lease), lease)
    requires Live(lease, s.now) && NamesHash(s.disk, lease.designation, lease.hex)
    requires !AnyLiveIn(s.leases.leases.byHash, lease.designation, lease.hex, s.now)
    modifies s`disk, s`history, s`asideSerial, s`excused
    ensures s.Valid() && s.MayStrand(lease)
  {
    assert LiveOn(lease, lease.designation, lease.hex, s.now);
    assert Offered((KeyOf(lease), lease), Outcomes(s.leases.log.disk), s.leases.c);
    var _ := s.RenameAside(lease.designation, lease.hex, true);
    s.StrandsExactly(lease);
  }
}

/** An upload open for one request: bytes appended to its partial, received once durable and marked in the record. */
module Streams {
  import opened Wrappers
  import opened Clocks
  import opened BlobNames
  import opened LogLines
  import opened Logs
  import opened KeyedLogs
  import opened UploadLogs
  import opened Leases
  import opened BlobDisks
  import opened PartialPaths
  import opened Partials
  import opened Finishes
  import opened Stores

  /** The fsync grain of a partial. */
  const SYNC_GRAIN: nat := 1024 * 1024

  datatype StreamError = NoUploadHeld | PastLength(length: U64, at: nat) | NotAtOffset(recorded: U64) | Disk

  /** How one act of a stream goes: the bytes a write lands, the partial's sync, the record's line. */
  datatype StreamFate = StreamFate(written: nat, writeOk: bool, syncOk: bool, line: AppendFate)

  /** How a resume's acts go: the open and the stat, the cut back, its sync, the read of the bytes hashed. */
  datatype ResumeFate = ResumeFate(openOk: bool, cutOk: bool, syncOk: bool, readOk: bool)

  predicate AllWell(fate: StreamFate) {
    fate.writeOk && fate.syncOk && AppendOk(fate.line)
  }

  /**
   * The partial opened for one request: its file, the bytes its hasher covers, and whether a write or a sync has
   * failed.
   */
  class Handle {
    const file: nat
    var hashed: Bytes
    var torn: bool

    constructor (file: nat, hashed: Bytes)
      ensures this.file == file && this.hashed == hashed && !torn
    {
      this.file, this.hashed, this.torn := file, hashed, false;
    }

    function Written(): nat
      reads this
    {
      |hashed|
    }
  }

  /** Whose upload it is, and where: what no act of a stream changes of its record. */
  datatype Owner = Owner(id: UploadId, principal: string, designation: string, length: U64)

  /**
   * The upload's record, and any line of it a failed append left whole, are the owner's, at or past the offset
   * marked.
   */
  ghost predicate OverItsRecord(records: RecordMap, offered: UploadOffers, o: Owner, at: nat) {
    && (o.id in records ==>
          && records[o.id].offset == at && records[o.id].designation == o.designation
          && records[o.id].principal == o.principal && records[o.id].length == o.length)
    && (forall r {:trigger (o.id, r) in offered} :: (o.id, r) in offered ==>
          r.offset >= at && r.designation == o.designation)
  }

  lemma MarkMoves(
    was: RecordMap, wasOffered: UploadOffers, records: RecordMap, offered: UploadOffers, o: Owner, before: nat, at: nat)
    requires OverItsRecord(was, wasOffered, o, before) && before <= at
    requires forall p :: p in offered && p.0 == o.id && p !in wasOffered ==>
               p.1.offset == at && o.id in was && p.1.designation == was[o.id].designation
    ensures records == was ==> OverItsRecord(records, offered, o, before)
    ensures o.id in was && offered == {} && o.id in records ==>
              records[o.id] == was[o.id].(offset := records[o.id].offset, expires := records[o.id].expires) ==>
                records[o.id].offset == at ==> OverItsRecord(records, offered, o, at)
  {
    forall r | (o.id, r) in offered ensures r.offset >= before && r.designation == o.designation {
      if (o.id, r) !in wasOffered { assert (o.id, r).0 == o.id; }
    }
  }

  /** No record but another's moved. */
  lemma OthersMove(
    was: RecordMap, wasOffered: UploadOffers, records: RecordMap, offered: UploadOffers, o: Owner, at: nat,
    id: UploadId)
    requires OverItsRecord(was, wasOffered, o, at) && OthersKept(was, wasOffered, records, offered, id) && o.id != id
    ensures OverItsRecord(records, offered, o, at)
  {
    assert Lookup(records, o.id) == Lookup(was, o.id);
    forall r | (o.id, r) in offered ensures r.offset >= at && r.designation == o.designation {
      assert (o.id, r).0 == o.id;
    }
  }

  /** What the handle knows of its file: the bytes hashed are its first, and all of them unless it is torn. */
  ghost predicate HashedOver(f: FileDisk, hashed: Bytes, torn: bool, offset: nat) {
    && DurableTo(f, offset) && offset <= |hashed| && hashed <= f.live && (!torn ==> hashed == f.live)
  }

  /**
   * The file bears no name but its partial's and, while any version of the directory names it so, holds the bytes
   * hashed; and where the partial's name stands, it is this file's.
   */
  ghost predicate OnItsFile(k: BlobDisk, p: PartialKey, file: nat, hashed: Bytes, torn: bool, at: nat) {
    && p.designation in k.dirs && OnlyIts(k, p, file)
    && (Entry(k, p).Some? ==> Entry(k, p) == Some(file))
    && (MayMeet(k, p, file) ==> HashedOver(k.files[file], hashed, torn, at) && (!torn ==> file !in k.doubted))
  }

  lemma SyncedIsHashed(k: BlobDisk, p: PartialKey, file: nat, hashed: Bytes, at: nat)
    requires OnItsFile(k, p, file, hashed, false, at)
    requires MayMeet(k, p, file) ==> k.files[file] == FileDisk(hashed, {hashed})
    ensures OnItsFile(k, p, file, hashed, false, |hashed|)
  {
  }

  /** A sync no failed one goes before: all a crash leaves of the file, while it may meet it, is the bytes hashed. */
  lemma SyncedStays(k: BlobDisk, p: PartialKey, file: nat, hashed: Bytes, at: nat)
    requires OnItsFile(k, p, file, hashed, false, at)
    ensures OnItsFile(SyncedFile(k, file), p, file, hashed, false, at)
    ensures MayMeet(SyncedFile(k, file), p, file) ==>
              SyncedFile(k, file).files[file] == FileDisk(hashed, {hashed})
  {
    FileKeepsPartials(k, p, file, Synced(k.files[file]));
  }

  lemma OthersStay(
    k: BlobDisk, after: BlobDisk, spared: set<PartialKey>, p: PartialKey, file: nat, hashed: Bytes, torn: bool, at: nat)
    requires OnItsFile(k, p, file, hashed, torn, at) && KeepsPartials(k, after, spared) && p !in spared
    ensures OnItsFile(after, p, file, hashed, torn, at)
  {
    assert OnlyIts(after, p, file);
  }

  lemma WriteIsHashed(f: FileDisk, hashed: Bytes, bytes: Bytes, k: nat, offset: nat)
    requires HashedOver(f, hashed, false, offset) && k <= |bytes|
    ensures HashedOver(Wrote(f, bytes, k), hashed, true, offset)
    ensures k == |bytes| ==> HashedOver(Wrote(f, bytes, k), hashed + bytes, false, offset)
  {
    WritesPastKeep(f, bytes, k, offset);
    assert bytes[..|bytes|] == bytes;
  }

  class Stream {
    const store: Store
    const principal: string
    const id: UploadId
    const designation: string
    const length: U64
    /** The record's offset as this stream has marked it. */
    var offset: U64
    const handle: Handle

    /** The upload's partial, at its path. */
    function Path(): PartialKey {
      PartialKey(designation, id)
    }

    function Whose(): Owner {
      Owner(id, principal, designation, length)
    }

    /** The stream over its store, its handle and its mark as given. One stream of an upload at a time. */
    ghost predicate FitsAs(hashed: Bytes, torn: bool, at: nat)
      reads store`disk, store.uploads`records, store.uploads`offered
    {
      && OnItsFile(store.disk, Path(), handle.file, hashed, torn, at)
      && OverItsRecord(store.uploads.records, store.uploads.offered, Whose(), at)
      && DesignationOk(designation) && at <= |hashed| <= length
    }

    ghost predicate Fits()
      reads this, handle, store`disk, store.uploads`records, store.uploads`offered
    {
      FitsAs(handle.hashed, handle.torn, offset)
    }

    ghost predicate Valid()
      reads this, handle, store, store.leases, store.leases.log, store.leases.leases, store.uploads, store.uploads.log
    {
      store.Valid() && Fits()
    }

    /** Opens on a partial held exactly at the record's offset. */
    constructor (store: Store, handle: Handle, id: UploadId)
      requires store.Valid() && id in store.uploads.records && !handle.torn
      requires var r := store.uploads.records[id];
               && Entry(store.disk, PathOf(r)) == Some(handle.file) && |handle.hashed| == r.offset
               && handle.file in store.disk.files && store.disk.files[handle.file].live == handle.hashed
      ensures Valid() && this.store == store && this.handle == handle && this.id == id
      ensures var r := store.uploads.records[id];
              && principal == r.principal && designation == r.designation && length == r.length && offset == r.offset
    {
      var r := store.uploads.records[id];
      store.uploads.OffsetsStayInRange(id);
      EntryIsOnlyIts(store.disk, PathOf(r));
      assert RecordHeld(store.disk, r);
      forall v | (id, v) in store.uploads.offered ensures v.offset >= r.offset && v.designation == r.designation {
        assert (id, v).0 in store.uploads.records && store.uploads.records[(id, v).0] == r;
      }
      this.store, this.handle, this.id := store, handle, id;
      this.principal, this.designation, this.length, this.offset := r.principal, r.designation, r.length, r.offset;
    }

    method SetHandle(hashed: Bytes, torn: bool)
      requires store.Valid() && FitsAs(hashed, torn, offset)
      modifies handle
      ensures Valid() && handle.hashed == hashed && handle.torn == torn
    {
      handle.hashed, handle.torn := hashed, torn;
      assert store.Valid();
    }

    method SetOffset(at: U64)
      requires store.Valid() && FitsAs(handle.hashed, handle.torn, at)
      modifies this`offset
      ensures Valid() && offset == at
    {
      offset := at;
      assert store.Valid();
    }

    /** The stream's own act on its partial's file. */
    method ChangeFile(f: FileDisk)
      requires Valid() && f.live in f.may
      requires MayMeet(store.disk, Path(), handle.file) ==> DurableTo(f, offset)
      modifies store`disk, store`history
      ensures store.Valid() && store.disk == WithFile(old(store.disk), handle.file, f)
      ensures KeepsPartials(old(store.disk), store.disk, {Path()})
      ensures OnlyIts(store.disk, Path(), handle.file)
      ensures MayMeet(store.disk, Path(), handle.file) <==> old(MayMeet(store.disk, Path(), handle.file))
    {
      store.KeyedByTheirIds();
      if Entry(store.disk, Path()).Some? { EntryIsOnlyIts(store.disk, Path()); }
      FileKeepsPartials(store.disk, Path(), handle.file, f);
      store.ChangeFile(Path(), handle.file, f);
    }

    /** The bytes of a write landed in the file, all of them or a part. */
    method Land(bytes: Bytes, k: nat)
      requires Valid() && !handle.torn && |handle.hashed| + |bytes| <= length && k <= |bytes|
      modifies store`disk, store`history
      ensures store.Valid() && KeepsPartials(old(store.disk), store.disk, {Path()})
      ensures store.disk.dirs == old(store.disk.dirs)
      ensures FitsAs(handle.hashed, true, offset)
      ensures k == |bytes| ==> FitsAs(handle.hashed + bytes, false, offset)
    {
      ghost var f := store.disk.files[handle.file];
      if MayMeet(store.disk, Path(), handle.file) { WriteIsHashed(f, handle.hashed, bytes, k, offset); }
      ChangeFile(Wrote(store.disk.files[handle.file], bytes, k));
    }

    /** The handle's write at the end; a failed one counts none of its bytes and tears it. */
    method Write(bytes: Bytes, fate: StreamFate) returns (ok: bool)
      requires Valid() && |handle.hashed| + |bytes| <= length
      modifies handle, store`disk, store`history
      ensures Valid() && KeepsPartials(old(store.disk), store.disk, {Path()})
      ensures store.disk.dirs == old(store.disk.dirs)
      ensures ok ==> !handle.torn && handle.hashed == old(handle.hashed) + bytes
      ensures !ok ==> handle.torn && handle.hashed == old(handle.hashed)
      ensures ok <==> !old(handle.torn) && fate.writeOk
    {
      if handle.torn {
        return false;
      }
      var k := if fate.writeOk || fate.written > |bytes| then |bytes| else fate.written;
      Land(bytes, k);
      ok := fate.writeOk;
      SetHandle(if ok then handle.hashed + bytes else handle.hashed, !ok);
    }

    /** The file's sync: what a crash leaves of it, while it may meet it, is the bytes hashed. */
    method SyncFile()
      requires Valid() && !handle.torn
      modifies store`disk, store`history
      ensures Valid() && KeepsPartials(old(store.disk), store.disk, {Path()})
      ensures store.disk.dirs == old(store.disk.dirs)
      ensures MayMeet(store.disk, Path(), handle.file) ==>
                store.disk.files[handle.file] == FileDisk(handle.hashed, {handle.hashed})
    {
      SyncedStays(store.disk, Path(), handle.file, handle.hashed, offset);
      store.SyncPartial(Path(), handle.file);
    }

    /** The file's sync that fails: what it held past the offset marked is in doubt. */
    method FailSync()
      requires Valid()
      modifies store`disk, store`history
      ensures store.Valid() && FitsAs(handle.hashed, true, offset)
      ensures KeepsPartials(old(store.disk), store.disk, {Path()}) && store.disk.dirs == old(store.disk.dirs)
      ensures store.disk == FailedSync(old(store.disk), handle.file)
    {
      FailedSyncKeepsPartials(store.disk, Path(), handle.file);
      store.FailSync(Path(), handle.file);
    }

    /** The handle's sync; a failed one tears it. */
    method Sync(fate: StreamFate) returns (ok: bool)
      requires Valid()
      modifies handle, store`disk, store`history
      ensures Valid() && KeepsPartials(old(store.disk), store.disk, {Path()})
      ensures store.disk.dirs == old(store.disk.dirs) && handle.hashed == old(handle.hashed)
      ensures ok <==> !old(handle.torn) && fate.syncOk
      ensures ok ==> !handle.torn
      ensures ok && MayMeet(store.disk, Path(), handle.file) ==>
                store.disk.files[handle.file] == FileDisk(handle.hashed, {handle.hashed})
      ensures !ok ==>
                && handle.torn
                && store.disk == if old(handle.torn) then old(store.disk) else FailedSync(old(store.disk), handle.file)
    {
      if handle.torn {
        return false;
      }
      ok := fate.syncOk;
      if ok {
        SyncFile();
      } else {
        FailSync();
        SetHandle(handle.hashed, true);
      }
    }

    /**
     * Makes the bytes written received: the partial synced on the disk, and only then the record's offset set to
     * them.
     */
    method Receive(time: U64, fate: StreamFate) returns (r: Result<UploadRecord, StreamError>)
      requires Valid()
      modifies this`offset, handle, store`disk, store`history, store.uploads, store.uploads.log
      ensures Valid() && KeepsPartials(old(store.disk), store.disk, {Path()}) && handle.hashed == old(handle.hashed)
      ensures OthersKept(
                old(store.uploads.records), old(store.uploads.offered),
                store.uploads.records, store.uploads.offered, id)
      ensures store.disk.dirs == old(store.disk.dirs)
      ensures r.Ok? ==>
                offset == |handle.hashed| && !handle.torn && Marked(old(store.uploads.records), r.value, time)
      ensures r.Err? ==> offset == old(offset) && store.uploads.records == old(store.uploads.records)
      ensures r.Err? ==> r.error == Disk || (r.error == NoUploadHeld && id !in old(store.uploads.records))
      ensures !old(handle.torn) && AllWell(fate) && old(store.uploads.log.stopped).None? ==> r != Err(Disk)
      ensures r.Ok? ==> store.uploads.log.stopped.None?
    {
      var ok := Sync(fate);
      if !ok {
        return Err(Disk);
      }
      r := Mark(time, fate.line);
    }

    method Mark(time: U64, fate: AppendFate) returns (r: Result<UploadRecord, StreamError>)
      requires Valid() && !handle.torn
      requires MayMeet(store.disk, Path(), handle.file) ==>
                 store.disk.files[handle.file] == FileDisk(handle.hashed, {handle.hashed})
      modifies this`offset, store.uploads, store.uploads.log
      ensures Valid()
      ensures OthersKept(
                old(store.uploads.records), old(store.uploads.offered),
                store.uploads.records, store.uploads.offered, id)
      ensures r.Ok? ==> offset == |handle.hashed| && Marked(old(store.uploads.records), r.value, time)
      ensures r.Ok? ==> store.uploads.log.stopped.None?
      ensures r.Err? ==> offset == old(offset) && store.uploads.records == old(store.uploads.records)
      ensures r.Err? ==> r.error == Disk || (r.error == NoUploadHeld && id !in old(store.uploads.records))
      ensures AppendOk(fate) && old(store.uploads.log.stopped).None? ==> r != Err(Disk)
    {
      r := MarkRecord(time, fate);
      if r.Ok? {
        SetOffset(|handle.hashed|);
      }
    }

    /** The record now, where a mark answered: the bytes written received, the expiry re-fixed, the rest as it was. */
    ghost predicate Marked(was: RecordMap, record: UploadRecord, time: U64)
      reads handle, store.uploads`records
    {
      && id in was && id in store.uploads.records && record == store.uploads.records[id]
      && |handle.hashed| <= U64_MAX
      && record == was[id].(offset := |handle.hashed|, expires := Expiry(time, was[id].interval))
    }

    method MarkRecord(time: U64, fate: AppendFate) returns (r: Result<UploadRecord, StreamError>)
      requires Valid() && !handle.torn
      requires MayMeet(store.disk, Path(), handle.file) ==>
                 store.disk.files[handle.file] == FileDisk(handle.hashed, {handle.hashed})
      modifies store.uploads, store.uploads.log
      ensures store.Valid() && FitsAs(handle.hashed, handle.torn, if r.Ok? then |handle.hashed| else offset)
      ensures OthersKept(
                old(store.uploads.records), old(store.uploads.offered),
                store.uploads.records, store.uploads.offered, id)
      ensures r.Ok? ==> Marked(old(store.uploads.records), r.value, time) && store.uploads.log.stopped.None?
      ensures r.Err? ==> store.uploads.records == old(store.uploads.records)
      ensures r.Err? ==> r.error == Disk || (r.error == NoUploadHeld && id !in old(store.uploads.records))
      ensures AppendOk(fate) && old(store.uploads.log.stopped).None? ==> r != Err(Disk)
    {
      MarkIsHeld();
      SyncedIsHashed(store.disk, Path(), handle.file, handle.hashed, offset);
      ghost var was, offers := store.uploads.records, store.uploads.offered;
      var marked := store.MarkReceived(principal, id, |handle.hashed|, time, fate);
      MarkMoves(was, offers, store.uploads.records, store.uploads.offered, Whose(), offset, |handle.hashed|);
      match marked {
        case Ok(record) => r := Ok(record);
        case Err(NoUpload) => r := Err(NoUploadHeld);
        case Err(Io) => r := Err(Disk);
      }
    }

    lemma MarkIsHeld()
      requires Valid()
      requires MayMeet(store.disk, Path(), handle.file) ==>
                 store.disk.files[handle.file] == FileDisk(handle.hashed, {handle.hashed})
      ensures id in store.uploads.records ==>
                && PathOf(store.uploads.records[id]) == Path()
                && RecordHeld(store.disk, store.uploads.records[id].(offset := |handle.hashed|))
    {
      if id in store.uploads.records {
        store.KeyedByTheirIds();
        assert RecordHeld(store.disk, store.uploads.records[id]);
        if Entry(store.disk, Path()).Some? { EntryIsOnlyIts(store.disk, Path()); }
      }
    }

    /**
     * Appends bytes, received at every grain: the refusals in the order they are judged, then the write, then the
     * grain.
     */
    method Append(bytes: Bytes, time: U64, fate: StreamFate) returns (r: Result<nat, StreamError>)
      requires Valid()
      modifies this`offset, handle, store`disk, store`history, store.uploads, store.uploads.log
      ensures Valid() && offset >= old(offset) && old(handle.hashed) <= handle.hashed
      ensures KeepsPartials(old(store.disk), store.disk, {Path()})
      ensures OthersKept(
                old(store.uploads.records), old(store.uploads.offered),
                store.uploads.records, store.uploads.offered, id)
      ensures store.disk.dirs == old(store.disk.dirs)
      ensures id !in old(store.uploads.records) <==> r == Err(NoUploadHeld)
      ensures id in old(store.uploads.records) && old(handle.Written()) + |bytes| > length <==>
                r == Err(PastLength(length, old(handle.Written())))
      ensures r.Ok? ==>
                && handle.hashed == old(handle.hashed) + bytes && r.value == handle.Written() && !handle.torn
                && handle.Written() - offset < SYNC_GRAIN
      ensures r == Err(NoUploadHeld) || (r.Err? && r.error.PastLength?) ==>
                && store.disk == old(store.disk) && store.uploads.records == old(store.uploads.records)
                && handle.hashed == old(handle.hashed)
      ensures offset == old(offset) ==> store.uploads.records == old(store.uploads.records)
      ensures offset != old(offset) ==>
                && id in store.uploads.records && offset == |handle.hashed|
                && Marked(old(store.uploads.records), store.uploads.records[id], time)
      ensures id in old(store.uploads.records) && old(handle.Written()) + |bytes| <= length && !old(handle.torn) ==>
                AllWell(fate) && old(store.uploads.log.stopped).None? ==> r.Ok? && store.uploads.log.stopped.None?
    {
      if id !in store.uploads.records || store.uploads.records[id].principal != principal {
        return Err(NoUploadHeld);
      }
      if handle.Written() + |bytes| > length {
        return Err(PastLength(length, handle.Written()));
      }
      var ok := Write(bytes, fate);
      if !ok {
        return Err(Disk);
      }
      r := Ok(handle.Written());
      if handle.Written() - offset >= SYNC_GRAIN {
        ghost var was, k := old(store.disk), store.disk;
        var received := Receive(time, fate);
        KeepsPartialsOn(was, k, store.disk, {Path()}, {Path()}, {Path()});
        if received.Err? {
          r := Err(received.error);
        }
      }
    }

    /** Ends the request: the bytes past the durable point received, or the record as it stands where there are none. */
    method Settle(time: U64, fate: StreamFate) returns (r: Result<UploadRecord, StreamError>)
      requires Valid()
      modifies this`offset, handle, store`disk, store`history, store.uploads, store.uploads.log
      ensures Valid() && handle.hashed == old(handle.hashed)
      ensures KeepsPartials(old(store.disk), store.disk, {Path()})
      ensures OthersKept(
                old(store.uploads.records), old(store.uploads.offered),
                store.uploads.records, store.uploads.offered, id)
      ensures store.disk.dirs == old(store.disk.dirs)
      ensures r == Err(NoUploadHeld) <==>
                id !in old(store.uploads.records) || !Stands(old(store.uploads.records)[id], time)
      ensures r.Ok? ==>
                && id in store.uploads.records && r.value == store.uploads.records[id]
                && r.value.offset == |handle.hashed| == offset
      ensures r.Err? ==> store.uploads.records == old(store.uploads.records) && offset == old(offset)
      ensures r.Ok? && old(offset) == |handle.hashed| ==>
                store.uploads.records == old(store.uploads.records) && store.disk == old(store.disk)
      ensures r.Ok? && old(offset) < |handle.hashed| ==>
                Marked(old(store.uploads.records), r.value, time) && store.uploads.log.stopped.None?
      ensures id in old(store.uploads.records) && Stands(old(store.uploads.records)[id], time) && !old(handle.torn) ==>
                AllWell(fate) && old(store.uploads.log.stopped).None? ==>
                  r.Ok? && !handle.torn && store.uploads.log.stopped.None?
    {
      if id !in store.uploads.records || store.uploads.records[id].principal != principal
         || !Stands(store.uploads.records[id], time) {
        return Err(NoUploadHeld);
      }
      if handle.Written() == offset {
        return Ok(store.uploads.records[id]);
      }
      r := Receive(time, fate);
    }

    /** What a finish asks past the stream's own standing: no live lease on its bytes' hash of another size. */
    ghost predicate FinishAgrees()
      reads this, handle, store`now, store.leases`offered, store.leases.leases`byHash
    {
      SizesAgree(store.LiveNow(), designation, store.hash(handle.hashed), length)
    }

    /**
     * Finishes the upload, the stream consumed: the file is named by the hash of exactly the bytes the stream wrote,
     * and a torn stream finishes nothing.
     */
    method Finish(interval: U64, time: U64, fate: FinishFate) returns (r: FinishResult)
      requires Valid() && handle.Written() == length && FinishAgrees()
      modifies store`disk, store`history, store`rootSynced, store`asideSerial, store`lost, store.asideQueue
      modifies store.leases`gone, store.leases`offered, store.leases.log, store.leases.leases
      modifies store.uploads, store.uploads.log
      ensures r.FailedAt? && !r.step.RecordRetire? ==>
                && store.uploads.records == old(store.uploads.records)
                && store.leases.leases.byHash == old(store.leases.leases.byHash)
      ensures r.FailedAt? && BeforeRename(r.step) ==> Entry(store.disk, Path()) == old(Entry(store.disk, Path()))
      ensures store.uploads.offered == old(store.uploads.offered)
      ensures var was := old(store.uploads.records); store.uploads.records == was || store.uploads.records == was - {id}
      ensures store.Valid()
      ensures store.KeptSince(old(|store.history|), old(store.disk), designation, id, store.hash(handle.hashed))
      ensures r.Finished? ==>
                && !handle.torn && r.hex == store.hash(handle.hashed)
                && Durably(store.disk, designation, r.hex, length, store.hash) && (designation, r.hex) !in store.lost
                && store.leases.log.stopped.None?
                && store.uploads.records == old(store.uploads.records) - {id}
                && store.leases.leases.byHash == old(store.leases.leases.byHash)[
                     LeaseKey(designation, r.hex, principal) :=
                       Lease(principal, designation, r.hex, length, Expiry(time, interval))]
      ensures old(id in store.uploads.records && Stands(store.uploads.records[id], time)) && !handle.torn ==>
                old(store.leases.log.stopped.None? && store.uploads.log.stopped.None?) && AllOk(fate) ==>
                  old(Entry(store.disk, Path()).Some? && store.AsideFree(designation, store.hash(handle.hashed))) ==>
                    r.Finished?
    {
      var hex := store.hash(handle.hashed);
      MayFinishHere();
      r := store.Finish(designation, id, handle.file, hex, principal, length, interval, time, handle.torn, fate);
    }

    lemma MayFinishHere()
      requires Valid() && handle.Written() == length && FinishAgrees()
      ensures !handle.torn ==> store.MayFinish(Path(), handle.file, store.hash(handle.hashed), length)
    {
      if Entry(store.disk, Path()).Some? { EntryIsOnlyIts(store.disk, Path()); }
    }

    // -------------------------------------------------------------- what a crash leaves of it

    lemma SettledIsHeld()
      requires Valid() && id in store.uploads.records && Entry(store.disk, Path()).Some?
      ensures PartialHeld(store.disk, Path(), handle.hashed[..offset])
    {
      store.KeyedByTheirIds();
      assert RecordHeld(store.disk, store.uploads.records[id]);
      EntryIsOnlyIts(store.disk, Path());
      var f := store.disk.files[handle.file];
      assert handle.hashed[..offset] == f.live[..offset];
    }

    /**
     * Whatever a crash leaves of the log and of the disk, the record names the partial, which holds the bytes
     * settled.
     */
    lemma SettledIsLeft(left: Left, found: Bytes)
      requires Valid() && id in store.uploads.records && Entry(store.disk, Path()).Some?
      requires designation in store.disk.rootDurable
      requires MayLeaveByName(store.disk, left) && found in Outcomes(store.uploads.log.disk)
      ensures var records := Fold(Reading(found, store.uploads.log.isObject), store.uploads.c);
              && id in records && records[id].offset >= offset && PathOf(records[id]) == Path() && KeyedById(records)
              && Path() in PartialsIn(left) && handle.hashed[..offset] <= PartialsIn(left)[Path()]
    {
      var u := store.uploads;
      var records := Fold(Reading(found, u.log.isObject), u.c);
      u.CrashKeepsRecords(found);
      SettledIsHeld();
      CrashKeepsPartial(store.disk, left, Path(), handle.hashed[..offset]);
      FoldIsValid(Reading(found, u.log.isObject), u.c);
      forall other | other in records ensures records[other].id == other {
        assert u.c.valid(other, records[other]);
      }
    }

    /**
     * A settled offset survives a crash where the partial's name stands and the designation's entry in the root is
     * durable: whatever the crash leaves, and whatever removals the reconciliation at the next open is refused, an
     * upload that still stands keeps its record at or past the offset settled, over a partial of that length that
     * begins with the bytes settled.
     */
    lemma SettledOffsetSurvives(
      left: Left, found: Bytes, pinned: seq<string>, time: U64, fate: PartialKey -> RemoveFate)
      requires Valid() && id in store.uploads.records && Entry(store.disk, Path()).Some?
      requires designation in store.disk.rootDurable
      requires MayLeaveByName(store.disk, left) && found in Outcomes(store.uploads.log.disk)
      ensures var records, files := Fold(Reading(found, store.uploads.log.isObject), store.uploads.c), PartialsIn(left);
              && id in records
              && (Stands(records[id], time) ==>
                    var kept := RecordsAfter(files, records, time, fate);
                    var after := FilesAfter(files, records, pinned, time, fate);
                    && id in kept && kept[id].offset >= offset
                    && Path() in after && |after[Path()]| == kept[id].offset
                    && handle.hashed[..offset] <= after[Path()])
    {
      SettledIsLeft(left, found);
      var records, files := Fold(Reading(found, store.uploads.log.isObject), store.uploads.c), PartialsIn(left);
      if Stands(records[id], time) {
        RefusedRemovalsCostNoUpload(files, records, pinned, time, fate, id);
      }
    }
  }

  /** A stream of another upload stands through an act: nothing of its file, its name or its record moved. */
  twostate lemma OtherStreamStands(s: Stream, store: Store, p: PartialKey, id: UploadId)
    requires s.store == store && old(s.Fits() && store.Valid()) && store.Valid() && unchanged(s) && unchanged(s.handle)
    requires s.id != id && p.id == id && KeepsPartials(old(store.disk), store.disk, {p})
    requires OthersKept(
               old(store.uploads.records), old(store.uploads.offered), store.uploads.records, store.uploads.offered, id)
    ensures s.Valid()
  {
    OthersStay(
      old(store.disk), store.disk, {p}, s.Path(), s.handle.file, s.handle.hashed, s.handle.torn, s.offset);
    OthersMove(
      old(store.uploads.records), old(store.uploads.offered), store.uploads.records, store.uploads.offered, s.Whose(),
      s.offset, id);
  }

  /**
   * So does one whose upload is ended or expired under it, its file with no name: its acts answer that no upload is
   * held, and reach nothing a crash or an open would.
   */
  twostate lemma EndedStreamStands(s: Stream, store: Store)
    requires s.store == store && old(s.Fits() && store.Valid()) && store.Valid() && unchanged(s) && unchanged(s.handle)
    requires KeepsFiles(old(store.disk), store.disk) && NameKeptOrGone(old(store.disk), store.disk, s.Path())
    requires var was := old(store.uploads.records);
             store.uploads.records == was || store.uploads.records == was - {s.id}
    requires store.uploads.offered == old(store.uploads.offered)
    ensures s.Valid()
  {
    assert OnlyIts(store.disk, s.Path(), s.handle.file);
  }

  /** Resumes an upload at its record's offset: a longer partial cut back, a shorter one refused and never extended. */
  method Resume(store: Store, principal: string, id: UploadId, at: U64, time: U64, fate: ResumeFate)
    returns (r: Result<Stream, StreamError>)
    requires store.Valid()
    modifies store`disk, store`history
    ensures store.Valid() && store.disk.dirs == old(store.disk.dirs)
    ensures r.Err? ==> r.error.NoUploadHeld? || r.error.NotAtOffset? || r.error.Disk?
    ensures id in store.uploads.records ==>
              KeepsPartials(old(store.disk), store.disk, {PathOf(store.uploads.records[id])})
    ensures r == Err(NoUploadHeld) <==>
              id !in store.uploads.records || store.uploads.records[id].principal != principal
              || !Stands(store.uploads.records[id], time)
    ensures r.Err? && r.error.NotAtOffset? ==>
              id in store.uploads.records && at != store.uploads.records[id].offset
              && r.error.recorded == store.uploads.records[id].offset
    ensures r.Err? && !r.error.Disk? ==> store.disk == old(store.disk)
    ensures id in store.uploads.records ==>
              match old(PartialAt(store.disk, PathOf(store.uploads.records[id])))
              case None => r.Err? && store.disk == old(store.disk)
              case Some(bytes) =>
                && (|bytes| < store.uploads.records[id].offset ==> r.Err? && store.disk == old(store.disk))
                && (r.Ok? ==>
                      && at == store.uploads.records[id].offset <= |bytes| && r.value.handle.hashed == bytes[..at]
                      && PartialAt(store.disk, r.value.Path()) == Some(bytes[..at]))
    ensures r.Ok? ==>
              && fresh(r.value) && fresh(r.value.handle)
              && r.value.Valid() && r.value.store == store && r.value.id == id
              && r.value.offset == at == r.value.handle.Written() && !r.value.handle.torn
              && r.value.Path() == PathOf(store.uploads.records[id])
              && r.value.length == store.uploads.records[id].length && r.value.principal == principal
    ensures r.Err? && r.error.Disk? ==>
              || fate != ResumeFate(true, true, true, true)
              || old(PartialAt(store.disk, PathOf(store.uploads.records[id]))).None?
              || (var record := store.uploads.records[id];
                  |old(PartialAt(store.disk, PathOf(record))).value| < record.offset)
  {
    if id !in store.uploads.records || store.uploads.records[id].principal != principal
       || !Stands(store.uploads.records[id], time) {
      return Err(NoUploadHeld);
    }
    var record := store.uploads.records[id];
    if at != record.offset {
      return Err(NotAtOffset(record.offset));
    }
    var found := PartialAt(store.disk, PathOf(record));
    if found.None? || !fate.openOk || |found.value| < at {
      return Err(Disk);
    }
    var file := Entry(store.disk, PathOf(record)).value;
    store.KeyedByTheirIds();
    var stream := OpenAt(store, record, file, fate);
    return if stream.Some? then Ok(stream.value) else Err(Disk);
  }

  /** The partial opened at its record's offset: cut back where it is longer, its bytes read and hashed. */
  method OpenAt(store: Store, record: UploadRecord, file: nat, fate: ResumeFate) returns (r: Option<Stream>)
    requires store.Valid() && record.id in store.uploads.records && store.uploads.records[record.id] == record
    requires Entry(store.disk, PathOf(record)) == Some(file) && file in store.disk.files
    requires record.offset <= |store.disk.files[file].live|
    modifies store`disk, store`history
    ensures store.Valid() && KeepsPartials(old(store.disk), store.disk, {PathOf(record)})
    ensures store.disk.dirs == old(store.disk.dirs)
    ensures fate.cutOk && fate.syncOk && fate.readOk ==> r.Some?
    ensures r.Some? ==>
              && fresh(r.value) && fresh(r.value.handle) && r.value.Valid() && r.value.store == store
              && r.value.Whose() == Owner(record.id, record.principal, record.designation, record.length)
              && r.value.offset == record.offset && !r.value.handle.torn
              && r.value.handle.hashed == old(store.disk.files)[file].live[..record.offset]
              && PartialAt(store.disk, r.value.Path()) == Some(r.value.handle.hashed)
  {
    var cut := CutToOffset(store, record, file, fate);
    if !cut || !fate.readOk {
      return None;
    }
    var handle := new Handle(file, store.disk.files[file].live);
    var stream := new Stream(store, handle, record.id);
    return Some(stream);
  }

  /** A partial longer than its record cut back to it, and the cut synced; one already there left as it is. */
  method CutToOffset(store: Store, record: UploadRecord, file: nat, fate: ResumeFate) returns (ok: bool)
    requires store.Valid() && record.id in store.uploads.records && store.uploads.records[record.id] == record
    requires Entry(store.disk, PathOf(record)) == Some(file) && file in store.disk.files
    requires record.offset <= |store.disk.files[file].live|
    modifies store`disk, store`history
    ensures store.Valid() && KeepsPartials(old(store.disk), store.disk, {PathOf(record)})
    ensures store.disk.dirs == old(store.disk.dirs) && file in store.disk.files
    ensures ok ==> store.disk.files[file].live == old(store.disk.files)[file].live[..record.offset]
    ensures fate.cutOk && fate.syncOk ==> ok
  {
    var p := PathOf(record);
    assert RecordHeld(store.disk, record);
    EntryIsOnlyIts(store.disk, p);
    CutKeeps(store.disk.files[file], record.offset);
    store.KeyedByTheirIds();
    if |store.disk.files[file].live| == record.offset {
      assert store.disk.files[file].live[..record.offset] == store.disk.files[file].live;
      return true;
    }
    if !fate.cutOk {
      return false;
    }
    ghost var was := store.disk;
    FileKeepsPartials(store.disk, p, file, CutTo(store.disk.files[file], record.offset));
    store.ChangeFile(p, file, CutTo(store.disk.files[file], record.offset));
    ghost var k := store.disk;
    if fate.syncOk {
      store.SyncPartial(p, file);
    } else {
      store.FailSync(p, file);
    }
    KeepsPartialsOn(was, k, store.disk, {p}, {p}, {p});
    return fate.syncOk;
  }
}

/**
 * A deposit from its upload's creation to its lease, where no act fails, over any store that serves; and a store
 * served over an empty root, so that there is one.
 */
module Deposits {
  import opened Wrappers
  import opened Clocks
  import opened BlobNames
  import opened LogLines
  import opened Logs
  import opened KeyedLogs
  import opened UploadLogs
  import opened Leases
  import opened BlobDisks
  import opened PartialPaths
  import opened Partials
  import opened Finishes
  import opened Instants
  import opened Stores
  import opened Streams
  import opened Spellings

  const APPEND_OK := AppendFate(true, 0, true, true, true, true)
  const CREATE_OK := CreateFate(true, true, true, true)
  const STREAM_OK := StreamFate(0, true, true, APPEND_OK)
  const FINISH_OK := FinishFate(true, true, true, true, true, APPEND_OK, APPEND_OK)

  /** A new upload resumed at its first byte. */
  method ResumeNew(s: Store, o: Owner, ghost interval: U64, time: U64) returns (stream: Stream)
    requires s.Valid() && o.id in s.uploads.records && time < Expiry(time, interval)
    requires s.uploads.records[o.id] ==
               UploadRecord(o.id, o.principal, o.designation, o.length, 0, interval, Expiry(time, interval))
    requires PartialAt(s.disk, PartialKey(o.designation, o.id)) == Some([])
    modifies s`disk, s`history
    ensures fresh(stream) && fresh(stream.handle) && stream.store == s && stream.Valid() && stream.Whose() == o
    ensures stream.offset == 0 && stream.handle.hashed == [] && !stream.handle.torn
    ensures KeepsPartials(old(s.disk), s.disk, {PartialKey(o.designation, o.id)}) && s.disk.dirs == old(s.disk.dirs)
  {
    var resumed := Resume(s, o.principal, o.id, 0, time, ResumeFate(true, true, true, true));
    stream := resumed.value;
  }

  /** A stream's whole length appended and settled. */
  method Fill(stream: Stream, bytes: Bytes, ghost interval: U64, time: U64)
    requires stream.Valid() && stream.store.uploads.log.stopped.None? && |bytes| == stream.length
    requires stream.offset == 0 && stream.handle.hashed == [] && !stream.handle.torn && time < Expiry(time, interval)
    requires var records, id := stream.store.uploads.records, stream.id;
             id in records && records[id].interval == interval && Stands(records[id], time)
    modifies stream`offset, stream.handle, stream.store`disk, stream.store`history
    modifies stream.store.uploads, stream.store.uploads.log
    ensures stream.Valid() && stream.handle.hashed == bytes && stream.offset == |bytes| && !stream.handle.torn
    ensures var records, id := stream.store.uploads.records, stream.id; id in records && Stands(records[id], time)
    ensures var u := stream.store.uploads;
            u.log.stopped.None? && OthersKept(old(u.records), old(u.offered), u.records, u.offered, stream.id)
    ensures KeepsPartials(old(stream.store.disk), stream.store.disk, {stream.Path()})
    ensures stream.store.disk.dirs == old(stream.store.disk.dirs)
  {
    ghost var was, p := stream.store.disk, stream.Path();
    assert [] + bytes == bytes;
    var appended := stream.Append(bytes, time, STREAM_OK);
    ghost var k := stream.store.disk;
    var settled := stream.Settle(time, STREAM_OK);
    KeepsPartialsOn(was, k, stream.store.disk, {p}, {p}, {p});
  }

  /** A stream at its length, its bytes settled, from the first byte of a new upload. */
  method Received(s: Store, o: Owner, bytes: Bytes, interval: U64, time: U64) returns (stream: Stream)
    requires s.Valid() && s.uploads.log.stopped.None? && DesignationOk(o.designation) && |bytes| == o.length
    requires o.id !in s.uploads.records && Entry(s.disk, PartialKey(o.designation, o.id)).None?
    requires time < Expiry(time, interval)
    modifies s`disk, s`history, s.uploads, s.uploads.log
    ensures fresh(stream) && fresh(stream.handle) && stream.store == s && stream.Valid() && stream.Whose() == o
    ensures stream.handle.hashed == bytes && stream.offset == |bytes| && !stream.handle.torn
    ensures o.id in s.uploads.records && Stands(s.uploads.records[o.id], time) && s.uploads.log.stopped.None?
    ensures OthersKept(old(s.uploads.records), old(s.uploads.offered), s.uploads.records, s.uploads.offered, o.id)
    ensures KeepsPartials(old(s.disk), s.disk, {stream.Path()}) && SameBeside(old(s.disk), s.disk)
    ensures Entry(s.disk, stream.Path()).Some?
  {
    ghost var was, k0, offers := s.uploads.records, s.disk, s.uploads.offered;
    var made := s.CreateUpload(
      o.id, o.principal, o.designation, o.length, interval, time, CREATE_OK, APPEND_OK, RemoveOk);
    ghost var past, k, left := s.uploads.records, s.disk, s.uploads.offered;
    stream := FillNew(s, o, bytes, interval, time);
    OthersKeptOn(was, offers, past, left, s.uploads.records, s.uploads.offered, o.id);
    KeptAll(k0, k, s.disk, stream.Path());
  }

  lemma OthersKeptOn(
    a: RecordMap, x: UploadOffers, b: RecordMap, y: UploadOffers, c: RecordMap, z: UploadOffers, id: UploadId)
    requires OthersKept(a, x, b, y, id) && OthersKept(b, y, c, z, id)
    ensures OthersKept(a, x, c, z, id)
  {
    forall o | o != id ensures Lookup(c, o) == Lookup(a, o) {
      assert Lookup(c, o) == Lookup(b, o) == Lookup(a, o);
    }
  }

  lemma KeptAll(a: BlobDisk, b: BlobDisk, c: BlobDisk, p: PartialKey)
    requires KeepsPartials(a, b, {p}) && KeepsPartials(b, c, {p}) && SameBeside(a, b) && c.dirs == b.dirs
    ensures KeepsPartials(a, c, {p}) && SameBeside(a, c)
  {
    KeepsPartialsOn(a, b, c, {p}, {p}, {p});
    SameBesideOn(a, b, c);
  }

  method FillNew(s: Store, o: Owner, bytes: Bytes, ghost interval: U64, time: U64) returns (stream: Stream)
    requires s.Valid() && s.uploads.log.stopped.None? && |bytes| == o.length && time < Expiry(time, interval)
    requires o.id in s.uploads.records
    requires s.uploads.records[o.id] ==
               UploadRecord(o.id, o.principal, o.designation, o.length, 0, interval, Expiry(time, interval))
    requires PartialAt(s.disk, PartialKey(o.designation, o.id)) == Some([])
    modifies s`disk, s`history, s.uploads, s.uploads.log
    ensures fresh(stream) && fresh(stream.handle) && stream.store == s && stream.Valid() && stream.Whose() == o
    ensures stream.handle.hashed == bytes && stream.offset == |bytes| && !stream.handle.torn
    ensures o.id in s.uploads.records && Stands(s.uploads.records[o.id], time) && s.uploads.log.stopped.None?
    ensures OthersKept(old(s.uploads.records), old(s.uploads.offered), s.uploads.records, s.uploads.offered, o.id)
    ensures KeepsPartials(old(s.disk), s.disk, {stream.Path()}) && s.disk.dirs == old(s.disk.dirs)
  {
    ghost var was := s.disk;
    stream := ResumeNew(s, o, interval, time);
    ghost var k := s.disk;
    Fill(stream, bytes, interval, time);
    KeepsPartialsOn(was, k, s.disk, {stream.Path()}, {stream.Path()}, {stream.Path()});
  }

  lemma OneRecordLess(was: RecordMap, offers: UploadOffers, records: RecordMap, offered: UploadOffers, id: UploadId)
    requires OthersKept(was, offers, records, offered, id) && id !in was
    ensures records - {id} == was
  {
    forall o ensures o in records - {id} <==> o in was {
      assert Lookup(records, o) == Lookup(was, o) || o == id;
    }
    forall o | o in was ensures (records - {id})[o] == was[o] {
      assert Lookup(records, o) == Lookup(was, o);
    }
  }

  /**
   * A whole deposit where nothing fails, over any store that serves with both logs taking appends: the file of exactly
   * these bytes stands durably under their hash, leased to its principal, and no other upload moved.
   */
  method Deposit(s: Store, o: Owner, bytes: Bytes, interval: U64, lifetime: U64, time: U64) returns (r: FinishResult)
    requires s.Valid() && s.leases.log.stopped.None? && s.uploads.log.stopped.None?
    requires DesignationOk(o.designation) && |bytes| == o.length && time < Expiry(time, interval)
    requires o.id !in s.uploads.records && Entry(s.disk, PartialKey(o.designation, o.id)).None?
    requires SizesAgree(s.LiveNow(), o.designation, s.hash(bytes), |bytes|)
    requires s.AsideFree(o.designation, s.hash(bytes))
    modifies s`disk, s`history, s`rootSynced, s`asideSerial, s`lost, s.asideQueue
    modifies s.leases`gone, s.leases`offered, s.leases.log, s.leases.leases, s.uploads, s.uploads.log
    ensures s.Valid() && r == Finished(s.hash(bytes)) && Durably(s.disk, o.designation, r.hex, |bytes|, s.hash)
    ensures var l := Lease(o.principal, o.designation, r.hex, o.length, Expiry(time, lifetime));
            s.leases.leases.byHash == old(s.leases.leases.byHash)[KeyOf(l) := l]
    ensures s.uploads.records == old(s.uploads.records) && s.leases.log.stopped.None?
  {
    ghost var was, offers, k := s.uploads.records, s.uploads.offered, s.disk;
    var stream := Received(s, o, bytes, interval, time);
    OneRecordLess(was, offers, s.uploads.records, s.uploads.offered, o.id);
    AsideStaysUnnamed(k, s.disk, o.designation, s.hash(bytes), s.asideSerial);
    r := FinishReceived(stream, lifetime, time);
  }

  /** A stream at its length finished where nothing fails. */
  method FinishReceived(stream: Stream, lifetime: U64, time: U64) returns (r: FinishResult)
    requires stream.Valid() && |stream.handle.hashed| == stream.length && stream.FinishAgrees() && !stream.handle.torn
    requires var s := stream.store; s.leases.log.stopped.None? && s.uploads.log.stopped.None?
    requires var records, id := stream.store.uploads.records, stream.id; id in records && Stands(records[id], time)
    requires Entry(stream.store.disk, stream.Path()).Some?
    requires stream.store.AsideFree(stream.designation, stream.store.hash(stream.handle.hashed))
    modifies stream.store`disk, stream.store`history, stream.store`rootSynced, stream.store`asideSerial
    modifies stream.store`lost, stream.store.asideQueue, stream.store.uploads, stream.store.uploads.log
    modifies stream.store.leases`gone, stream.store.leases`offered, stream.store.leases.log, stream.store.leases.leases
    ensures stream.store.Valid() && r == Finished(stream.store.hash(stream.handle.hashed))
    ensures stream.store.leases.log.stopped.None?
    ensures Durably(stream.store.disk, stream.designation, r.hex, stream.length, stream.store.hash)
    ensures var l := Lease(stream.principal, stream.designation, r.hex, stream.length, Expiry(time, lifetime));
            stream.store.leases.leases.byHash == old(stream.store.leases.leases.byHash)[KeyOf(l) := l]
    ensures stream.store.uploads.records == old(stream.store.uploads.records) - {stream.id}
  {
    r := stream.Finish(lifetime, time, FINISH_OK);
  }

  lemma AsideStaysUnnamed(k: BlobDisk, after: BlobDisk, d: string, hex: string, serial: nat)
    requires SameBeside(k, after) && AsideUnnamed(k, d, hex, serial)
    ensures AsideUnnamed(after, d, hex, serial)
  {
    assert NameAt(after, d, Hex(hex)) == NameAt(k, d, Hex(hex));
    assert NameAt(after, d, Aside(hex, serial)) == NameAt(k, d, Aside(hex, serial));
  }

  // ---------------------------------------------------------------- a store that serves

  function HexDigit(n: nat): char
    requires n < 16
  {
    if n < 10 then '0' + n as char else 'a' + (n - 10) as char
  }

  /** A hash of two hex digits: poor, and enough for what a store asks of one. */
  function LengthHash(b: Bytes): string {
    [HexDigit(|b| / 16 % 16), HexDigit(|b| % 16)]
  }

  lemma LengthHashIsHex()
    ensures NamesAreHex(LengthHash)
  {
  }

  /** Both logs opened where none stands, over an empty root: a store that serves, with nothing in it. */
  method ServeEmpty(horizon: U64) returns (s: Store)
    ensures fresh(s) && fresh(s.leases) && fresh(s.leases.log) && fresh(s.leases.leases) && fresh(s.asideQueue)
    ensures fresh(s.uploads) && fresh(s.uploads.log) && s.Valid() && s.hash == LengthHash
    ensures s.disk == BlobDisk(map[], map[], {}, 0, {}) && s.now == 0 && s.asideSerial == 0
    ensures s.leases.leases.byHash == map[] && s.uploads.records == map[] && s.leases.offered == {}
    ensures s.leases.log.stopped.None? && s.uploads.log.stopped.None?
  {
    SpelledLeasesAreGood();
    SpelledRecordsAreGood();
    LengthHashIsHex();
    var first := new Log.Open(None, IsNumbers);
    first.DirectorySynced();
    var second := new Log.Open(None, IsNumbers);
    second.DirectorySynced();
    var leases := new LeaseLog(SpelledLeases(), first, [], horizon);
    var uploads := new UploadRecords(SpelledRecords(), second, []);
    s := new Store(LengthHash, leases, uploads, BlobDisk(map[], map[], {}, 0, {}), 0, {});
  }

  lemma AnythingFits(s: Store)
    requires s.disk == BlobDisk(map[], map[], {}, 0, {}) && s.leases.leases.byHash == map[] && s.leases.offered == {}
    ensures forall p :: Entry(s.disk, p).None?
    ensures forall d, hex, size :: SizesAgree(s.LiveNow(), d, hex, size)
    ensures forall d, hex :: s.AsideFree(d, hex)
  {
  }

  /** The same, the clock moved on: anything may be deposited there. */
  method ServeEmptyAt(horizon: U64, ghost time: U64) returns (s: Store)
    ensures fresh(s) && fresh(s.leases) && fresh(s.leases.log) && fresh(s.leases.leases) && fresh(s.asideQueue)
    ensures fresh(s.uploads) && fresh(s.uploads.log) && s.Valid() && s.now == time
    ensures s.leases.leases.byHash == map[] && s.uploads.records == map[]
    ensures s.leases.log.stopped.None? && s.uploads.log.stopped.None?
    ensures forall p :: Entry(s.disk, p).None?
    ensures forall d, hex, size :: SizesAgree(s.LiveNow(), d, hex, size)
    ensures forall d, hex :: s.AsideFree(d, hex)
  {
    s := ServeEmpty(horizon);
    s.Tick(time);
    AnythingFits(s);
  }

  /** And one that holds a leased file, of a deposit made there. */
  method ServeOneDeposit(o: Owner, bytes: Bytes, interval: U64, lifetime: U64, time: U64)
    returns (s: Store, ghost l: Lease)
    requires DesignationOk(o.designation) && |bytes| == o.length
    requires time < Expiry(time, interval) && time < Expiry(time, lifetime)
    ensures fresh(s) && fresh(s.leases) && fresh(s.leases.log) && fresh(s.leases.leases)
    ensures s.Valid() && s.leases.leases.byHash == map[KeyOf(l) := l] && s.leases.log.stopped.None? && s.now == time
    ensures l == Lease(o.principal, o.designation, s.hash(bytes), o.length, Expiry(time, lifetime))
    ensures StandsFor(s.disk, l, s.hash)
  {
    s := ServeEmptyAt(1000, time);
    var r := Deposit(s, o, bytes, interval, lifetime, time);
    l := Lease(o.principal, o.designation, r.hex, o.length, Expiry(time, lifetime));
  }

  /**
   * The edge is reached from there: the deposit's lease lapses, another on its file is left whole in the log by an
   * append that failed, and the pruner takes the file.
   */
  method StrandOne(o: Owner, bytes: Bytes, interval: U64, lifetime: U64, time: U64, later: U64)
    returns (s: Store, ghost l: Lease)
    requires DesignationOk(o.designation) && |bytes| == o.length && time < Expiry(time, interval)
    requires time < Expiry(time, lifetime) <= later < U64_MAX
    ensures s.Valid() && Live(l, s.now) && s.MayStrand(l)
  {
    ghost var first;
    s, first := ServeOneDeposit(o, bytes, interval, lifetime, time);
    s.Tick(later);
    l := first.(expires := U64_MAX);
    StrandALease(s, Lease(o.principal, o.designation, s.hash(bytes), o.length, U64_MAX));
  }
}

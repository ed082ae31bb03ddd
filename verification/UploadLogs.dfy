/** The upload records: a map in memory beside its log, every figure that must be durable synced with its line. */
module UploadLogs {
  import opened Wrappers
  import opened LogLines
  import opened Logs
  import opened KeyedLogs
  import opened Clocks
  import opened BlobNames

  /** An identifier's 128 bits. */
  type UploadId = id: nat | id < 0x1_0000_0000_0000_0000_0000_0000_0000_0000

  datatype UploadRecord = UploadRecord(
    id: UploadId, principal: string, designation: string, length: U64, offset: U64, interval: U64, expires: U64)

  predicate Stands(r: UploadRecord, now: U64) {
    now < r.expires
  }

  /**
   * What a line of the upload log must hold to be read: its own identifier, a designation the name check admits, an
   * offset within its length.
   */
  predicate ReadableRecord(id: UploadId, r: UploadRecord) {
    r.id == id && DesignationOk(r.designation) && r.offset <= r.length
  }

  type UploadCodec = Codec<UploadId, UploadRecord>

  type RecordMap = map<UploadId, UploadRecord>

  ghost predicate GoodUploadCodec(c: UploadCodec) {
    && GoodCodec(c) && c.drops
    && forall id: UploadId, r: UploadRecord {:trigger c.valid(id, r)} :: c.valid(id, r) <==> ReadableRecord(id, r)
  }

  datatype BlobError = NoUpload | Io

  lemma LeastExists(ids: set<UploadId>, some: UploadId)
    requires some in ids
    ensures exists m :: m in ids && forall x :: x in ids ==> m <= x
    decreases some
  {
    if y :| y in ids && y < some { LeastExists(ids, y); }
  }

  method LeastOf(ids: set<UploadId>) returns (least: UploadId)
    requires ids != {}
    ensures least in ids && forall x :: x in ids ==> least <= x
  {
    ghost var some :| some in ids;
    LeastExists(ids, some);
    least :| least in ids && forall x :: x in ids ==> least <= x;
  }

  predicate Ascending(ids: seq<UploadId>) {
    forall i, j :: 0 <= i < j < |ids| ==> ids[i] < ids[j]
  }

  lemma AscendsPast(ids: seq<UploadId>, next: UploadId)
    requires Ascending(ids) && forall id :: id in ids ==> id < next
    ensures Ascending(ids + [next])
  {
    var r := ids + [next];
    forall i, j | 0 <= i < j < |r| ensures r[i] < r[j] {
      if j == |ids| { assert ids[i] in ids; }
    }
  }

  /** The identifiers in order: the compacted log's line order. */
  method SortedIds(keys: set<UploadId>) returns (ids: seq<UploadId>)
    ensures |ids| == |keys| && forall id :: id in ids <==> id in keys
    ensures Ascending(ids)
  {
    ids := [];
    var rest := keys;
    while rest != {}
      invariant rest <= keys && |ids| + |rest| == |keys|
      invariant forall id :: id in keys <==> id in ids || id in rest
      invariant forall id, x :: id in ids && x in rest ==> id < x
      invariant Ascending(ids)
      decreases |rest|
    {
      var least := LeastOf(rest);
      AscendsPast(ids, least);
      ids := ids + [least];
      rest := rest - {least};
    }
  }

  class UploadRecords {
    const c: UploadCodec
    const log: Log
    var records: RecordMap
    /** Identifiers retired in this process whose retirement no held line spells. */
    ghost var gone: set<UploadId>
    /** Records no append answered whose line one left whole as the log stopped. */
    ghost var offered: set<(UploadId, UploadRecord)>

    ghost predicate Valid()
      reads this, log
    {
      && log.Valid() && (log.stopped.None? ==> log.Settled())
      && GoodUploadCodec(c) && log.isObject == c.isObject
      && Agrees(log.promise, records, gone, offered, c) && (log.stopped.None? ==> offered == {})
    }

    /** Opens on the values the log's own open read: the fold of its lines, nothing more. */
    constructor (c: UploadCodec, log: Log, values: seq<Bytes>)
      requires GoodUploadCodec(c) && log.Valid() && log.stopped.None? && log.Settled() && log.isObject == c.isObject
      requires values == log.promise.held && log.promise.synced == |values|
      ensures Valid() && this.c == c && this.log == log && records == Fold(values, c)
    {
      this.c, this.log := c, log;
      var folded, _ := FoldLines(values, c);
      this.records := folded;
      this.gone, this.offered := {}, {};
      FoldIsValid(values, c);
    }

    /** No record's offset passes its length, in memory or in whatever a crash leaves. */
    lemma OffsetsStayInRange(id: UploadId)
      requires Valid() && id in records
      ensures records[id].id == id && DesignationOk(records[id].designation) && records[id].offset <= records[id].length
    {
      assert c.valid(id, records[id]);
    }

    /** Whatever a crash leaves still holds every upload this process holds. */
    lemma CrashKeepsRecords(found: Bytes)
      requires Valid() && found in Outcomes(log.disk)
      ensures Covers(Reading(found, log.isObject), records, offered, c)
    {
      CoveredByKept(log.promise, records, gone, offered, c, Reading(found, log.isObject));
    }

    /** Writes a record as the next line, synced, and only then moves the map. */
    method Write(record: UploadRecord, fate: AppendFate) returns (r: AppendResult)
      requires Valid() && ReadableRecord(record.id, record)
      modifies this, log
      ensures Valid()
      ensures r == Appended ==> records == old(records)[record.id := record]
      ensures r != Appended ==> records == old(records)
      ensures r == Appended ==> log.stopped.None? && offered == {} && log.promise.synced == |log.promise.held|
      ensures r == Refused <==> old(log.stopped).Some?
      ensures old(log.stopped).None? && fate.statOk && fate.writeOk && fate.syncOk ==> r == Appended
      ensures var whole := LandsWhole(c.render(Put(record.id, record)), fate);
              offered == if r == FailedAndStopped && whole then old(offered) + {(record.id, record)} else old(offered)
    {
      var line := c.render(Put(record.id, record));
      ghost var p := log.promise;
      r := log.AppendBy(line, true, fate);
      AgreesPut(p, log.promise, records, gone, offered, c, record.id, record, r);
      match r {
        case Appended =>
          records := records[record.id := record];
          gone := gone - {record.id};
        case FailedAndStopped =>
          if log.promise.pending != [] {
            offered := offered + {(record.id, record)};
          }
        case Refused =>
        case Failed =>
      }
    }

    /** Retires an upload: the map's entry first, then the line, its durability left to the system. */
    method Retire(id: UploadId, fate: AppendFate) returns (r: AppendResult)
      requires Valid()
      modifies this, log
      ensures Valid()
      ensures records == old(records) - {id}
      ensures id !in old(records) ==>
                r == Appended && log.promise == old(log.promise) && log.stopped == old(log.stopped)
      ensures old(log.stopped).None? && fate.statOk && fate.writeOk ==> r == Appended && log.stopped.None?
      ensures offered == old(offered)
      ensures r == Appended && id in old(records) ==> log.promise.held == old(log.promise.held) + [c.render(Drop(id))]
    {
      if id !in records {
        return Appended;
      }
      ghost var was := records;
      records := records - {id};
      var line := c.render(Drop(id));
      ghost var p := log.promise;
      r := log.AppendBy(line, false, fate);
      AgreesDropped(p, log.promise, was, gone, offered, c, id, r);
      if r != Appended {
        gone := gone + {id};
      }
    }

    /** Creates an upload's record: offset zero, its expiry the upload's own interval past now. */
    method Create(
      id: UploadId, principal: string, designation: string, length: U64, interval: U64, now: U64, fate: AppendFate)
      returns (made: Option<UploadRecord>)
      requires Valid() && DesignationOk(designation)
      modifies this, log
      ensures Valid()
      ensures made.Some? ==>
                && made.value == UploadRecord(id, principal, designation, length, 0, interval, Expiry(now, interval))
                && records == old(records)[id := made.value] && offered == {} && log.stopped.None?
      ensures made.None? ==> records == old(records)
      ensures old(log.stopped).Some? ==> made.None?
      ensures old(log.stopped).None? && fate.statOk && fate.writeOk && fate.syncOk ==> made.Some?
      ensures forall p :: p in offered && p.0 != id ==> p in old(offered)
    {
      var record := UploadRecord(id, principal, designation, length, 0, interval, Expiry(now, interval));
      var r := Write(record, fate);
      made := if r == Appended then Some(record) else None;
    }

    /** Marks bytes received: the offset set, the expiry re-fixed the upload's own interval past now, all else kept. */
    method MarkReceived(principal: string, id: UploadId, offset: U64, now: U64, fate: AppendFate)
      returns (marked: Result<UploadRecord, BlobError>)
      requires Valid()
      requires id in records && records[id].principal == principal ==> offset <= records[id].length
      modifies this, log
      ensures Valid()
      ensures marked == Err(NoUpload) <==> id !in old(records) || old(records)[id].principal != principal
      ensures marked.Ok? ==>
                && marked.value == old(records)[id].(
                     offset := offset, expires := Expiry(now, old(records)[id].interval))
                && records == old(records)[id := marked.value] && log.promise.synced == |log.promise.held|
                && offered == {} && log.stopped.None?
      ensures marked.Err? ==> records == old(records)
      ensures marked == Err(NoUpload) ==> offered == old(offered)
      ensures marked.Err? && marked.error.Io? ==>
                old(log.stopped).Some? || !(fate.statOk && fate.writeOk && fate.syncOk)
      ensures offered == old(offered) || (id in old(records) &&
                offered == old(offered)
                  + {(id, old(records)[id].(offset := offset, expires := Expiry(now, old(records)[id].interval)))})
    {
      if id !in records || records[id].principal != principal {
        return Err(NoUpload);
      }
      OffsetsStayInRange(id);
      var next := records[id].(offset := offset, expires := Expiry(now, records[id].interval));
      var r := Write(next, fate);
      marked := if r == Appended then Ok(next) else Err(Io);
    }

    /**
     * Sets a record back to a shorter length, its expiry kept; it raises nothing, and writes nothing where it lowers
     * nothing.
     */
    method SetBack(id: UploadId, offset: U64, fate: AppendFate) returns (ok: bool)
      requires Valid()
      modifies this, log
      ensures Valid()
      ensures ok ==> records == if id in old(records) && offset < old(records)[id].offset
                                then old(records)[id := old(records)[id].(offset := offset)] else old(records)
      ensures !ok ==> records == old(records)
      ensures !(id in old(records) && offset < old(records)[id].offset) ==> ok && log.promise == old(log.promise)
      ensures old(log.stopped).None? && AppendOk(fate) ==> ok && log.stopped.None?
    {
      if id !in records || offset >= records[id].offset {
        return true;
      }
      OffsetsStayInRange(id);
      var next := records[id].(offset := offset);
      var r := Write(next, fate);
      ok := r == Appended;
    }

    /** The log rewritten to the current records, or left where its count says it holds nothing else. */
    method Compact(fate: CompactFate) returns (r: CompactResult)
      requires Valid()
      modifies this`gone, this`offered, log
      ensures Valid() && offered == (if Alone(r, log.promise) then {} else old(offered))
      ensures CompactOk(fate) ==> r == LeftAsIs || r.Compacted?
      ensures r == LeftAsIs || r.Compacted? ==> log.stopped.None? && HoldsExactly(log.promise.held, records, c)
      ensures r.Compacted? ==> log.promise.synced == |log.promise.held|
    {
      ghost var held, was := log.promise.held, gone;
      var ids := SortedIds(records.Keys);
      var current := Rendered(ids, records, c);
      RenderedHoldsExactly(ids, records, c);
      r := RewriteTo(current, fate);
      if r == LeftAsIs { CountDecides(held, records, was, c); }
    }

    method RewriteTo(current: seq<Bytes>, fate: CompactFate) returns (r: CompactResult)
      requires Valid() && Fold(current, c) == records && Records(current, c.isObject)
      modifies this`gone, this`offered, log
      ensures Valid() && offered == (if Alone(r, log.promise) then {} else old(offered))
      ensures CompactOk(fate) ==> r == LeftAsIs || r.Compacted?
      ensures r == LeftAsIs ==> log.stopped.None? && log.promise == old(log.promise) && |current| == |log.promise.held|
      ensures r.Compacted? ==> log.stopped.None? && log.promise == Promise(current, |current|, [], {})
    {
      AgreesRewritten(log.promise, records, gone, offered, c, current);
      r := log.Compact(current, fate);
      if r.Compacted? || r == StoppedPast {
        gone := {};
      }
      if Alone(r, log.promise) {
        offered := {};
      }
    }

    /** The runtime compaction, where the log has stopped or passed its trigger. */
    method CompactIfPast(trigger: nat, minLines: nat, fate: CompactFate) returns (r: Option<CompactResult>)
      requires Valid()
      modifies this`gone, this`offered, log
      ensures Valid()
      ensures offered <= old(offered)
      ensures r.Some? && r.value.Compacted? ==> log.stopped.None?
      ensures r.Some? <==> PastTrigger(old(log.stopped).Some?, old(log.lines), |records|, trigger, minLines)
    {
      if !PastTrigger(log.stopped.Some?, log.lines, |records|, trigger, minLines) {
        return None;
      }
      var done := Compact(fate);
      r := Some(done);
    }
  }

  /**
   * A crash at any moment, met by an open: every upload held is held again, at the offset it was last answered or one
   * in flight.
   */
  method ReopenUploads(u: UploadRecords, found: Bytes) returns (v: UploadRecords)
    requires u.Valid() && found in Outcomes(u.log.disk)
    ensures v.Valid() && v.c == u.c && fresh(v) && fresh(v.log) && v.log.stopped.None?
    ensures v.records == Fold(Reading(found, u.log.isObject), u.c)
    ensures forall id :: id in u.records ==>
              id in v.records && (v.records[id] == u.records[id] || (id, v.records[id]) in u.offered)
  {
    u.CrashKeepsRecords(found);
    var reopened := CrashThenOpen(u.log, found);
    var values, _ := WholeLines(ReadLines(found).lines, u.c.isObject);
    v := new UploadRecords(u.c, reopened, values);
  }
}

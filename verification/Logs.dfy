/**
 * The JSON-lines log over a disk that forgets: appends with their cut-back, the sticky stop, and compaction
 * by rename. What a crash at any instant leaves is judged by what the next open reads of it.
 */
module Logs {
  import opened Wrappers
  import opened LogLines

  // ---------------------------------------------------------------- the disk under one log name

  /** A file's bytes as the process sees them, and every content a crash may leave since its last sync. */
  datatype FileDisk = FileDisk(live: Bytes, may: set<Bytes>)

  /**
   * The files, which one the log's name holds now, and which ones a crash may leave it holding since the directory's
   * last sync.
   */
  datatype LogDisk = LogDisk(files: map<nat, FileDisk>, entry: nat, entries: set<nat>)

  predicate WfDisk(d: LogDisk) {
    && d.entry in d.entries && d.entries <= d.files.Keys
    && forall id :: id in d.files ==> d.files[id].live in d.files[id].may
  }

  /** Everything a crash now may leave at the log's name. */
  ghost function Outcomes(d: LogDisk): set<Bytes>
    requires WfDisk(d)
  {
    set id, c | id in d.entries && c in d.files[id].may :: c
  }

  /** A write cut after `k` bytes; a crash may leave any shorter cut of it. */
  function Wrote(f: FileDisk, bytes: Bytes, k: nat): FileDisk
    requires k <= |bytes|
  {
    FileDisk(f.live + bytes[..k], f.may + (set j | 0 <= j <= k :: f.live + bytes[..j]))
  }

  /** The line a write cut after `k` bytes leaves whole, if it leaves it. */
  function Landed(line: Bytes, k: nat): seq<Bytes> {
    if k == |line| + 1 then [line] else []
  }

  function CutTo(f: FileDisk, n: nat): FileDisk {
    var cut := if n <= |f.live| then f.live[..n] else f.live;
    FileDisk(cut, f.may + {cut})
  }

  function Renamed(d: LogDisk, id: nat): LogDisk {
    d.(entry := id, entries := d.entries + {id})
  }

  function Synced(f: FileDisk): FileDisk {
    FileDisk(f.live, {f.live})
  }

  // ---------------------------------------------------------------- what a log promises its callers

  /**
   * The whole lines held, how many of them a sync covers, the one line an append that stopped the log left whole
   * in the file, and the other readings a rewrite stopped past its rename leaves possible.
   */
  datatype Promise = Promise(held: seq<Bytes>, synced: nat, pending: seq<Bytes>, alts: set<seq<Bytes>>)

  /**
   * A reading that keeps the promise: every synced line, in order, and past the held lines at most the one in flight.
   */
  predicate Keeps(p: Promise, reading: seq<Bytes>) {
    reading in p.alts || (p.synced <= |reading| && reading <= p.held + p.pending)
  }

  /** Every reading that keeps a promise. */
  function KeptReadings(p: Promise): set<seq<Bytes>> {
    p.alts + set k | p.synced <= k <= |p.held + p.pending| :: (p.held + p.pending)[..k]
  }

  lemma KeptReadingsMeaning(p: Promise, reading: seq<Bytes>)
    ensures reading in KeptReadings(p) <==> Keeps(p, reading)
  {
    var full := p.held + p.pending;
    if p.synced <= |reading| && reading <= full { assert full[..|reading|] == reading; }
  }

  /** The promise past an append answered. */
  function Extended(p: Promise, line: Bytes, mustSync: bool): Promise {
    Promise(p.held + [line], if mustSync then |p.held| + 1 else p.synced, [], {})
  }

  ghost predicate CrashSafe(outcomes: set<Bytes>, p: Promise, isObject: Bytes -> bool) {
    forall c {:trigger Reading(c, isObject)} :: c in outcomes ==> Keeps(p, Reading(c, isObject))
  }

  ghost predicate NoDamage(outcomes: set<Bytes>, isObject: Bytes -> bool) {
    forall c {:trigger Damaged(c, isObject)} :: c in outcomes ==> !Damaged(c, isObject)
  }

  // ---------------------------------------------------------------- the log

  datatype Cause = AppendAndCutFailed | RewritePastRename

  datatype Stop = Stop(cause: Cause, refused: nat)

  /** How an append's acts go: the metadata read, the bytes the write lands, the sync, the cut back and its sync. */
  datatype AppendFate = AppendFate(
    statOk: bool, written: nat, writeOk: bool, syncOk: bool, cutOk: bool, cutSyncOk: bool)

  /** Whether the append's write leaves its whole line in the file, answered over or not. */
  predicate LandsWhole(line: Bytes, fate: AppendFate) {
    fate.writeOk || fate.written > |line|
  }

  predicate AppendOk(fate: AppendFate) {
    fate.statOk && fate.writeOk && fate.syncOk
  }

  datatype AppendResult = Appended | Refused | Failed | FailedAndStopped

  /** How a rewrite's acts go, in its order; its write may fail at any line. */
  datatype CompactFate = CompactFate(
    createOk: bool, failsAt: Option<nat>, syncOk: bool, renameOk: bool, dirSyncOk: bool, openOk: bool)

  predicate CompactOk(fate: CompactFate) {
    && fate.createOk && fate.failsAt.None? && fate.syncOk && fate.renameOk && fate.dirSyncOk && fate.openOk
  }

  datatype CompactResult = LeftAsIs | Compacted(from: nat) | FailedBefore | StoppedPast

  class Log {
    const isObject: Bytes -> bool
    /** The bytes an open kept beside the log before it cut them, where the cut was damage. */
    const kept: Option<Bytes>
    var disk: LogDisk
    var handle: nat
    var len: nat
    var lines: nat
    var stopped: Option<Stop>
    var nextId: nat
    ghost var promise: Promise
    /** What a crash could have left at each instant of the last call. */
    ghost var trail: seq<set<Bytes>>

    ghost predicate Valid()
      reads this
    {
      && WfDisk(disk) && handle in disk.files && (forall id :: id in disk.files ==> id < nextId)
      && Records(promise.held, isObject) && promise.synced <= |promise.held|
      && lines == |promise.held| && len == |Encode(promise.held)|
      && CrashSafe(Outcomes(disk), promise, isObject)
      && (kept.None? ==> NoDamage(Outcomes(disk), isObject))
      && (stopped.None? ==>
            && promise.pending == [] && promise.alts == {}
            && handle == disk.entry && disk.files[disk.entry].live == Encode(promise.held))
    }

    /** The log's entry is durable: nothing else can stand at its name after a crash. */
    ghost predicate Settled()
      reads this
    {
      disk.entries == {disk.entry}
    }

    /** Judges the stop's refusal ahead of an act no refusal of the append could undo, and counts it as an append's. */
    method RefuseIfStopped() returns (ok: bool)
      requires Valid()
      modifies this`stopped
      ensures Valid() && ok == old(stopped).None?
      ensures ok ==> stopped == old(stopped)
      ensures !ok ==> stopped == Some(old(stopped).value.(refused := old(stopped).value.refused + 1))
    {
      ok := stopped.None?;
      if stopped.Some? {
        stopped := Some(stopped.value.(refused := stopped.value.refused + 1));
      }
    }

    /**
     * An append between its write and its answer: past the lines held the file may hold `pend`, or a part of a line.
     */
    ghost predicate InFlight(pend: seq<Bytes>)
      reads this
    {
      && WfDisk(disk) && handle == disk.entry && Settled() && (forall id :: id in disk.files ==> id < nextId)
      && Records(promise.held, isObject) && Records(pend, isObject) && promise.synced <= |promise.held|
      && lines == |promise.held| && len == |Encode(promise.held)|
      && stopped.None? && promise.pending == [] && promise.alts == {}
      && CrashSafe(disk.files[handle].may, promise.(pending := pend), isObject)
      && (kept.None? ==> NoDamage(disk.files[handle].may, isObject))
    }

    /** Every instant of the call so far keeps a promise. */
    ghost predicate Kept(p: Promise)
      reads this
    {
      forall i :: 0 <= i < |trail| ==> CrashSafe(trail[i], p, isObject)
    }

    /** One act on the file the handle is open on, the log's settled entry. */
    method Act(f: FileDisk, ghost p: Promise)
      requires WfDisk(disk) && handle == disk.entry && Settled() && f.live in f.may && CrashSafe(f.may, p, isObject)
      modifies this`disk, this`trail
      ensures disk == old(disk).(files := old(disk.files)[handle := f]) && WfDisk(disk)
      ensures trail == old(trail) + [f.may]
    {
      disk := disk.(files := disk.files[handle := f]);
      SettledOutcomes(disk);
      trail := trail + [Outcomes(disk)];
    }

    method WriteLine(line: Bytes, written: nat)
      requires Valid() && Records([line], isObject) && stopped.None? && Settled() && written <= |line| + 1
      requires trail == []
      modifies this`disk, this`trail
      ensures InFlight(Landed(line, written))
      ensures disk.files[handle] == Wrote(old(disk.files[handle]), line + [NEWLINE], written)
      ensures Kept(promise.(pending := Landed(line, written)))
    {
      SettledOutcomes(disk);
      WroteIsSafe(disk.files[handle], promise, line, written, isObject);
      Act(Wrote(disk.files[handle], line + [NEWLINE], written), promise.(pending := Landed(line, written)));
    }

    /** The append's answer where its acts all succeed. */
    method Land(line: Bytes, mustSync: bool, ghost before: FileDisk)
      requires InFlight([line]) && disk.files[handle] == Wrote(before, line + [NEWLINE], |line| + 1)
      requires before.live == Encode(promise.held) && CrashSafe(before.may, promise, isObject)
      requires Kept(promise.(pending := [line]))
      modifies this
      ensures Valid() && stopped.None? && Settled() && Kept(old(promise).(pending := [line]))
      ensures promise == Extended(old(promise), line, mustSync)
    {
      AppendedReads(promise, before, line, mustSync, isObject);
      if mustSync {
        Act(Synced(disk.files[handle]), promise.(pending := [line]));
      }
      SettledOutcomes(disk);
      len := len + |line| + 1;
      lines := lines + 1;
      promise := Promise(promise.held + [line], if mustSync then |promise.held| + 1 else promise.synced, [], {});
    }

    /** The stop of a log whose file may end in a torn line. */
    method StopInFlight(ghost pend: seq<Bytes>)
      requires InFlight(pend)
      modifies this`stopped, this`promise
      ensures Valid() && stopped == Some(Stop(AppendAndCutFailed, 0)) && promise == old(promise).(pending := pend)
      ensures disk == old(disk)
    {
      SettledOutcomes(disk);
      stopped := Some(Stop(AppendAndCutFailed, 0));
      promise := promise.(pending := pend);
    }

    /** A failed append undone: the file cut back to its whole lines and the cut synced, or the log stopped. */
    method CutBack(ghost pend: seq<Bytes>, cutOk: bool, cutSyncOk: bool, ghost added: Bytes) returns (undone: bool)
      requires InFlight(pend) && disk.files[handle].live == Encode(promise.held) + added
      requires Kept(promise.(pending := pend))
      modifies this
      ensures Valid() && Kept(old(promise).(pending := pend))
      ensures undone <==> cutOk && cutSyncOk
      ensures !undone ==> Outcomes(disk) >= old(Outcomes(disk))
      ensures undone ==> stopped.None? && Settled() && promise == old(promise).(synced := |old(promise).held|)
      ensures !undone ==> stopped == Some(Stop(AppendAndCutFailed, 0)) && promise == old(promise).(pending := pend)
    {
      HeldReads(promise, isObject);
      HeldKept(promise, pend);
      undone := cutOk && cutSyncOk;
      SettledOutcomes(disk);
      if cutOk {
        CutIsWhole(disk.files[handle], Encode(promise.held), added);
        Act(CutTo(disk.files[handle], len), promise.(pending := pend));
        SettledOutcomes(disk);
      }
      if undone { SyncCut(pend); } else { StopInFlight(pend); }
    }

    /** The cut made durable: nothing but the held lines can stand in the file from here. */
    method SyncCut(ghost pend: seq<Bytes>)
      requires InFlight(pend) && disk.files[handle].live == Encode(promise.held) && Kept(promise.(pending := pend))
      modifies this`disk, this`trail, this`promise
      ensures Valid() && Kept(old(promise).(pending := pend))
      ensures stopped.None? && Settled() && promise == old(promise).(synced := |old(promise).held|)
    {
      HeldReads(promise, isObject);
      HeldKept(promise, pend);
      Act(Synced(disk.files[handle]), promise.(pending := pend));
      SettledOutcomes(disk);
      promise := promise.(synced := |promise.held|);
    }

    /**
     * Appends a line. A crash at any instant of the append leaves what the promise before it keeps, with this line
     * after only where its write landed whole; what it answers is what the promise becomes.
     */
    method AppendBy(line: Bytes, mustSync: bool, fate: AppendFate) returns (r: AppendResult)
      requires Valid() && Records([line], isObject)
      requires stopped.None? ==> Settled()
      modifies this
      ensures Valid() && (stopped.None? ==> Settled())
      ensures r == Refused <==> old(stopped).Some?
      ensures Follows(old(promise), Append(line, mustSync, r), promise)
      ensures r == Refused ==>
                && promise == old(promise) && disk == old(disk)
                && stopped == Some(old(stopped).value.(refused := old(stopped).value.refused + 1))
      ensures r == Appended ==>
                && stopped.None?
                && promise == Extended(old(promise), line, mustSync)
      ensures r == Failed ==>
                && stopped.None?
                && promise == old(promise).(synced := if fate.statOk then |old(promise).held| else old(promise).synced)
      ensures r == FailedAndStopped ==>
                && promise == old(promise).(pending := if LandsWhole(line, fate) then [line] else [])
                && stopped == Some(Stop(AppendAndCutFailed, 0))
      ensures old(stopped).None? && fate.statOk && fate.writeOk && (!mustSync || fate.syncOk) ==> r == Appended
      ensures old(stopped).None? && fate.statOk && fate.writeOk && mustSync && !fate.syncOk && !fate.cutOk ==>
                r == FailedAndStopped
      ensures r == FailedAndStopped && LandsWhole(line, fate) ==> Encode(old(promise).held + [line]) in Outcomes(disk)
      ensures Kept(old(promise).(pending := if LandsWhole(line, fate) then [line] else []))
    {
      trail := [];
      if stopped.Some? {
        stopped := Some(stopped.value.(refused := stopped.value.refused + 1));
        return Refused;
      }
      if !fate.statOk {
        return Failed;
      }
      r := AppendLine(line, mustSync, fate);
    }

    /** The append's acts on a log that takes them. */
    method AppendLine(line: Bytes, mustSync: bool, fate: AppendFate) returns (r: AppendResult)
      requires Valid() && Records([line], isObject) && stopped.None? && Settled() && trail == []
      modifies this
      ensures Valid() && (stopped.None? ==> Settled())
      ensures r == if fate.writeOk && (!mustSync || fate.syncOk) then Appended
                   else if fate.cutOk && fate.cutSyncOk then Failed
                   else FailedAndStopped
      ensures r == Appended ==>
                && stopped.None?
                && promise == Extended(old(promise), line, mustSync)
      ensures r == Failed ==> stopped.None? && promise == old(promise).(synced := |old(promise).held|)
      ensures r == FailedAndStopped ==>
                && promise == old(promise).(pending := if LandsWhole(line, fate) then [line] else [])
                && stopped == Some(Stop(AppendAndCutFailed, 0))
      ensures r == FailedAndStopped && LandsWhole(line, fate) ==> Encode(old(promise).held + [line]) in Outcomes(disk)
      ensures Kept(old(promise).(pending := if LandsWhole(line, fate) then [line] else []))
    {
      ghost var before := disk.files[handle];
      SettledOutcomes(disk);
      var written := if fate.writeOk || fate.written > |line| + 1 then |line| + 1 else fate.written;
      WriteLine(line, written);
      WroteWhole(before, promise, line);
      SettledOutcomes(disk);
      if fate.writeOk && (!mustSync || fate.syncOk) {
        Land(line, mustSync, before);
        return Appended;
      }
      var undone := CutBack(Landed(line, written), fate.cutOk, fate.cutSyncOk, (line + [NEWLINE])[..written]);
      return if undone then Failed else FailedAndStopped;
    }

    // -------------------------------------------------------------- compaction

    /** The twin written line by line: the rewrite whole, or the twin removed. No act here touches the log's name. */
    method WriteTwin(current: seq<Bytes>, fate: CompactFate) returns (twin: nat, twinLen: nat, ok: bool)
      requires WfDisk(disk) && forall id :: id in disk.files ==> id < nextId
      modifies this`disk, this`nextId
      ensures nextId == old(nextId) + 1 && twin == old(nextId) && twinLen == |Encode(current)|
      ensures !ok ==> disk == old(disk)
      ensures CompactOk(fate) ==> ok
      ensures ok ==> disk == old(disk).(files := old(disk.files)[twin := FileDisk(Encode(current), {Encode(current)})])
    {
      twin := nextId;
      nextId := nextId + 1;
      var f := FileDisk([], {[]});
      twinLen := 0;
      for i := 0 to |current|
        invariant f.live == Encode(current[..i]) && twinLen == |f.live|
        invariant disk == old(disk) && nextId == old(nextId) + 1
      {
        assert current[..i + 1] == current[..i] + [current[i]];
        EncodePush(current[..i], current[i]);
        var line := current[i] + [NEWLINE];
        assert line[..|line|] == line;
        f := Wrote(f, line, |line|);
        twinLen := twinLen + |line|;
      }
      assert current[..|current|] == current;
      ok := fate.createOk && (fate.failsAt.None? || fate.failsAt.value >= |current|) && fate.syncOk && fate.renameOk;
      if ok {
        disk := disk.(files := disk.files[twin := Synced(f)]);
      }
    }

    /**
     * Rewrites the log to exactly `current` where it holds anything else by count, or has stopped. A crash at
     * any instant leaves what the log kept before or the whole rewrite, never a mix; a failure past the rename
     * stops the log with both still possible.
     */
    method Compact(current: seq<Bytes>, fate: CompactFate) returns (r: CompactResult)
      requires Valid() && Records(current, isObject) && (stopped.None? ==> Settled())
      modifies this
      ensures Valid() && (stopped.None? ==> Settled())
      ensures r == LeftAsIs <==> old(stopped).None? && |current| == old(lines)
      ensures CompactOk(fate) ==> r == LeftAsIs || r.Compacted?
      ensures r == LeftAsIs || r == FailedBefore ==>
                promise == old(promise) && disk == old(disk) && stopped == old(stopped) && handle == old(handle)
      ensures r.Compacted? ==>
                r.from == old(len) && promise == Promise(current, |current|, [], {}) && stopped.None? && Settled()
      ensures r == StoppedPast ==>
                && stopped.Some? && stopped.value.cause == RewritePastRename
                && stopped.value.refused == (if old(stopped).Some? then old(stopped).value.refused else 0)
                && ((promise == Promise(current, |current|, [], KeptReadings(old(promise)))
                     && old(Outcomes(disk)) <= Outcomes(disk))
                    || promise == Promise(current, |current|, [], {}))
      ensures Follows(old(promise), Rewrite(current, r), promise)
      ensures Kept(Promise(current, |current|, [], KeptReadings(old(promise))))
    {
      trail := [];
      if stopped.None? && |current| == lines {
        return LeftAsIs;
      }
      var from := len;
      var twin, twinLen, ok := WriteTwin(current, fate);
      if !ok {
        return FailedBefore;
      }
      var done := PutOver(twin, twinLen, current, fate, old(disk));
      return if done then Compacted(from) else StoppedPast;
    }

    /** The rename of a twin written whole, and the acts past it. */
    method PutOver(
      twin: nat, twinLen: nat, current: seq<Bytes>, fate: CompactFate, ghost before: LogDisk)
      returns (done: bool)
      requires WfDisk(before) && twin !in before.files && twin < nextId && handle in before.files && trail == []
      requires forall id :: id in before.files ==> id < nextId
      requires disk == before.(files := before.files[twin := FileDisk(Encode(current), {Encode(current)})])
      requires Records(current, isObject) && twinLen == |Encode(current)|
      requires CrashSafe(Outcomes(before), promise, isObject) && (kept.None? ==> NoDamage(Outcomes(before), isObject))
      modifies this
      ensures Valid() && done == (fate.dirSyncOk && fate.openOk)
      ensures Kept(Promise(current, |current|, [], KeptReadings(old(promise))))
      ensures promise == Promise(current, |current|, [], if fate.dirSyncOk then {} else KeptReadings(old(promise)))
      ensures !fate.dirSyncOk ==> Outcomes(before) <= Outcomes(disk)
      ensures done ==> stopped.None? && Settled()
      ensures !done ==>
                stopped == Some(Stop(RewritePastRename, if old(stopped).Some? then old(stopped).value.refused else 0))
    {
      ghost var was := promise;
      RenamedIsSafe(before, disk, twin, was, current, isObject);
      RenamedOutcomes(before, disk, twin, Encode(current));
      RenameOnto(twin, was, current);
      len, lines := twinLen, |current|;
      promise := Promise(current, |current|, [], KeptReadings(was));
      done := Complete(twin, current, fate);
    }

    /** Past the rename: the directory's sync, then the open for appending; a failure of either stops the log. */
    method Complete(twin: nat, ghost current: seq<Bytes>, fate: CompactFate) returns (done: bool)
      requires WfDisk(disk) && handle in disk.files && (forall id :: id in disk.files ==> id < nextId)
      requires disk.entry == twin && disk.files[twin] == FileDisk(Encode(current), {Encode(current)})
      requires Records(current, isObject) && lines == |current| && len == |Encode(current)|
      requires promise.held == current && promise.synced == |current| && promise.pending == []
      requires CrashSafe(Outcomes(disk), promise, isObject) && (kept.None? ==> NoDamage(Outcomes(disk), isObject))
      modifies this`disk, this`handle, this`stopped, this`promise
      ensures Valid() && done == (fate.dirSyncOk && fate.openOk)
      ensures promise == if fate.dirSyncOk then Promise(current, |current|, [], {}) else old(promise)
      ensures !fate.dirSyncOk ==> disk == old(disk)
      ensures done ==> stopped.None? && Settled()
      ensures !done ==>
                stopped == Some(Stop(RewritePastRename, if old(stopped).Some? then old(stopped).value.refused else 0))
    {
      var refused := if stopped.Some? then stopped.value.refused else 0;
      stopped := Some(Stop(RewritePastRename, refused));
      if !fate.dirSyncOk {
        return false;
      }
      SyncEntry(twin, current);
      promise := Promise(current, |current|, [], {});
      if !fate.openOk {
        return false;
      }
      handle := twin;
      stopped := None;
      return true;
    }

    method RenameOnto(twin: nat, ghost was: Promise, ghost current: seq<Bytes>)
      requires WfDisk(disk) && twin in disk.files && trail == []
      requires CrashSafe(Outcomes(Renamed(disk, twin)), Promise(current, |current|, [], KeptReadings(was)), isObject)
      modifies this`disk, this`trail
      ensures disk == Renamed(old(disk), twin) && WfDisk(disk)
      ensures Kept(Promise(current, |current|, [], KeptReadings(was)))
    {
      disk := Renamed(disk, twin);
      trail := trail + [Outcomes(disk)];
    }

    /** The directory's sync: the entry alone can stand at the name from here. */
    method SyncEntry(twin: nat, ghost current: seq<Bytes>)
      requires WfDisk(disk) && disk.entry == twin && Records(current, isObject)
      requires disk.files[twin] == FileDisk(Encode(current), {Encode(current)})
      modifies this`disk
      ensures disk == old(disk).(entries := {twin}) && WfDisk(disk) && Settled()
      ensures CrashSafe(Outcomes(disk), Promise(current, |current|, [], {}), isObject)
      ensures NoDamage(Outcomes(disk), isObject)
    {
      disk := disk.(entries := {disk.entry});
      SettledOutcomes(disk);
      HeldReads(Promise(current, |current|, [], {}), isObject);
    }

    // -------------------------------------------------------------- opening

    /** Opens what stands at the log's name, or makes it empty: reads it whole, keeps a damaged cut, cuts the tail. */
    constructor Open(found: Option<Bytes>, isObject: Bytes -> bool)
      ensures Valid() && stopped.None? && this.isObject == isObject
      ensures found.Some? ==>
                && promise == Promise(Reading(found.value, isObject), |Reading(found.value, isObject)|, [], {})
                && Settled()
      ensures found.None? ==> promise == Promise([], 0, [], {})
      ensures kept == if found.Some? then CutOff(found.value, isObject) else None
    {
      var bytes := if found.Some? then found.value else [];
      var read := ReadLines(bytes);
      var values, good := WholeLines(read.lines, isObject);
      OpenedOutcomes(found, isObject);
      this.isObject := isObject;
      this.kept := if |values| < |read.lines| then Some(bytes[good..]) else None;
      this.disk := OpenedDisk(found, good);
      this.handle := if found.Some? then 0 else 1;
      this.nextId := 2;
      this.len := good;
      this.lines := |values|;
      this.stopped := None;
      this.promise := Promise(values, |values|, [], {});
      this.trail := [];
    }

    /** The store's own fsync of the directory, which its open makes before it serves. */
    method DirectorySynced()
      requires Valid() && stopped.None?
      modifies this`disk
      ensures Valid() && Settled()
    {
      SettlingShrinks(disk);
      disk := disk.(entries := {disk.entry});
    }
  }

  lemma SettledOutcomes(d: LogDisk)
    requires WfDisk(d)
    ensures d.entries == {d.entry} ==> Outcomes(d) == d.files[d.entry].may
  {
    if d.entries == {d.entry} {
      forall c ensures c in Outcomes(d) <==> c in d.files[d.entry].may {}
    }
  }

  /** A write that landed whole may be read whole. */
  lemma WroteWhole(f: FileDisk, p: Promise, line: Bytes)
    requires f.live == Encode(p.held)
    ensures Encode(p.held + [line]) in Wrote(f, line + [NEWLINE], |line| + 1).may
  {
    EncodePush(p.held, line);
    assert (line + [NEWLINE])[..|line| + 1] == line + [NEWLINE];
  }

  /** A write cut anywhere, over a file whose every possible content keeps the promise. */
  lemma WroteIsSafe(f: FileDisk, p: Promise, line: Bytes, k: nat, isObject: Bytes -> bool)
    requires f.live == Encode(p.held) && Records(p.held, isObject) && Records([line], isObject) && k <= |line| + 1
    requires p.pending == [] && p.synced <= |p.held| && CrashSafe(f.may, p, isObject)
    ensures CrashSafe(Wrote(f, line + [NEWLINE], k).may, p.(pending := Landed(line, k)), isObject)
    ensures NoDamage(f.may, isObject) ==> NoDamage(Wrote(f, line + [NEWLINE], k).may, isObject)
  {
    var q := p.(pending := Landed(line, k));
    var w := Wrote(f, line + [NEWLINE], k);
    assert p.held + p.pending == p.held && p.held <= p.held + Landed(line, k);
    forall c | c in w.may ensures Keeps(q, Reading(c, isObject)) && (c in f.may || !Damaged(c, isObject)) {
      if c !in f.may {
        var j :| 0 <= j <= k && c == f.live + (line + [NEWLINE])[..j];
        TornWrite(p.held, line, j, isObject);
      }
    }
  }

  lemma AppendedReads(p: Promise, f: FileDisk, line: Bytes, mustSync: bool, isObject: Bytes -> bool)
    requires f.live == Encode(p.held) && Records(p.held, isObject) && Records([line], isObject)
    requires p.pending == [] && p.alts == {} && p.synced <= |p.held| && CrashSafe(f.may, p, isObject)
    ensures var w := Wrote(f, line + [NEWLINE], |line| + 1);
            var q := Promise(p.held + [line], if mustSync then |p.held| + 1 else p.synced, [], {});
            && Records(q.held, isObject) && w.live == Encode(q.held) && |w.live| == |f.live| + |line| + 1
            && CrashSafe(if mustSync then {w.live} else w.may, q, isObject)
            && !Damaged(w.live, isObject)
  {
    var bytes := line + [NEWLINE];
    assert bytes[..|line| + 1] == bytes;
    EncodePush(p.held, line);
    assert [line][0] == line;
    TornWrite(p.held, line, |line| + 1, isObject);
    WroteIsSafe(f, p, line, |line| + 1, isObject);
    assert (p.held + [line]) + [] == p.held + [line];
  }

  lemma CutIsWhole(w: FileDisk, before: Bytes, added: Bytes)
    requires w.live == before + added
    ensures CutTo(w, |before|).live == before && CutTo(w, |before|).may == w.may + {before}
  {
    assert (before + added)[..|before|] == before;
  }

  lemma HeldReads(p: Promise, isObject: Bytes -> bool)
    requires Records(p.held, isObject) && p.synced <= |p.held|
    ensures Reading(Encode(p.held), isObject) == p.held && !Damaged(Encode(p.held), isObject)
    ensures Keeps(p, p.held) && Keeps(p.(synced := |p.held|), p.held)
  {
    assert Encode(p.held) + [] == Encode(p.held);
    ReadingOf(p.held, [], isObject);
    assert p.held <= p.held + p.pending;
  }

  lemma HeldKept(p: Promise, pend: seq<Bytes>)
    requires p.synced <= |p.held|
    ensures Keeps(p.(pending := pend), p.held)
  {
    assert p.held <= p.held + pend;
  }

  lemma RenamedOutcomes(before: LogDisk, written: LogDisk, twin: nat, bytes: Bytes)
    requires WfDisk(before) && twin !in before.files
    requires written == before.(files := before.files[twin := FileDisk(bytes, {bytes})])
    ensures WfDisk(written) && WfDisk(Renamed(written, twin))
    ensures Outcomes(Renamed(written, twin)) == Outcomes(before) + {bytes}
  {
    var after := Renamed(written, twin);
    forall c ensures c in Outcomes(after) <==> c in Outcomes(before) || c == bytes {
      if c in Outcomes(before) {
        var id :| id in before.entries && c in before.files[id].may;
        assert id in after.entries && c in after.files[id].may;
      }
      if c == bytes { assert twin in after.entries && c in after.files[twin].may; }
      if c in Outcomes(after) {
        var id :| id in after.entries && c in after.files[id].may;
        if id != twin { assert id in before.entries && c in before.files[id].may; }
      }
    }
  }

  /** Past the rename either the old entry or the rewrite may stand at the name. */
  lemma RenamedIsSafe(
    before: LogDisk, written: LogDisk, twin: nat, was: Promise, current: seq<Bytes>, isObject: Bytes -> bool)
    requires WfDisk(before) && twin !in before.files
    requires written == before.(files := before.files[twin := FileDisk(Encode(current), {Encode(current)})])
    requires CrashSafe(Outcomes(before), was, isObject) && Records(current, isObject)
    ensures WfDisk(written) && WfDisk(Renamed(written, twin))
    ensures var after := Outcomes(Renamed(written, twin));
            && CrashSafe(after, Promise(current, |current|, [], KeptReadings(was)), isObject)
            && (NoDamage(Outcomes(before), isObject) ==> NoDamage(after, isObject))
  {
    var p := Promise(current, |current|, [], KeptReadings(was));
    RenamedOutcomes(before, written, twin, Encode(current));
    HeldReads(p, isObject);
    forall c | c in Outcomes(before) ensures Keeps(p, Reading(c, isObject)) {
      KeptReadingsMeaning(was, Reading(c, isObject));
    }
  }

  lemma SettlingShrinks(d: LogDisk)
    requires WfDisk(d)
    ensures WfDisk(d.(entries := {d.entry})) && Outcomes(d.(entries := {d.entry})) <= Outcomes(d)
  {
  }

  lemma TrustedIsPrefix(lines: seq<Bytes>, values: seq<Bytes>, tail: Bytes)
    requires values <= lines && AllLines(lines)
    ensures AllLines(values) && Encode(values) <= Encode(lines) + tail
  {
    assert lines == values + lines[|values|..];
    EncodeConcat(values, lines[|values|..]);
  }

  /** Cutting the untrusted end off a file changes nothing of what is read of it. */
  lemma CutToTrusted(bytes: Bytes, values: seq<Bytes>, isObject: Bytes -> bool)
    requires values == Reading(bytes, isObject) && AllLines(values) && Encode(values) <= bytes
    ensures bytes[..|Encode(values)|] == Encode(values)
    ensures Reading(Encode(values), isObject) == values && !Damaged(Encode(values), isObject)
    ensures |ReadLines(bytes).lines| == |values| <==> !Damaged(bytes, isObject)
    ensures Reading([], isObject) == []
  {
    HeldReads(Promise(values, 0, [], {}), isObject);
  }

  /** The bytes past the lines trusted, where the first of them is a whole line: what an open keeps before it cuts. */
  function CutOff(bytes: Bytes, isObject: Bytes -> bool): Option<Bytes> {
    var good := |Encode(Reading(bytes, isObject))|;
    if Damaged(bytes, isObject) && good <= |bytes| then Some(bytes[good..]) else None
  }

  function OpenedDisk(found: Option<Bytes>, good: nat): LogDisk {
    match found
    case Some(bytes) => LogDisk(map[0 := CutTo(FileDisk(bytes, {bytes}), good)], 0, {0})
    case None => LogDisk(map[0 := FileDisk([], {[]}), 1 := FileDisk([], {[]})], 1, {0, 1})
  }

  lemma OpenedOutcomes(found: Option<Bytes>, isObject: Bytes -> bool)
    ensures var bytes := if found.Some? then found.value else [];
            var values := Reading(bytes, isObject);
            var d := OpenedDisk(found, |Encode(values)|);
            && Encode(values) <= bytes && Records(values, isObject)
            && WfDisk(d) && d.files[d.entry].live == Encode(values)
            && CrashSafe(Outcomes(d), Promise(values, |values|, [], {}), isObject)
            && (!Damaged(bytes, isObject) ==> NoDamage(Outcomes(d), isObject))
  {
    match found {
      case Some(bytes) => FoundReads(bytes, isObject);
      case None => FoundReads([], isObject);
    }
    var bytes := if found.Some? then found.value else [];
    var values := Reading(bytes, isObject);
    var d := OpenedDisk(found, |Encode(values)|);
    OpenedIsSmall(found, bytes, Encode(values));
    assert values <= values + [];
  }

  lemma FoundReads(bytes: Bytes, isObject: Bytes -> bool)
    ensures var values := Reading(bytes, isObject);
            && Encode(values) <= bytes && Records(values, isObject)
            && Reading(Encode(values), isObject) == values && !Damaged(Encode(values), isObject)
  {
    var values, read := Reading(bytes, isObject), ReadLines(bytes);
    ReadFromSpells([], bytes);
    assert [] + bytes == bytes;
    TrustedIsPrefix(read.lines, values, read.tail);
    CutToTrusted(bytes, values, isObject);
  }

  lemma OpenedIsSmall(found: Option<Bytes>, bytes: Bytes, trusted: Bytes)
    requires bytes == (if found.Some? then found.value else []) && trusted <= bytes
    ensures var d := OpenedDisk(found, |trusted|);
            WfDisk(d) && d.files[d.entry].live == trusted && forall c :: c in Outcomes(d) ==> c == bytes || c == trusted
  {
    CutIsWhole(FileDisk(bytes, {bytes}), trusted, bytes[|trusted|..]);
  }

  // ---------------------------------------------------------------- over whole runs

  /** What a log meets: appends and rewrites however they end, and crashes met by an open. */
  datatype Event =
    | Append(line: Bytes, mustSync: bool, answer: AppendResult)
    | Rewrite(current: seq<Bytes>, result: CompactResult)
    | CrashAndOpen(reading: seq<Bytes>)

  /** What an append's answer makes of the promise; one that writes finds the log taking appends. */
  predicate FollowsAppend(p: Promise, line: Bytes, mustSync: bool, r: AppendResult, q: Promise) {
    (r != Refused ==> p.pending == [] && p.alts == {}) &&
    match r
    case Appended => q == Extended(p, line, mustSync)
    case Refused => q == p
    case Failed => q == p.(synced := q.synced) && p.synced <= q.synced <= |p.held|
    case FailedAndStopped => q == p || q == p.(pending := [line])
  }

  /** What a rewrite's answer makes of it: past the rename the rewrite stands, alone once its directory is synced. */
  predicate FollowsRewrite(p: Promise, current: seq<Bytes>, r: CompactResult, q: Promise) {
    match r
    case LeftAsIs => q == p
    case FailedBefore => q == p
    case Compacted(_) => q == Promise(current, |current|, [], {})
    case StoppedPast =>
      q == Promise(current, |current|, [], KeptReadings(p)) || q == Promise(current, |current|, [], {})
  }

  predicate Follows(p: Promise, e: Event, q: Promise) {
    match e
    case Append(line, mustSync, answer) => FollowsAppend(p, line, mustSync, answer, q)
    case Rewrite(current, result) => FollowsRewrite(p, current, result, q)
    case CrashAndOpen(reading) => Keeps(p, reading) && q == Promise(reading, |reading|, [], {})
  }

  /** A log's life from its open on `base`: each event, and the promise it leaves. */
  predicate IsRun(base: seq<Bytes>, states: seq<Promise>, events: seq<Event>) {
    && |states| == |events| + 1 && states[0] == Promise(base, |base|, [], {})
    && forall i :: 0 <= i < |events| ==> Follows(states[i], events[i], states[i + 1])
  }

  /**
   * The lines the log's callers know it to hold, by its answers alone: what the last open read or the last rewrite
   * put at the name, and every line answered since.
   */
  function Answered(base: seq<Bytes>, events: seq<Event>): seq<Bytes> {
    if events == [] then base else
    var before := Answered(base, events[..|events| - 1]);
    match events[|events| - 1]
    case Append(line, _, answer) => if answer == Appended then before + [line] else before
    case Rewrite(current, result) => if result.Compacted? || result == StoppedPast then current else before
    case CrashAndOpen(reading) => reading
  }

  /** How many of those, from the first, some synced append, rewrite or open has answered durable. */
  function Durable(base: seq<Bytes>, events: seq<Event>): nat {
    if events == [] then |base| else
    var before := Durable(base, events[..|events| - 1]);
    match events[|events| - 1]
    case Append(line, mustSync, answer) => if answer == Appended && mustSync then |Answered(base, events)| else before
    case Rewrite(current, result) => if result.Compacted? || result == StoppedPast then |current| else before
    case CrashAndOpen(reading) => |reading|
  }

  /** The lines that may stand past those answered: the one whose failed append stopped the log, and no other. */
  function Unanswered(events: seq<Event>): seq<Bytes> {
    if events == [] then [] else
    match events[|events| - 1]
    case Append(line, _, answer) =>
      if answer == FailedAndStopped then [line]
      else if answer == Refused then Unanswered(events[..|events| - 1])
      else []
    case Rewrite(_, result) =>
      if result.Compacted? || result == StoppedPast then [] else Unanswered(events[..|events| - 1])
    case CrashAndOpen(_) => []
  }

  /**
   * What the next open may read, by the answers alone: every line answered durable, in its place, then a part of the
   * rest; or, past a rewrite stopped after its rename, what might have been read before it.
   */
  predicate Readable(base: seq<Bytes>, events: seq<Event>, reading: seq<Bytes>)
    decreases |events|
  {
    || (Durable(base, events) <= |reading| && reading <= Answered(base, events) + Unanswered(events))
    || (events != [] &&
          match events[|events| - 1]
          case Append(_, _, answer) => answer == Refused && Readable(base, events[..|events| - 1], reading)
          case Rewrite(_, result) => !result.Compacted? && Readable(base, events[..|events| - 1], reading)
          case CrashAndOpen(_) => false)
  }

  /** What the promise of a run owes to the answers that made it. */
  ghost predicate Owes(base: seq<Bytes>, events: seq<Event>, p: Promise) {
    && p.held == Answered(base, events) && Durable(base, events) <= p.synced <= |p.held|
    && (p.pending == [] || p.pending == Unanswered(events))
    && forall alt :: alt in p.alts ==> Readable(base, events, alt)
  }

  lemma OwedIsReadable(base: seq<Bytes>, events: seq<Event>, p: Promise, reading: seq<Bytes>)
    requires Owes(base, events, p) && Keeps(p, reading)
    ensures Readable(base, events, reading)
  {
    if reading !in p.alts { assert p.held + p.pending <= p.held + Unanswered(events); }
  }

  lemma OwesNext(base: seq<Bytes>, events: seq<Event>, e: Event, p: Promise, q: Promise)
    requires Owes(base, events, p) && Follows(p, e, q)
    ensures Owes(base, events + [e], q)
  {
    var all := events + [e];
    assert all[..|all| - 1] == events;
    forall alt | alt in q.alts ensures Readable(base, all, alt) {
      if alt in p.alts {
        assert Readable(base, events, alt);
      } else if alt in KeptReadings(p) {
        KeptReadingsMeaning(p, alt);
        OwedIsReadable(base, events, p, alt);
      }
    }
  }

  lemma {:induction false} RunOwes(base: seq<Bytes>, states: seq<Promise>, events: seq<Event>)
    requires IsRun(base, states, events)
    ensures Owes(base, events, states[|events|])
    decreases |events|
  {
    if events != [] {
      var n := |events| - 1;
      RunOwes(base, states[..n + 1], events[..n]);
      OwesNext(base, events[..n], events[n], states[n], states[n + 1]);
      assert events == events[..n] + [events[n]];
    }
  }

  /**
   * Over every run of appends, failures, stops, rewrites however they end, crashes and opens: whatever a crash leaves,
   * the next open reads it within what the answers alone allow.
   */
  lemma SyncedLinesSurvive(base: seq<Bytes>, states: seq<Promise>, events: seq<Event>, reading: seq<Bytes>)
    requires IsRun(base, states, events) && Keeps(states[|events|], reading)
    ensures Readable(base, events, reading)
  {
    RunOwes(base, states, events);
    OwedIsReadable(base, events, states[|events|], reading);
  }

  lemma OneStepOn(base: seq<Bytes>, states: seq<Promise>, events: seq<Event>, e: Event, q: Promise)
    requires IsRun(base, states, events) && Follows(states[|events|], e, q)
    ensures IsRun(base, states + [q], events + [e])
  {
    var more, all := states + [q], events + [e];
    forall i | 0 <= i < |all| ensures Follows(more[i], all[i], more[i + 1]) {
      if i < |events| { assert more[i] == states[i] && more[i + 1] == states[i + 1]; }
    }
  }

  /**
   * A crash at any instant inside an append is one that meets the append stopped there: what it leaves is what the run
   * ended by that answer makes readable.
   */
  lemma CrashInsideAppend(
    base: seq<Bytes>, states: seq<Promise>, events: seq<Event>, line: Bytes, mustSync: bool, pend: seq<Bytes>,
    outcomes: set<Bytes>, found: Bytes, isObject: Bytes -> bool)
    requires IsRun(base, states, events) && (pend == [] || pend == [line]) && found in outcomes
    requires states[|events|].pending == [] && states[|events|].alts == {}
    requires CrashSafe(outcomes, states[|events|].(pending := pend), isObject)
    ensures var e := Append(line, mustSync, FailedAndStopped);
            && IsRun(base, states + [states[|events|].(pending := pend)], events + [e])
            && Readable(base, events + [e], Reading(found, isObject))
  {
    var q := states[|events|].(pending := pend);
    OneStepOn(base, states, events, Append(line, mustSync, FailedAndStopped), q);
    SyncedLinesSurvive(
      base, states + [q], events + [Append(line, mustSync, FailedAndStopped)], Reading(found, isObject));
  }

  /** And one inside a rewrite is one that meets the rewrite stopped past its rename. */
  lemma CrashInsideRewrite(
    base: seq<Bytes>, states: seq<Promise>, events: seq<Event>, current: seq<Bytes>, outcomes: set<Bytes>, found: Bytes,
    isObject: Bytes -> bool)
    requires IsRun(base, states, events) && found in outcomes
    requires CrashSafe(outcomes, Promise(current, |current|, [], KeptReadings(states[|events|])), isObject)
    ensures var e := Rewrite(current, StoppedPast);
            && IsRun(base, states + [Promise(current, |current|, [], KeptReadings(states[|events|]))], events + [e])
            && Readable(base, events + [e], Reading(found, isObject))
  {
    var q := Promise(current, |current|, [], KeptReadings(states[|events|]));
    OneStepOn(base, states, events, Rewrite(current, StoppedPast), q);
    SyncedLinesSurvive(base, states + [q], events + [Rewrite(current, StoppedPast)], Reading(found, isObject));
  }

  /** A rewrite that stands at the log's name, its directory synced or not. */
  predicate RewriteStands(e: Event) {
    e.Rewrite? && (e.result.Compacted? || e.result == StoppedPast)
  }

  /** An answer that makes every line held durable. */
  predicate Acknowledges(e: Event) {
    match e
    case Append(_, mustSync, answer) => mustSync && answer == Appended
    case Rewrite(_, result) => result.Compacted?
    case CrashAndOpen(_) => true
  }

  /**
   * So the lines once answered durable are read, in their places, by every open from then on, until a rewrite stands
   * in their stead; and then it is the rewrite's own lines that every open reads.
   */
  lemma {:induction false} AcknowledgedLinesAreRead(
    base: seq<Bytes>, states: seq<Promise>, events: seq<Event>, i: nat, reading: seq<Bytes>)
    requires IsRun(base, states, events) && i <= |events| && (i > 0 ==> Acknowledges(events[i - 1]))
    requires Keeps(states[|events|], reading)
    ensures || Answered(base, events[..i]) <= reading
            || exists j :: i <= j < |events| && RewriteStands(events[j]) && events[j].current <= reading
  {
    SyncedLinesSurvive(base, states, events, reading);
    ReadPastAcknowledged(base, states, events, i, reading);
  }

  lemma {:induction false} ReadPastAcknowledged(
    base: seq<Bytes>, states: seq<Promise>, events: seq<Event>, i: nat, reading: seq<Bytes>)
    requires IsRun(base, states, events) && i <= |events| && (i > 0 ==> Acknowledges(events[i - 1]))
    requires Readable(base, events, reading)
    ensures || Answered(base, events[..i]) <= reading
            || exists j :: i <= j < |events| && RewriteStands(events[j]) && events[j].current <= reading
    decreases |events|
  {
    RunOwes(base, states, events);
    var n := |events| - 1;
    if i == |events| {
      assert events[..i] == events;
    } else {
      var init := events[..n];
      RunOwes(base, states[..n + 1], init);
      assert init[..i] == events[..i];
      var earlier := ReadBefore(base, states, events, reading);
      if earlier.Some? {
        ReadPastAcknowledged(base, states[..n + 1], init, i, earlier.value);
        if j :| i <= j < n && RewriteStands(init[j]) && init[j].current <= earlier.value {
          assert events[j] == init[j];
        }
      }
    }
  }

  /** What a run's last event leaves readable begins with what was readable before it, or with the rewrite it is. */
  lemma ReadBefore(
    base: seq<Bytes>, states: seq<Promise>, events: seq<Event>, reading: seq<Bytes>)
    returns (earlier: Option<seq<Bytes>>)
    requires events != [] && IsRun(base, states, events) && Readable(base, events, reading)
    ensures var n := |events| - 1;
            match earlier
            case Some(before) => before <= reading && Readable(base, events[..n], before)
            case None => RewriteStands(events[n]) && events[n].current <= reading
  {
    var n := |events| - 1;
    var init := events[..n];
    RunOwes(base, states[..n + 1], init);
    match events[n] {
      case Append(line, mustSync, answer) =>
        var held := Answered(base, init);
        if answer == Refused || |reading| <= |held| { return Some(reading); }
        return Some(held);
      case Rewrite(current, result) =>
        if RewriteStands(events[n]) && reading == current { return None; }
        return Some(reading);
      case CrashAndOpen(found) =>
        assert Follows(states[n], events[n], states[n + 1]);
        OwedIsReadable(base, init, states[n], found);
        return Some(found);
    }
  }

  /**
   * A crash at any moment of a served log, met by an open: what it reads the promise keeps, and nothing of it is
   * damage.
   */
  method CrashThenOpen(log: Log, found: Bytes) returns (reopened: Log)
    requires log.Valid() && found in Outcomes(log.disk)
    ensures fresh(reopened) && reopened.Valid() && reopened.stopped.None? && reopened.Settled()
    ensures reopened.isObject == log.isObject
    ensures reopened.promise == Promise(Reading(found, log.isObject), |Reading(found, log.isObject)|, [], {})
    ensures Follows(log.promise, CrashAndOpen(Reading(found, log.isObject)), reopened.promise)
    ensures log.kept.None? ==> reopened.kept.None?
  {
    reopened := new Log.Open(Some(found), log.isObject);
  }
}

/** The leases: a map and its index by principal beside their log, and the horizon past which a lapsed lease is none. */
module Leases {
  import opened Wrappers
  import opened Clocks
  import opened BlobNames
  import opened LogLines
  import opened Logs
  import opened KeyedLogs

  datatype Lease = Lease(principal: string, designation: string, hex: string, size: U64, expires: U64)

  /** The hash first: the leases on one hash lie together. */
  datatype LeaseKey = LeaseKey(designation: string, hex: string, principal: string)

  type LeaseTable = map<LeaseKey, Lease>

  function KeyOf(l: Lease): LeaseKey {
    LeaseKey(l.designation, l.hex, l.principal)
  }

  predicate Live(l: Lease, now: U64) {
    now < l.expires
  }

  /** Lapsed by the horizon or more. */
  predicate PastHorizon(l: Lease, horizon: U64, now: U64) {
    now >= SaturatingAdd(l.expires, horizon)
  }

  datatype LeaseState = LiveLease(size: U64, expires: U64) | Lapsed(expires: U64) | NoLease

  function StateIn(t: LeaseTable, key: LeaseKey, horizon: U64, now: U64): LeaseState {
    if key !in t then NoLease
    else if Live(t[key], now) then LiveLease(t[key].size, t[key].expires)
    else if PastHorizon(t[key], horizon, now) then NoLease
    else Lapsed(t[key].expires)
  }

  predicate AnyLiveIn(t: LeaseTable, designation: string, hex: string, now: U64) {
    exists key :: key in t && key.designation == designation && key.hex == hex && Live(t[key], now)
  }

  function LiveOfIn(t: LeaseTable, principal: string, now: U64): set<Lease> {
    set key | key in t && key.principal == principal && Live(t[key], now) :: t[key]
  }

  ghost predicate SameAnswersAt(t: LeaseTable, u: LeaseTable, horizon: U64, now: U64) {
    && (forall key :: StateIn(t, key, horizon, now) == StateIn(u, key, horizon, now))
    && (forall designation, hex :: AnyLiveIn(t, designation, hex, now) <==> AnyLiveIn(u, designation, hex, now))
    && (forall principal :: LiveOfIn(t, principal, now) == LiveOfIn(u, principal, now))
  }

  /** No read tells two tables apart at `from` or later. */
  ghost predicate SameAnswers(t: LeaseTable, u: LeaseTable, horizon: U64, from: U64) {
    forall now: U64 :: from <= now ==> SameAnswersAt(t, u, horizon, now)
  }

  /** A table less leases past the horizon at an instant: what the drop leaves. */
  ghost predicate DroppedFrom(t: LeaseTable, part: LeaseTable, horizon: U64, at: U64) {
    && (forall key :: key in part ==> key in t && part[key] == t[key])
    && (forall key :: key in t && key !in part ==> PastHorizon(t[key], horizon, at))
  }

  /** Past the horizon is for good, and never live: at the drop's instant and after, no answer moves. */
  lemma DropMovesNoAnswer(t: LeaseTable, part: LeaseTable, horizon: U64, at: U64)
    requires DroppedFrom(t, part, horizon, at)
    ensures SameAnswers(t, part, horizon, at)
  {
    forall now: U64 | at <= now ensures SameAnswersAt(t, part, horizon, now) {
      assert forall key :: key in t && key !in part ==> PastHorizon(t[key], horizon, now) && !Live(t[key], now);
      forall designation, hex ensures AnyLiveIn(t, designation, hex, now) <==> AnyLiveIn(part, designation, hex, now) {
        AnyLiveMoves(t, part, designation, hex, now);
      }
      forall principal ensures LiveOfIn(t, principal, now) == LiveOfIn(part, principal, now) {
        LiveOfMoves(t, part, principal, now);
      }
    }
  }

  lemma AnyLiveMoves(t: LeaseTable, part: LeaseTable, designation: string, hex: string, now: U64)
    requires forall key :: key in part ==> key in t && part[key] == t[key]
    requires forall key :: key in t && key !in part ==> !Live(t[key], now)
    ensures AnyLiveIn(t, designation, hex, now) <==> AnyLiveIn(part, designation, hex, now)
  {
    if key :| key in t && key.designation == designation && key.hex == hex && Live(t[key], now) {
      assert key in part && Live(part[key], now);
    }
    if key :| key in part && key.designation == designation && key.hex == hex && Live(part[key], now) {
      assert key in t && Live(t[key], now);
    }
  }

  lemma LiveOfMoves(t: LeaseTable, part: LeaseTable, principal: string, now: U64)
    requires forall key :: key in part ==> key in t && part[key] == t[key]
    requires forall key :: key in t && key !in part ==> !Live(t[key], now)
    ensures LiveOfIn(t, principal, now) == LiveOfIn(part, principal, now)
  {
    forall l ensures l in LiveOfIn(t, principal, now) <==> l in LiveOfIn(part, principal, now) {}
  }

  lemma AnswersCompose(t: LeaseTable, u: LeaseTable, v: LeaseTable, horizon: U64, from: U64)
    requires SameAnswers(t, u, horizon, from) && SameAnswers(t, v, horizon, from)
    ensures SameAnswers(u, v, horizon, from)
  {
    forall now: U64 | from <= now ensures SameAnswersAt(u, v, horizon, now) {
      assert SameAnswersAt(t, u, horizon, now) && SameAnswersAt(t, v, horizon, now);
    }
  }

  lemma AnswersLater(t: LeaseTable, u: LeaseTable, horizon: U64, from: U64, later: U64)
    requires SameAnswers(t, u, horizon, from) && from <= later
    ensures SameAnswers(t, u, horizon, later)
  {
  }

  function Later(a: U64, b: U64): U64 {
    if a <= b then b else a
  }

  /** The leases a drop keeps, and those it lets go. */
  function Unlapsed(t: LeaseTable, horizon: U64, now: U64): LeaseTable {
    map key | key in t && !PastHorizon(t[key], horizon, now) :: t[key]
  }

  function LapsedKeys(t: LeaseTable, horizon: U64, now: U64): set<LeaseKey> {
    set key | key in t && PastHorizon(t[key], horizon, now)
  }

  lemma DropAgain(all: LeaseTable, t: LeaseTable, horizon: U64, before: U64, now: U64)
    requires DroppedFrom(all, t, horizon, before)
    ensures Unlapsed(t, horizon, now) == t - LapsedKeys(t, horizon, now)
    ensures DroppedFrom(t, Unlapsed(t, horizon, now), horizon, now)
    ensures DroppedFrom(all, Unlapsed(t, horizon, now), horizon, Later(before, now))
  {
  }

  lemma OneFewer(t: LeaseTable, key: LeaseKey)
    requires key in t
    ensures |t - {key}| == |t| - 1
  {
    assert (t - {key}).Keys == t.Keys - {key};
  }

  function Filtered(t: LeaseTable, keep: Lease -> bool): LeaseTable {
    map key | key in t && keep(t[key]) :: t[key]
  }

  lemma IsFiltered(all: LeaseTable, part: LeaseTable, keep: Lease -> bool)
    requires forall key :: key in part ==> key in all && part[key] == all[key]
    requires forall key :: key in all ==> (key in part <==> keep(all[key]))
    ensures part == Filtered(all, keep)
  {
  }

  // ---------------------------------------------------------------- the map and its index

  /** The index holds the map's keys and no others, and no principal stays in it holding none. */
  predicate Indexed(keys: set<LeaseKey>, index: map<string, set<LeaseKey>>) {
    && (forall key {:trigger key.principal in index} {:trigger index[key.principal]} ::
          key in keys ==> key.principal in index && key in index[key.principal])
    && (forall p {:trigger index[p]} :: p in index ==> index[p] != {})
    && (forall p, key {:trigger key in index[p]} ::
          p in index && key in index[p] ==> key in keys && key.principal == p)
  }

  function Unindexed(index: map<string, set<LeaseKey>>, key: LeaseKey): map<string, set<LeaseKey>>
    requires key.principal in index
  {
    var left := index[key.principal] - {key};
    if left == {} then index - {key.principal} else index[key.principal := left]
  }

  lemma UnindexedKeeps(keys: set<LeaseKey>, index: map<string, set<LeaseKey>>, key: LeaseKey)
    requires Indexed(keys, index) && key in keys
    ensures Indexed(keys - {key}, Unindexed(index, key))
  {
  }

  /** The leases held, and each principal's keys of them beside: the two change together, and nowhere else. */
  class LeaseMap {
    var byHash: LeaseTable
    var byPrincipal: map<string, set<LeaseKey>>

    ghost predicate Valid()
      reads this
    {
      Indexed(byHash.Keys, byPrincipal)
    }

    constructor (t: LeaseTable)
      ensures Valid() && byHash == t
    {
      byHash := t;
      byPrincipal := map key | key in t :: key.principal := (set k | k in t && k.principal == key.principal);
    }

    method Insert(lease: Lease)
      requires Valid()
      modifies this
      ensures Valid() && byHash == old(byHash)[KeyOf(lease) := lease]
    {
      var key := KeyOf(lease);
      var keys := if lease.principal in byPrincipal then byPrincipal[lease.principal] else {};
      byPrincipal := byPrincipal[lease.principal := keys + {key}];
      byHash := byHash[key := lease];
    }

    method Remove(key: LeaseKey)
      requires Valid() && key in byHash
      modifies this
      ensures Valid() && byHash == old(byHash) - {key} && |byHash| == |old(byHash)| - 1
    {
      OneFewer(byHash, key);
      UnindexedKeeps(byHash.Keys, byPrincipal, key);
      assert (byHash - {key}).Keys == byHash.Keys - {key};
      byHash := byHash - {key};
      byPrincipal := Unindexed(byPrincipal, key);
    }

    /** Drops every lease `keep` refuses, and answers how many. */
    method Retain(keep: Lease -> bool) returns (dropped: nat)
      requires Valid()
      modifies this
      ensures Valid()
      ensures byHash == Filtered(old(byHash), keep)
      ensures dropped == |old(byHash)| - |byHash|
    {
      ghost var all := byHash;
      var rest := byHash.Keys;
      dropped := 0;
      while rest != {}
        invariant Valid() && dropped + |byHash| == |all|
        invariant forall key :: key in rest ==> key in byHash
        invariant forall key :: key in byHash ==> key in all && byHash[key] == all[key]
        invariant forall key :: key in all && key !in rest ==> (key in byHash <==> keep(all[key]))
        decreases |rest|
      {
        var key :| key in rest;
        rest := rest - {key};
        if !keep(byHash[key]) {
          Remove(key);
          dropped := dropped + 1;
        }
      }
      IsFiltered(all, byHash, keep);
    }

    method RetainUnlapsed(horizon: U64, now: U64) returns (dropped: nat)
      requires Valid()
      modifies this
      ensures Valid() && byHash == Unlapsed(old(byHash), horizon, now)
    {
      dropped := Retain(l => !PastHorizon(l, horizon, now));
    }

    /** A principal's own keys, by the index. */
    function Of(principal: string): (keys: set<LeaseKey>)
      reads this
      requires Valid()
      ensures keys == set key | key in byHash && key.principal == principal
    {
      if principal in byPrincipal then byPrincipal[principal] else {}
    }
  }

  // ---------------------------------------------------------------- the log and the map

  /**
   * Every lease a table holds is one held, one whose line a failed append left whole as the log stopped, or one past
   * the horizon.
   */
  ghost predicate KnownTable(t: LeaseTable, held: LeaseTable, offered: set<(LeaseKey, Lease)>, horizon: U64, at: U64) {
    forall key :: key in t ==>
      (key in held && t[key] == held[key]) || (key, t[key]) in offered || PastHorizon(t[key], horizon, at)
  }

  ghost predicate AltsKnown(
    p: Promise, c: LeaseCodec, held: LeaseTable, offered: set<(LeaseKey, Lease)>, horizon: U64, at: U64)
  {
    forall alt :: alt in p.alts ==> KnownTable(Fold(alt, c), held, offered, horizon, at)
  }

  lemma KeptIsKnown(
    p: Promise, c: LeaseCodec, held: LeaseTable, gone: set<LeaseKey>, offered: set<(LeaseKey, Lease)>, horizon: U64,
    at: U64, reading: seq<Bytes>)
    requires Agrees(p, held, gone, offered, c) && p.synced == |p.held| && Keeps(p, reading)
    requires DroppedFrom(Fold(p.held, c), held, horizon, at) && AltsKnown(p, c, held, offered, horizon, at)
    ensures KnownTable(Fold(reading, c), held, offered, horizon, at)
  {
    if reading !in p.alts {
      if |reading| == |p.held| {
        assert reading == p.held;
      } else {
        assert reading == p.held + [p.pending[0]];
        FoldPush(p.held, p.pending[0], c);
      }
    }
  }

  /** Whatever of these contents an open reads, every lease it reads is known. */
  ghost predicate ReadsKnown(
    outcomes: set<Bytes>, c: LeaseCodec, held: LeaseTable, offered: set<(LeaseKey, Lease)>, horizon: U64, at: U64)
  {
    forall found {:trigger Reading(found, c.isObject)} :: found in outcomes ==>
      KnownTable(Fold(Reading(found, c.isObject), c), held, offered, horizon, at)
  }

  /** A promise every reading of which is known leaves only leases known. */
  lemma KeptReadsKnown(
    outcomes: set<Bytes>, p: Promise, c: LeaseCodec, held: LeaseTable, gone: set<LeaseKey>,
    offered: set<(LeaseKey, Lease)>, horizon: U64, at: U64)
    requires CrashSafe(outcomes, p, c.isObject) && Agrees(p, held, gone, offered, c) && p.synced == |p.held|
    requires DroppedFrom(Fold(p.held, c), held, horizon, at) && AltsKnown(p, c, held, offered, horizon, at)
    ensures ReadsKnown(outcomes, c, held, offered, horizon, at)
  {
    forall found | found in outcomes
      ensures KnownTable(Fold(Reading(found, c.isObject), c), held, offered, horizon, at)
    {
      KeptIsKnown(p, c, held, gone, offered, horizon, at, Reading(found, c.isObject));
    }
  }

  /** At every instant of an append or a rewrite a crash leaves only leases known. */
  ghost predicate TrailKnown(
    trail: seq<set<Bytes>>, c: LeaseCodec, held: LeaseTable, offered: set<(LeaseKey, Lease)>, horizon: U64, at: U64)
  {
    forall i :: 0 <= i < |trail| ==> ReadsKnown(trail[i], c, held, offered, horizon, at)
  }

  lemma TrailReadsKnown(
    trail: seq<set<Bytes>>, p: Promise, c: LeaseCodec, held: LeaseTable, gone: set<LeaseKey>,
    offered: set<(LeaseKey, Lease)>, horizon: U64, at: U64)
    requires forall i :: 0 <= i < |trail| ==> CrashSafe(trail[i], p, c.isObject)
    requires Agrees(p, held, gone, offered, c) && p.synced == |p.held|
    requires DroppedFrom(Fold(p.held, c), held, horizon, at) && AltsKnown(p, c, held, offered, horizon, at)
    ensures TrailKnown(trail, c, held, offered, horizon, at)
  {
    forall i | 0 <= i < |trail| ensures ReadsKnown(trail[i], c, held, offered, horizon, at) {
      KeptReadsKnown(trail[i], p, c, held, gone, offered, horizon, at);
    }
  }

  lemma RewrittenKnown(
    p: Promise, c: LeaseCodec, held: LeaseTable, gone: set<LeaseKey>, offered: set<(LeaseKey, Lease)>, horizon: U64,
    at: U64, current: seq<Bytes>)
    requires Agrees(p, held, gone, offered, c) && p.synced == |p.held|
    requires DroppedFrom(Fold(p.held, c), held, horizon, at) && AltsKnown(p, c, held, offered, horizon, at)
    ensures AltsKnown(Promise(current, |current|, [], KeptReadings(p)), c, held, offered, horizon, at)
  {
    forall alt | alt in KeptReadings(p) ensures KnownTable(Fold(alt, c), held, offered, horizon, at) {
      KeptReadingsMeaning(p, alt);
      KeptIsKnown(p, c, held, gone, offered, horizon, at, alt);
    }
  }

  lemma DropKeepsKnown(
    p: Promise, c: LeaseCodec, held: LeaseTable, offered: set<(LeaseKey, Lease)>, horizon: U64, before: U64, now: U64)
    requires AltsKnown(p, c, held, offered, horizon, before)
    ensures AltsKnown(p, c, Unlapsed(held, horizon, now), offered, horizon, Later(before, now))
  {
    forall alt | alt in p.alts
      ensures KnownTable(Fold(alt, c), Unlapsed(held, horizon, now), offered, horizon, Later(before, now))
    {
      assert KnownTable(Fold(alt, c), held, offered, horizon, before);
    }
  }

  type LeaseCodec = Codec<LeaseKey, Lease>

  /** What a line of the lease log must hold to be read: its own key, a designation and a hex the name check admits. */
  predicate ReadableLease(key: LeaseKey, l: Lease) {
    key == KeyOf(l) && DesignationOk(l.designation) && HexOk(l.hex)
  }

  ghost predicate GoodLeaseCodec(c: LeaseCodec) {
    && GoodCodec(c) && !c.drops
    && (forall b: Bytes {:trigger c.parse(b)} :: c.parse(b).Some? ==> c.parse(b).value.Put?)
    && forall key: LeaseKey, l: Lease {:trigger c.valid(key, l)} :: c.valid(key, l) <==> ReadableLease(key, l)
  }

  ghost predicate ReadsLease(reading: seq<Bytes>, lease: Lease, c: LeaseCodec) {
    KeyOf(lease) in Fold(reading, c) && Fold(reading, c)[KeyOf(lease)] == lease
  }

  /** What a crash may leave of a log reads the lease. */
  ghost predicate MayRead(outcomes: set<Bytes>, lease: Lease, c: LeaseCodec) {
    exists found :: found in outcomes && ReadsLease(Reading(found, c.isObject), lease, c)
  }

  ghost predicate Offered(p: (LeaseKey, Lease), outcomes: set<Bytes>, c: LeaseCodec) {
    p.0 == KeyOf(p.1) && MayRead(outcomes, p.1, c)
  }

  /** Each of these leases is read by something a crash may leave. */
  ghost predicate AllOffered(offered: set<(LeaseKey, Lease)>, outcomes: set<Bytes>, c: LeaseCodec) {
    forall p {:trigger Offered(p, outcomes, c)} :: p in offered ==> Offered(p, outcomes, c)
  }

  lemma StillOffered(offered: set<(LeaseKey, Lease)>, outcomes: set<Bytes>, more: set<Bytes>, c: LeaseCodec)
    requires AllOffered(offered, outcomes, c) && outcomes <= more
    ensures AllOffered(offered, more, c)
  {
    forall p | p in offered ensures Offered(p, more, c) {
      assert Offered(p, outcomes, c);
    }
  }

  /** A lease whose line stands whole past the lines held may be read. */
  lemma LandedMayRead(outcomes: set<Bytes>, held: seq<Bytes>, lease: Lease, c: LeaseCodec)
    requires GoodLeaseCodec(c) && ReadableLease(KeyOf(lease), lease) && Records(held, c.isObject)
    requires Encode(held + [c.render(Put(KeyOf(lease), lease))]) in outcomes
    ensures MayRead(outcomes, lease, c)
  {
    var put := Put(KeyOf(lease), lease);
    var all := held + [c.render(put)];
    FoldPush(held, c.render(put), c);
    assert c.parse(c.render(put)) == Some(put);
    assert Encode(all) + [] == Encode(all);
    ReadingOf(all, [], c.isObject);
  }

  class LeaseLog {
    const c: LeaseCodec
    const log: Log
    const leases: LeaseMap
    const horizon: U64
    ghost var gone: set<LeaseKey>
    /**
     * Leases no append answered whose line one left whole as the log stopped: each is read by something a crash may
     * leave.
     */
    ghost var offered: set<(LeaseKey, Lease)>
    /** The latest instant a drop judged the horizon at. */
    ghost var droppedAt: U64

    ghost predicate Valid()
      reads this, log, leases
    {
      && log.Valid() && (log.stopped.None? ==> log.Settled() && offered == {})
      && log.promise.synced == |log.promise.held|
      && leases.Valid() && GoodLeaseCodec(c) && log.isObject == c.isObject
      && Agrees(log.promise, leases.byHash, gone, offered, c)
      && DroppedFrom(Fold(log.promise.held, c), leases.byHash, horizon, droppedAt)
      && AltsKnown(log.promise, c, leases.byHash, offered, horizon, droppedAt)
      && AllOffered(offered, Outcomes(log.disk), c)
    }

    /** Opens on the values the log's own open read, what the horizon has passed dropped at `now`. */
    constructor (c: LeaseCodec, log: Log, values: seq<Bytes>, horizon: U64)
      requires GoodLeaseCodec(c) && log.Valid() && log.stopped.None? && log.Settled() && log.isObject == c.isObject
      requires values == log.promise.held && log.promise.synced == |values|
      ensures Valid() && this.c == c && this.log == log && this.horizon == horizon
      ensures leases.byHash == Fold(values, c) && droppedAt == 0 && fresh(leases)
    {
      var folded, _ := FoldLines(values, c);
      this.c, this.log, this.horizon := c, log, horizon;
      this.leases := new LeaseMap(folded);
      this.gone, this.offered, this.droppedAt := {}, {}, 0;
      FoldIsValid(values, c);
    }

    /** Drops every lease past the horizon; each answers as none at `now` and after already. */
    method DropPastHorizon(now: U64) returns (dropped: nat)
      requires Valid()
      modifies this`gone, this`droppedAt, leases
      ensures Valid() && droppedAt == Later(old(droppedAt), now) && log.promise == old(log.promise)
      ensures leases.byHash == Unlapsed(old(leases.byHash), horizon, now)
      ensures SameAnswers(old(leases.byHash), leases.byHash, horizon, now)
    {
      ghost var was, lost := leases.byHash, LapsedKeys(leases.byHash, horizon, now);
      DropAgain(Fold(log.promise.held, c), was, horizon, droppedAt, now);
      AgreesLetGo(log.promise, was, gone, offered, c, lost);
      DropKeepsKnown(log.promise, c, was, offered, horizon, droppedAt, now);
      DropMovesNoAnswer(was, Unlapsed(was, horizon, now), horizon, now);
      dropped := leases.RetainUnlapsed(horizon, now);
      droppedAt := Later(droppedAt, now);
      gone := gone + lost;
    }

    /** The lease's line appended: at every instant of it a crash leaves no lease unknown but that one. */
    method AppendInFlight(lease: Lease, fate: AppendFate) returns (r: AppendResult)
      requires Valid() && ReadableLease(KeyOf(lease), lease)
      modifies log
      ensures log.Valid() && (log.stopped.None? ==> log.Settled())
      ensures FollowsAppend(old(log.promise), c.render(Put(KeyOf(lease), lease)), true, r, log.promise)
      ensures r == Refused <==> old(log.stopped).Some?
      ensures r == Appended || r == Failed ==> log.stopped.None?
      ensures r == Failed ==> log.promise.synced == |log.promise.held|
      ensures r == Refused ==> log.disk == old(log.disk) && log.stopped.Some?
      ensures r == FailedAndStopped ==>
                && log.stopped.Some?
                && (log.promise.pending != [] <==> LandsWhole(c.render(Put(KeyOf(lease), lease)), fate))
                && (log.promise.pending != [] ==>
                      Encode(old(log.promise).held + [c.render(Put(KeyOf(lease), lease))]) in Outcomes(log.disk))
      ensures old(log.stopped).None? && fate.statOk && fate.writeOk && fate.syncOk ==> r == Appended
      ensures old(log.stopped).None? && fate.statOk && fate.writeOk && !fate.syncOk && !fate.cutOk ==>
                r == FailedAndStopped
      ensures TrailKnown(log.trail, c, leases.byHash, offered + {(KeyOf(lease), lease)}, horizon, droppedAt)
    {
      var line := c.render(Put(KeyOf(lease), lease));
      ghost var p, pend := log.promise, if LandsWhole(line, fate) then [line] else [];
      InFlightKnown(lease, pend);
      r := log.AppendBy(line, true, fate);
      TrailReadsKnown(
        log.trail, p.(pending := pend), c, leases.byHash, gone, offered + {(KeyOf(lease), lease)}, horizon, droppedAt);
    }

    /** Appends and syncs a lease, the principal's current one on the hash; the map moves only once it is durable. */
    method AppendSynced(lease: Lease, fate: AppendFate) returns (r: AppendResult)
      requires Valid() && ReadableLease(KeyOf(lease), lease)
      modifies this`gone, this`offered, log, leases
      ensures Valid() && droppedAt == old(droppedAt)
      ensures r == Appended ==> leases.byHash == old(leases.byHash)[KeyOf(lease) := lease] && log.stopped.None?
      ensures r != Appended ==> leases.byHash == old(leases.byHash)
      ensures r == Refused <==> old(log.stopped).Some?
      ensures var line := c.render(Put(KeyOf(lease), lease));
              offered == if r == FailedAndStopped && LandsWhole(line, fate) then old(offered) + {(KeyOf(lease), lease)}
                         else old(offered)
      ensures offered <= old(offered) + {(KeyOf(lease), lease)}
      ensures old(log.stopped).None? && fate.statOk && fate.writeOk && fate.syncOk ==> r == Appended
      ensures old(log.stopped).None? && fate.statOk && fate.writeOk && !fate.syncOk && !fate.cutOk ==>
                r == FailedAndStopped
      ensures TrailKnown(log.trail, c, old(leases.byHash), old(offered) + {(KeyOf(lease), lease)}, horizon, droppedAt)
    {
      var line := c.render(Put(KeyOf(lease), lease));
      ghost var p := log.promise;
      r := AppendInFlight(lease, fate);
      AgreesPut(p, log.promise, leases.byHash, gone, offered, c, KeyOf(lease), lease, r);
      if r == Appended {
        leases.Insert(lease);
        gone := gone - {KeyOf(lease)};
      } else if r == FailedAndStopped && log.promise.pending != [] {
        LandedMayRead(Outcomes(log.disk), p.held, lease, c);
        offered := offered + {(KeyOf(lease), lease)};
      }
    }

    /** A lease's line in flight offers that lease, and nothing else unknown. */
    lemma InFlightKnown(lease: Lease, pend: seq<Bytes>)
      requires Valid() && ReadableLease(KeyOf(lease), lease)
      requires pend == [] || pend == [c.render(Put(KeyOf(lease), lease))]
      ensures var p, more := log.promise.(pending := pend), offered + {(KeyOf(lease), lease)};
              Agrees(p, leases.byHash, gone, more, c) && AltsKnown(p, c, leases.byHash, more, horizon, droppedAt)
    {
      AgreesInFlight(log.promise, leases.byHash, gone, offered, c, KeyOf(lease), lease, pend);
      forall alt | alt in log.promise.alts
        ensures KnownTable(Fold(alt, c), leases.byHash, offered + {(KeyOf(lease), lease)}, horizon, droppedAt)
      {
        assert KnownTable(Fold(alt, c), leases.byHash, offered, horizon, droppedAt);
      }
    }

    /** Rewrites the log to the leases held, in whatever order the map keeps them. */
    method Compact(keys: seq<LeaseKey>, fate: CompactFate) returns (r: CompactResult)
      requires Valid() && |keys| == |leases.byHash| && forall key :: key in keys <==> key in leases.byHash
      modifies this`gone, this`offered, log
      ensures Valid() && droppedAt == old(droppedAt) && offered == (if Alone(r, log.promise) then {} else old(offered))
      ensures CompactOk(fate) ==> r == LeftAsIs || r.Compacted?
      ensures r == LeftAsIs || r.Compacted? ==> log.stopped.None? && HoldsExactly(log.promise.held, leases.byHash, c)
      ensures TrailKnown(log.trail, c, leases.byHash, old(offered), horizon, droppedAt)
    {
      ghost var held, was := log.promise.held, gone;
      var current := Rendered(keys, leases.byHash, c);
      RenderedHoldsExactly(keys, leases.byHash, c);
      r := RewriteTo(current, fate);
      if r == LeftAsIs { CountDecides(held, leases.byHash, was, c); }
    }

    method RewriteTo(current: seq<Bytes>, fate: CompactFate) returns (r: CompactResult)
      requires Valid() && Fold(current, c) == leases.byHash && Records(current, c.isObject)
      modifies this`gone, this`offered, log
      ensures Valid() && droppedAt == old(droppedAt) && offered == (if Alone(r, log.promise) then {} else old(offered))
      ensures CompactOk(fate) ==> r == LeftAsIs || r.Compacted?
      ensures r == LeftAsIs ==> log.stopped.None? && log.promise == old(log.promise) && |current| == |log.promise.held|
      ensures r == LeftAsIs ==> gone == old(gone)
      ensures r.Compacted? ==> log.stopped.None? && log.promise == Promise(current, |current|, [], {})
      ensures TrailKnown(log.trail, c, leases.byHash, old(offered), horizon, droppedAt)
    {
      ghost var p, before := Promise(current, |current|, [], KeptReadings(log.promise)), Outcomes(log.disk);
      AgreesRewritten(log.promise, leases.byHash, gone, offered, c, current);
      RewrittenKnown(log.promise, c, leases.byHash, gone, offered, horizon, droppedAt, current);
      r := log.Compact(current, fate);
      TrailReadsKnown(log.trail, p, c, leases.byHash, {}, offered, horizon, droppedAt);
      if r.Compacted? || r == StoppedPast {
        gone := {};
      }
      if Alone(r, log.promise) {
        offered := {};
      } else {
        StillOffered(offered, before, Outcomes(log.disk), c);
      }
    }

    /** Nothing a crash leaves reads as a lease this store never held, save one a failed append left whole. */
    lemma CrashReadsKnown()
      requires Valid()
      ensures ReadsKnown(Outcomes(log.disk), c, leases.byHash, offered, horizon, droppedAt)
    {
      KeptReadsKnown(Outcomes(log.disk), log.promise, c, leases.byHash, gone, offered, horizon, droppedAt);
    }

    /** And where the log has not stopped, nothing tells what a crash leaves from what was held. */
    lemma CrashMovesNoAnswer(found: Bytes)
      requires Valid() && found in Outcomes(log.disk) && log.stopped.None?
      ensures SameAnswers(Fold(Reading(found, log.isObject), c), leases.byHash, horizon, droppedAt)
    {
      var reading := Reading(found, log.isObject);
      assert Keeps(log.promise, reading);
      assert log.promise.held + [] == log.promise.held;
      assert reading == log.promise.held;
      DropMovesNoAnswer(Fold(reading, c), leases.byHash, horizon, droppedAt);
    }
  }

  /**
   * Compaction, a crash and an open together: the reopened leases, the horizon judged again, answer as before from
   * then on.
   */
  method ReopenLeases(l: LeaseLog, found: Bytes, now: U64) returns (reopened: LeaseLog)
    requires l.Valid() && found in Outcomes(l.log.disk) && l.log.stopped.None?
    ensures reopened.Valid() && reopened.horizon == l.horizon
    ensures SameAnswers(l.leases.byHash, reopened.leases.byHash, l.horizon, Later(l.droppedAt, now))
  {
    l.CrashMovesNoAnswer(found);
    var log := CrashThenOpen(l.log, found);
    var values, _ := WholeLines(ReadLines(found).lines, l.c.isObject);
    reopened := new LeaseLog(l.c, log, values, l.horizon);
    ghost var all := reopened.leases.byHash;
    var _ := reopened.DropPastHorizon(now);
    ghost var from := Later(l.droppedAt, now);
    AnswersLater(all, l.leases.byHash, l.horizon, l.droppedAt, from);
    AnswersLater(all, reopened.leases.byHash, l.horizon, now, from);
    AnswersCompose(all, l.leases.byHash, reopened.leases.byHash, l.horizon, from);
  }
}

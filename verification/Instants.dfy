/**
 * The moments between a store's acts, those inside an append or a rewrite of the lease log among them: the blob disk,
 * what a crash may leave of the lease log, and whose files it could not break.
 */
module Instants {
  import opened Clocks
  import opened LogLines
  import opened Logs
  import opened KeyedLogs
  import opened Leases
  import opened BlobDisks
  import opened Finishes

  type Offers = set<(LeaseKey, Lease)>

  /** The live leases held, and those a failed append left whole in the log. */
  function LiveLeases(held: LeaseTable, offered: Offers, now: U64): set<Lease> {
    (set key | key in held && Live(held[key], now) :: held[key]) + (set p | p in offered && Live(p.1, now) :: p.1)
  }

  predicate LiveOn(l: Lease, d: string, hex: string, now: U64) {
    l.designation == d && l.hex == hex && Live(l, now)
  }

  /** A lease a failed append left whole is live on the hash. */
  predicate OfferedOn(offered: Offers, d: string, hex: string, now: U64) {
    exists p :: p in offered && LiveOn(p.1, d, hex, now)
  }

  /** The lease's hash is one of these. */
  predicate IsOn(key: LeaseKey, hashes: Hashes) {
    (key.designation, key.hex) in hashes
  }

  /** No live lease held is on one of these hashes. */
  predicate NoneHeldOn(held: LeaseTable, hashes: Hashes, now: U64) {
    forall key {:trigger IsOn(key, hashes)} :: key in held && Live(held[key], now) ==> !IsOn(key, hashes)
  }

  /** A hash on which none is held live, excused where one left whole is live on it. */
  function NowExcused(offered: Offers, excused: Hashes, d: string, hex: string, now: U64): Hashes {
    excused + if OfferedOn(offered, d, hex, now) then {(d, hex)} else {}
  }

  lemma OneMoreExcused(held: LeaseTable, offered: Offers, excused: Hashes, d: string, hex: string, now: U64)
    requires !AnyLiveIn(held, d, hex, now) && NoneHeldOn(held, excused, now)
    requires forall key :: key in held ==> key == KeyOf(held[key])
    ensures var more := NowExcused(offered, excused, d, hex, now);
            && NoneHeldOn(held, more, now)
            && forall l :: l in LiveLeases(held, offered, now) && l.designation == d && l.hex == hex ==>
                 (d, hex) in more
  {
    var more := NowExcused(offered, excused, d, hex, now);
    forall key | key in held && Live(held[key], now) ensures !IsOn(key, more) {
      assert !IsOn(key, excused);
    }
  }

  /** A live lease some of these contents read is held, or was left whole by a failed append. */
  lemma ReadIsLive(
    outcomes: set<Bytes>, l: Lease, c: LeaseCodec, held: LeaseTable, offered: Offers, horizon: U64, at: U64, now: U64)
    requires ReadsKnown(outcomes, c, held, offered, horizon, at) && at <= now
    requires Live(l, now) && MayRead(outcomes, l, c)
    ensures (KeyOf(l) in held && held[KeyOf(l)] == l) || (KeyOf(l), l) in offered
    ensures l in LiveLeases(held, offered, now)
  {
    var found :| found in outcomes && ReadsLease(Reading(found, c.isObject), l, c);
    assert KnownTable(Fold(Reading(found, c.isObject), c), held, offered, horizon, at);
    assert !PastHorizon(l, horizon, at);
    if (KeyOf(l), l) in offered { assert Live((KeyOf(l), l).1, now); }
  }

  /** One moment; `out` names the hashes whose file a live lease may lack. */
  datatype Instant = Instant(disk: BlobDisk, outcomes: set<Bytes>, out: Hashes, now: U64)

  /** A crash then leaves every live lease the next open reads its file, save on a hash out. */
  ghost predicate Sound(i: Instant, c: LeaseCodec, hash: Bytes -> string) {
    forall l: Lease {:trigger Covered(i.disk, l, i.out, hash)} ::
      Live(l, i.now) && MayRead(i.outcomes, l, c) ==> Covered(i.disk, l, i.out, hash)
  }

  ghost predicate AllSound(history: seq<Instant>, c: LeaseCodec, hash: Bytes -> string) {
    forall i {:trigger Sound(history[i], c, hash)} :: 0 <= i < |history| ==> Sound(history[i], c, hash)
  }

  lemma KnownIsSound(
    i: Instant, c: LeaseCodec, hash: Bytes -> string, held: LeaseTable, offered: Offers, horizon: U64, at: U64)
    requires ReadsKnown(i.outcomes, c, held, offered, horizon, at) && at <= i.now
    requires AllCovered(i.disk, LiveLeases(held, offered, i.now), i.out, hash)
    ensures Sound(i, c, hash)
  {
    forall l: Lease | Live(l, i.now) && MayRead(i.outcomes, l, c) ensures Covered(i.disk, l, i.out, hash) {
      ReadIsLive(i.outcomes, l, c, held, offered, horizon, at, i.now);
    }
  }

  lemma SoundOn(history: seq<Instant>, more: seq<Instant>, c: LeaseCodec, hash: Bytes -> string)
    requires AllSound(history, c, hash) && AllSound(more, c, hash)
    ensures AllSound(history + more, c, hash)
  {
    var all := history + more;
    forall i | 0 <= i < |all| ensures Sound(all[i], c, hash) {
      if i < |history| { assert Sound(history[i], c, hash); } else { assert Sound(more[i - |history|], c, hash); }
    }
  }

  /** The instants of an append or a rewrite of the lease log, the disk standing still. */
  function InstantsOf(trail: seq<set<Bytes>>, k: BlobDisk, out: Hashes, now: U64): (r: seq<Instant>)
    ensures |r| == |trail| && forall i :: 0 <= i < |r| ==> r[i] == Instant(k, trail[i], out, now)
  {
    seq(|trail|, i requires 0 <= i < |trail| => Instant(k, trail[i], out, now))
  }

  lemma TrailIsSound(
    trail: seq<set<Bytes>>, k: BlobDisk, out: Hashes, now: U64, c: LeaseCodec, hash: Bytes -> string,
    held: LeaseTable, offered: Offers, horizon: U64, at: U64)
    requires TrailKnown(trail, c, held, offered, horizon, at) && at <= now
    requires AllCovered(k, LiveLeases(held, offered, now), out, hash)
    ensures AllSound(InstantsOf(trail, k, out, now), c, hash)
  {
    var instants := InstantsOf(trail, k, out, now);
    forall i | 0 <= i < |instants| ensures Sound(instants[i], c, hash) {
      assert ReadsKnown(trail[i], c, held, offered, horizon, at);
      KnownIsSound(instants[i], c, hash, held, offered, horizon, at);
    }
  }

  lemma FewerCovered(k: BlobDisk, was: set<Lease>, leases: set<Lease>, out: Hashes, more: Hashes, hash: Bytes -> string)
    requires AllCovered(k, was, out, hash) && leases <= was
    requires forall l :: l in leases && (l.designation, l.hex) in out ==>
               (l.designation, l.hex) in more || !MayBeNameless(k, l.designation, l.hex)
    ensures AllCovered(k, leases, more, hash)
  {
    forall l | l in leases ensures Covered(k, l, more, hash) {
      assert Covered(k, l, out, hash);
    }
  }

  /** A lease taken on, held or left whole, its file durable. */
  lemma OneMoreCovered(
    k: BlobDisk, held: LeaseTable, offered: Offers, out: Hashes, now: U64, l: Lease, hash: Bytes -> string)
    requires AllCovered(k, LiveLeases(held, offered, now), out, hash) && StandsFor(k, l, hash)
    ensures AllCovered(k, LiveLeases(held[KeyOf(l) := l], offered, now), out, hash)
    ensures AllCovered(k, LiveLeases(held, offered + {(KeyOf(l), l)}, now), out, hash)
  {
    CoveredStands(k, l, out, hash);
    var was := LiveLeases(held, offered, now);
    forall m | m in LiveLeases(held[KeyOf(l) := l], offered, now) ensures Covered(k, m, out, hash) {
      assert m == l || m in was;
    }
    forall m | m in LiveLeases(held, offered + {(KeyOf(l), l)}, now) ensures Covered(k, m, out, hash) {
      assert m == l || m in was;
    }
  }
}

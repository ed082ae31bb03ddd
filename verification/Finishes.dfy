/**
 * The finish of an upload and the acts that run beside it, over a disk that forgets: whatever fails and wherever
 * a crash falls, a live lease names a whole, durable file.
 */
module Finishes {
  import opened Wrappers
  import opened Clocks
  import opened LogLines
  import opened Logs
  import opened KeyedLogs
  import opened UploadLogs
  import opened Leases
  import opened BlobDisks
  import opened PartialPaths

  ghost predicate StandsFor(k: BlobDisk, l: Lease, hash: Bytes -> string) {
    Durably(k, l.designation, l.hex, l.size, hash)
  }

  /** What a crash left holds the lease's file: at its name, whole, the bytes its hash is of. */
  predicate FileLeft(left: Left, l: Lease, hash: Bytes -> string) {
    HoldsFile(left, l.designation, l.hex, l.size, hash)
  }

  type Hashes = set<(string, string)>

  /**
   * A lease's file is wherever a crash leaves its name; and a crash may leave no name only on a hash known to be out.
   */
  ghost predicate Covered(k: BlobDisk, l: Lease, out: Hashes, hash: Bytes -> string) {
    && GoodWhereNamed(k, l.designation, l.hex, l.size, hash)
    && (MayBeNameless(k, l.designation, l.hex) ==> (l.designation, l.hex) in out)
  }

  lemma CoveredStands(k: BlobDisk, l: Lease, out: Hashes, hash: Bytes -> string)
    ensures Covered(k, l, out, hash) && (l.designation, l.hex) !in out ==> StandsFor(k, l, hash)
    ensures StandsFor(k, l, hash) ==> Covered(k, l, out, hash)
  {
    DurablyIsBoth(k, l.designation, l.hex, l.size, hash);
  }

  ghost predicate AllCovered(k: BlobDisk, leases: set<Lease>, out: Hashes, hash: Bytes -> string) {
    forall l {:trigger Covered(k, l, out, hash)} :: l in leases ==> Covered(k, l, out, hash)
  }

  // ---------------------------------------------------------------- the acts keep every lease's file

  /** An act that loses no hash its file keeps every lease's. */
  lemma NothingLostCovers(k: BlobDisk, after: BlobDisk, leases: set<Lease>, out: Hashes, hash: Bytes -> string)
    requires AllCovered(k, leases, out, hash) && LosesNothing(k, after)
    ensures AllCovered(after, leases, out, hash)
  {
    forall l | l in leases ensures Covered(after, l, out, hash) {
      assert Covered(k, l, out, hash);
    }
  }

  lemma LinkLosesNothing(k: BlobDisk, d: string, hex: string, serial: nat)
    requires GoodDisk(k) && d in k.dirs && Hex(hex) in k.dirs[d].live
    ensures LosesNothing(k, WithDir(k, d, Changed(k.dirs[d], Linked(k.dirs[d].live, hex, serial))))
  {
    LinkedShape(k, d, hex, serial);
    HexNamesKept(k, d, Linked(k.dirs[d].live, hex, serial));
  }

  /** The leases on a hash are of one size: what a replace takes of the hash, for the leases and the bytes it meets. */
  ghost predicate SizesAgree(leases: set<Lease>, d: string, hex: string, size: nat) {
    forall l :: l in leases && l.designation == d && l.hex == hex ==> l.size == size
  }

  /** It holds over a file standing at the name, where what hashes alike there is alike. */
  lemma SameContentAgrees(
    k: BlobDisk, leases: set<Lease>, out: Hashes, d: string, bytes: Bytes, hash: Bytes -> string)
    requires WfBlobDisk(k) && AllCovered(k, leases, out, hash) && d in k.dirs && Hex(hash(bytes)) in k.dirs[d].live
    requires var i := k.dirs[d].live[Hex(hash(bytes))];
             i in k.files && forall b :: b in k.files[i].may && hash(b) == hash(bytes) ==> b == bytes
    ensures SizesAgree(leases, d, hash(bytes), |bytes|)
  {
    assert WfDir(k.dirs[d], k.files);
    var f := k.files[k.dirs[d].live[Hex(hash(bytes))]];
    forall l | l in leases && l.designation == d && l.hex == hash(bytes) ensures l.size == |bytes| {
      assert Covered(k, l, out, hash) && GoodFile(f, l.hex, l.size, hash) && f.live in f.may;
    }
  }

  /** The rename over a hash's name keeps a file for every lease, those on that hash and lost before among them. */
  lemma InstalledStands(
    k: BlobDisk, d: string, id: nat, leases: set<Lease>, out: Hashes, bytes: Bytes, hash: Bytes -> string)
    requires AllCovered(k, leases, out, hash) && WfBlobDisk(k) && SizesAgree(leases, d, hash(bytes), |bytes|)
    requires d in k.dirs && Partial(id) in k.dirs[d].live && k.dirs[d].live[Partial(id)] in k.files
    requires k.files[k.dirs[d].live[Partial(id)]] == FileDisk(bytes, {bytes})
    ensures AllCovered(
              WithDir(k, d, Changed(k.dirs[d], Installed(k.dirs[d].live, id, hash(bytes)))), leases, out, hash)
  {
    var live, hex := k.dirs[d].live, hash(bytes);
    var after := WithDir(k, d, Changed(k.dirs[d], Installed(live, id, hex)));
    assert WfDir(k.dirs[d], k.files);
    forall l | l in leases ensures Covered(after, l, out, hash) {
      assert Covered(k, l, out, hash);
      NamesKept(k, d, Installed(live, id, hex), l.designation, l.hex, l.size, hash);
      if l.designation == d && !MayBeNameless(k, d, l.hex) {
        forall m | m in after.dirs[d].may ensures Hex(l.hex) in m {
          if m !in k.dirs[d].may { assert Hex(l.hex) in live; }
        }
      }
    }
  }

  /** A hash's name gone costs only the leases on that hash, and none of its files is wrong for them. */
  lemma HashGoneStands(
    k: BlobDisk, d: string, hex: string, live: Names, leases: set<Lease>, out: Hashes, hash: Bytes -> string)
    requires AllCovered(k, leases, out, hash) && WfBlobDisk(k) && d in k.dirs && Hex(hex) !in live
    requires forall n :: n in k.dirs[d].live && n.Hex? && n != Hex(hex) ==> n in live && live[n] == k.dirs[d].live[n]
    requires forall n :: n in live && n.Hex? ==> n in k.dirs[d].live
    requires forall l :: l in leases && l.designation == d && l.hex == hex ==> (d, hex) in out
    ensures AllCovered(WithDir(k, d, Changed(k.dirs[d], live)), leases, out, hash)
  {
    var after := WithDir(k, d, Changed(k.dirs[d], live));
    assert WfDir(k.dirs[d], k.files);
    forall l | l in leases ensures Covered(after, l, out, hash) {
      assert Covered(k, l, out, hash);
      NamesKept(k, d, live, l.designation, l.hex, l.size, hash);
      if l.designation == d && l.hex != hex && !MayBeNameless(k, d, l.hex) {
        forall m | m in after.dirs[d].may ensures Hex(l.hex) in m {
          if m !in k.dirs[d].may { assert Hex(l.hex) in k.dirs[d].live; }
        }
      }
    }
  }

  // ---------------------------------------------------------------- the acts keep the disk's own shape

  lemma LinkedShape(k: BlobDisk, d: string, hex: string, serial: nat)
    requires GoodDisk(k) && d in k.dirs && Hex(hex) in k.dirs[d].live
    ensures GoodDisk(WithDir(k, d, Changed(k.dirs[d], Linked(k.dirs[d].live, hex, serial))))
  {
    var live := k.dirs[d].live;
    assert DirShape(k.dirs[d]) && PartialsAlone(live);
    forall n | n in Linked(live, hex, serial) ensures exists o :: o in live && live[o] == Linked(live, hex, serial)[n] {
      if n == Aside(hex, serial) { assert live[Hex(hex)] == Linked(live, hex, serial)[n]; }
    }
    NewVersionShape(k, d, Linked(live, hex, serial));
  }

  lemma InstalledShape(k: BlobDisk, d: string, id: nat, hex: string)
    requires GoodDisk(k) && d in k.dirs && Partial(id) in k.dirs[d].live
    ensures GoodDisk(WithDir(k, d, Changed(k.dirs[d], Installed(k.dirs[d].live, id, hex))))
  {
    var live := k.dirs[d].live;
    assert DirShape(k.dirs[d]) && PartialsAlone(live);
    forall n | n in Installed(live, id, hex) ensures exists o :: o in live && live[o] == Installed(live, id, hex)[n] {
      if n == Hex(hex) { assert live[Partial(id)] == Installed(live, id, hex)[n]; }
    }
    NewVersionShape(k, d, Installed(live, id, hex));
  }

  // ---------------------------------------------------------------- a replace never leaves the hash without a file

  function LinkedInodes(live: Names): set<nat> {
    set n | n in live :: live[n]
  }

  /** What a finish keeps of its directory: every file a name, the hash its file, every other name as it was. */
  ghost predicate FinishKeeps(before: Names, after: Names, id: nat, hex: string) {
    && LinkedInodes(before) <= LinkedInodes(after)
    && (Hex(hex) in before ==> Hex(hex) in after)
    && (forall n :: n in before && n != Partial(id) && n != Hex(hex) ==> n in after && after[n] == before[n])
  }

  /** The link keeps the replaced file a name; the rename then drops no file's last one. */
  lemma LinkThenInstallKeeps(live: Names, id: nat, hex: string, serial: nat)
    requires Partial(id) in live && (Hex(hex) in live ==> Aside(hex, serial) !in live)
    ensures Hex(hex) in live ==> FinishKeeps(live, Linked(live, hex, serial), id, hex)
    ensures Hex(hex) in live ==> FinishKeeps(live, Installed(Linked(live, hex, serial), id, hex), id, hex)
    ensures Hex(hex) !in live ==> FinishKeeps(live, Installed(live, id, hex), id, hex)
  {
    if Hex(hex) in live {
      var linked := Linked(live, hex, serial);
      var after := Installed(linked, id, hex);
      forall i | i in LinkedInodes(live) ensures i in LinkedInodes(linked) && i in LinkedInodes(after) {
        var n :| n in live && live[n] == i;
        assert linked[n] == i;
        if n == Hex(hex) { assert after[Aside(hex, serial)] == i; }
        else if n == Partial(id) { assert after[Hex(hex)] == i; }
        else { assert after[n] == i; }
      }
    } else {
      var after := Installed(live, id, hex);
      forall i | i in LinkedInodes(live) ensures i in LinkedInodes(after) {
        var n :| n in live && live[n] == i;
        if n == Partial(id) { assert after[Hex(hex)] == i; } else { assert after[n] == i; }
      }
    }
  }

  lemma LinkKeeps(live: Names, id: nat, hex: string, serial: nat)
    requires Hex(hex) in live && Aside(hex, serial) !in live
    ensures FinishKeeps(live, Linked(live, hex, serial), id, hex)
  {
    forall i | i in LinkedInodes(live) ensures i in LinkedInodes(Linked(live, hex, serial)) {
      var n :| n in live && live[n] == i;
      assert Linked(live, hex, serial)[n] == i;
    }
  }

  /** What a finish keeps at every instant: all that of its directory, and every other upload's partial. */
  ghost predicate Spares(was: BlobDisk, k: BlobDisk, d: string, id: nat, hex: string) {
    && d in was.dirs && d in k.dirs && FinishKeeps(was.dirs[d].live, k.dirs[d].live, id, hex)
    && KeepsPartials(was, k, {PartialKey(d, id)})
  }

  lemma SparesItself(k: BlobDisk, d: string, id: nat, hex: string)
    requires d in k.dirs
    ensures Spares(k, k, d, id, hex)
  {
  }

  /** An act that leaves the directory's names alone, and every other partial. */
  lemma SparesOn(
    was: BlobDisk, k: BlobDisk, after: BlobDisk, d: string, id: nat, hex: string, acted: set<PartialKey>)
    requires Spares(was, k, d, id, hex) && d in after.dirs && after.dirs[d].live == k.dirs[d].live
    requires KeepsPartials(k, after, acted) && acted <= {PartialKey(d, id)}
    ensures Spares(was, after, d, id, hex)
  {
    KeepsPartialsOn(was, k, after, {PartialKey(d, id)}, acted, {PartialKey(d, id)});
  }

  /** An act that changes the directory's names as a finish may. */
  lemma SparesNamed(
    was: BlobDisk, k: BlobDisk, after: BlobDisk, d: string, id: nat, hex: string, acted: set<PartialKey>)
    requires Spares(was, k, d, id, hex) && d in after.dirs && FinishKeeps(was.dirs[d].live, after.dirs[d].live, id, hex)
    requires KeepsPartials(k, after, acted) && acted <= {PartialKey(d, id)}
    ensures Spares(was, after, d, id, hex)
  {
    KeepsPartialsOn(was, k, after, {PartialKey(d, id)}, acted, {PartialKey(d, id)});
  }

  lemma LinkKeepsPartials(k: BlobDisk, d: string, hex: string, serial: nat)
    requires WfBlobDisk(k) && d in k.dirs && Hex(hex) in k.dirs[d].live
    ensures KeepsPartials(k, WithDir(k, d, Changed(k.dirs[d], Linked(k.dirs[d].live, hex, serial))), {})
  {
    var was, live := k.dirs[d].live, Linked(k.dirs[d].live, hex, serial);
    forall n | n in live && !n.Partial? ensures IsFrom(was, live[n], d, {}) {
      if n == Aside(hex, serial) { assert was[Hex(hex)] == live[n]; } else { assert was[n] == live[n]; }
    }
    NamesKeepPartials(k, d, live, {});
  }

  lemma InstallKeepsPartials(k: BlobDisk, d: string, id: nat, hex: string)
    requires WfBlobDisk(k) && d in k.dirs && Partial(id) in k.dirs[d].live
    ensures KeepsPartials(
              k, WithDir(k, d, Changed(k.dirs[d], Installed(k.dirs[d].live, id, hex))), {PartialKey(d, id)})
  {
    var was, live := k.dirs[d].live, Installed(k.dirs[d].live, id, hex);
    forall n | n in live && !n.Partial? ensures IsFrom(was, live[n], d, {PartialKey(d, id)}) {
      if n == Hex(hex) { assert was[Partial(id)] == live[n]; } else { assert was[n] == live[n]; }
    }
    NamesKeepPartials(k, d, live, {PartialKey(d, id)});
  }

  // ---------------------------------------------------------------- the acts beside a finish

  /** The pruner's rename aside touches no partial. */
  lemma SetAsideKeepsPartials(k: BlobDisk, d: string, hex: string, serial: nat)
    requires WfBlobDisk(k) && d in k.dirs && Hex(hex) in k.dirs[d].live
    ensures KeepsPartials(k, WithDir(k, d, Changed(k.dirs[d], SetAside(k.dirs[d].live, hex, serial))), {})
  {
    var was, live := k.dirs[d].live, SetAside(k.dirs[d].live, hex, serial);
    forall n | n in live && !n.Partial? ensures IsFrom(was, live[n], d, {}) {
      if n == Aside(hex, serial) { assert was[Hex(hex)] == live[n]; } else { assert was[n] == live[n]; }
    }
    NamesKeepPartials(k, d, live, {});
  }

  lemma SetAsideShape(k: BlobDisk, d: string, hex: string, serial: nat)
    requires GoodDisk(k) && d in k.dirs && Hex(hex) in k.dirs[d].live
    ensures GoodDisk(WithDir(k, d, Changed(k.dirs[d], SetAside(k.dirs[d].live, hex, serial))))
  {
    assert DirShape(k.dirs[d]) && PartialsAlone(k.dirs[d].live);
    SetAsideIsNext(k.dirs[d].live, hex, serial);
    NewVersionShape(k, d, SetAside(k.dirs[d].live, hex, serial));
  }

  lemma SetAsideIsNext(live: Names, hex: string, serial: nat)
    requires PartialsAlone(live) && Hex(hex) in live
    ensures NextVersion(live, SetAside(live, hex, serial))
  {
    var after := SetAside(live, hex, serial);
    forall n | n in after ensures exists o :: o in live && live[o] == after[n] {
      if n == Aside(hex, serial) { assert live[Hex(hex)] == after[n]; } else { assert live[n] == after[n]; }
    }
  }
}

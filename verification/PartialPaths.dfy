/**
 * The partials on the disk: what stands at each upload's path, what a crash leaves of it, and what every act on the
 * disk keeps of the partials it is not about.
 */
module PartialPaths {
  import opened Wrappers
  import opened LogLines
  import opened Logs
  import opened BlobDisks

  /** A partial's path: its designation directory and the identifier its name spells. */
  datatype PartialKey = PartialKey(designation: string, id: nat)

  type PartialFiles = map<PartialKey, Bytes>

  predicate HoldsPartial(dirs: map<string, Names>, k: PartialKey) {
    k.designation in dirs && Partial(k.id) in dirs[k.designation]
  }

  function PartialKeys(dirs: map<string, Names>): (keys: set<PartialKey>)
    ensures forall k :: k in keys <==> HoldsPartial(dirs, k)
  {
    set d, n | d in dirs && n in dirs[d] && n.Partial? :: PartialKey(d, n.id)
  }

  /** The partials a crash left: each path's bytes. */
  function PartialsIn(left: Left): PartialFiles {
    map k | k in PartialKeys(left.dirs) && left.dirs[k.designation][Partial(k.id)] in left.files
      :: left.files[left.dirs[k.designation][Partial(k.id)]]
  }

  lemma FoundPartial(left: Left, p: PartialKey)
    ensures p in PartialsIn(left) <==>
              HoldsPartial(left.dirs, p) && left.dirs[p.designation][Partial(p.id)] in left.files
    ensures p in PartialsIn(left) ==> PartialsIn(left)[p] == left.files[left.dirs[p.designation][Partial(p.id)]]
  {
  }

  /** The disk exactly as the process sees it: one of the things a crash may leave. */
  function Seen(k: BlobDisk): Left {
    Left(map d | d in k.dirs :: k.dirs[d].live, map i | i in k.files :: k.files[i].live)
  }

  lemma SeenMayBeLeft(k: BlobDisk)
    requires WfBlobDisk(k)
    ensures MayLeave(k, Seen(k))
  {
    assert forall d :: d in k.dirs ==> WfDir(k.dirs[d], k.files);
  }

  /** The file a partial's path names now. */
  function Entry(k: BlobDisk, p: PartialKey): Option<nat> {
    if p.designation in k.dirs then NameIn(k.dirs[p.designation].live, Partial(p.id)) else None
  }

  /** Every version of its directory since the last sync names the partial, over one file. */
  ghost predicate Throughout(k: BlobDisk, p: PartialKey) {
    && Entry(k, p).Some?
    && forall m :: m in k.dirs[p.designation].may ==> NameIn(m, Partial(p.id)) == Entry(k, p)
  }

  /** In whatever a crash now leaves of its directory, the partial's name stands there over a file beginning so. */
  ghost predicate PartialHeld(k: BlobDisk, p: PartialKey, prefix: Bytes) {
    && Throughout(k, p) && Entry(k, p).value in k.files
    && forall b :: b in k.files[Entry(k, p).value].may ==> prefix <= b
  }

  /** And a crash leaves the directory: its own entry in the root is durable. */
  ghost predicate PartialDurable(k: BlobDisk, p: PartialKey, prefix: Bytes) {
    p.designation in k.rootDurable && PartialHeld(k, p, prefix)
  }

  lemma CrashKeepsPartial(k: BlobDisk, left: Left, p: PartialKey, prefix: Bytes)
    requires MayLeaveByName(k, left) && PartialDurable(k, p, prefix)
    ensures p in PartialsIn(left) && prefix <= PartialsIn(left)[p]
  {
    var name := NameIn(left.dirs[p.designation], Partial(p.id));
    var m :| m in k.dirs[p.designation].may && NameIn(m, Partial(p.id)) == name;
    assert name == Entry(k, p);
    FoundPartial(left, p);
  }

  /**
   * A partial held in its directory survives every crash exactly where its directory's entry in the root is durable.
   */
  lemma SurvivesWithItsDirectory(k: BlobDisk, p: PartialKey, prefix: Bytes)
    requires WfBlobDisk(k) && PartialHeld(k, p, prefix)
    ensures (forall left :: MayLeave(k, left) ==> p in PartialsIn(left)) <==> p.designation in k.rootDurable
  {
    if p.designation in k.rootDurable {
      forall left | MayLeave(k, left) ensures p in PartialsIn(left) {
        MayLeaveIsByName(k, left);
        CrashKeepsPartial(k, left, p, prefix);
      }
    } else {
      var seen := Seen(k);
      SeenMayBeLeft(k);
      var left := seen.(dirs := seen.dirs - {p.designation});
      assert MayLeave(k, left);
      FoundPartial(left, p);
    }
  }

  // ---------------------------------------------------------------- a partial's own file

  /** Whatever a crash leaves of the file, its first `n` bytes are the ones it holds now. */
  ghost predicate DurableTo(f: FileDisk, n: nat) {
    n <= |f.live| && forall b :: b in f.may ==> n <= |b| && b[..n] == f.live[..n]
  }

  lemma WritesPastKeep(f: FileDisk, bytes: Bytes, k: nat, n: nat)
    requires DurableTo(f, n) && k <= |bytes|
    ensures DurableTo(Wrote(f, bytes, k), n) && Wrote(f, bytes, k).live[..n] == f.live[..n]
    ensures |Wrote(f, bytes, k).live| == |f.live| + k
  {
    var w := Wrote(f, bytes, k);
    assert w.live[..n] == f.live[..n];
    forall b | b in w.may ensures n <= |b| && b[..n] == w.live[..n] {
      if b !in f.may {
        var j :| 0 <= j <= k && b == f.live + bytes[..j];
        assert b[..n] == f.live[..n];
      }
    }
  }

  lemma CutKeeps(f: FileDisk, n: nat)
    requires DurableTo(f, n)
    ensures DurableTo(CutTo(f, n), n) && CutTo(f, n).live == f.live[..n]
  {
  }

  /** A version of a directory has the file under the name. */
  predicate NamedIn(k: BlobDisk, d: string, m: Names, n: Name, i: nat) {
    d in k.dirs && m in k.dirs[d].may && n in m && m[n] == i
  }

  /** No name but this partial's has been the file's since its directory's last sync. */
  ghost predicate OnlyIts(k: BlobDisk, p: PartialKey, i: nat) {
    && i in k.files
    && forall d, m, n {:trigger NamedIn(k, d, m, n, i)} :: NamedIn(k, d, m, n, i) ==>
         d == p.designation && n == Partial(p.id)
  }

  /** Some version of the directory names the file by the partial's name: a crash, or the process, may meet it there. */
  ghost predicate MayMeet(k: BlobDisk, p: PartialKey, i: nat) {
    p.designation in k.dirs && exists m :: m in k.dirs[p.designation].may && NameIn(m, Partial(p.id)) == Some(i)
  }

  lemma EntryIsOnlyIts(k: BlobDisk, p: PartialKey)
    requires GoodDisk(k) && Entry(k, p).Some?
    ensures OnlyIts(k, p, Entry(k, p).value) && MayMeet(k, p, Entry(k, p).value)
  {
    var i, dir := Entry(k, p).value, k.dirs[p.designation];
    assert WfDir(dir, k.files) && DirShape(dir);
    assert NameIn(dir.live, Partial(p.id)) == Some(i);
    assert i in DirFiles(dir);
    forall d, m, n | NamedIn(k, d, m, n, i) ensures d == p.designation && n == Partial(p.id) {
      assert i in DirFiles(k.dirs[d]);
    }
  }

  // ---------------------------------------------------------------- what an act keeps of the partials it is not about

  /** The file holds what it held, and is no more in doubt than it was. */
  predicate SameFile(before: BlobDisk, after: BlobDisk, i: nat)
    requires i in before.files && i in after.files
  {
    after.files[i] == before.files[i] && (i in after.doubted ==> i in before.doubted)
  }

  /** Every partial not spared keeps its name, its file and its bytes; no directory and no entry of one is lost. */
  ghost predicate KeepsPartials(before: BlobDisk, after: BlobDisk, spared: set<PartialKey>) {
    && before.rootDurable <= after.rootDurable && before.dirs.Keys <= after.dirs.Keys
    && (forall p {:trigger Entry(after, p)} :: p !in spared ==> Entry(after, p) == Entry(before, p))
    && (forall p {:trigger Throughout(after, p)} {:trigger Throughout(before, p)} ::
          p !in spared && Throughout(before, p) ==> Throughout(after, p))
    && (forall p, i {:trigger OnlyIts(after, p, i)} {:trigger OnlyIts(before, p, i)} ::
          p !in spared && OnlyIts(before, p, i) ==>
            && OnlyIts(after, p, i)
            && (MayMeet(after, p, i) ==> MayMeet(before, p, i) && SameFile(before, after, i)))
  }

  lemma KeepsPartialsOn(
    a: BlobDisk, b: BlobDisk, c: BlobDisk, before: set<PartialKey>, past: set<PartialKey>, spared: set<PartialKey>)
    requires KeepsPartials(a, b, before) && KeepsPartials(b, c, past) && before <= spared && past <= spared
    ensures KeepsPartials(a, c, spared)
  {
    forall p, i | p !in spared && OnlyIts(a, p, i)
      ensures OnlyIts(c, p, i) && (MayMeet(c, p, i) ==> MayMeet(a, p, i) && SameFile(a, c, i))
    {
      assert OnlyIts(b, p, i);
    }
  }

  /** Every partial's file, its name kept or not, keeps its bytes, and takes no other name. */
  ghost predicate KeepsFiles(before: BlobDisk, after: BlobDisk) {
    && before.dirs.Keys <= after.dirs.Keys
    && (forall p, i {:trigger OnlyIts(after, p, i)} {:trigger OnlyIts(before, p, i)} :: OnlyIts(before, p, i) ==>
          && OnlyIts(after, p, i)
          && (MayMeet(after, p, i) ==> MayMeet(before, p, i) && SameFile(before, after, i)))
  }

  lemma KeepsFilesOn(a: BlobDisk, b: BlobDisk, c: BlobDisk)
    requires KeepsFiles(a, b) && KeepsPartials(b, c, {})
    ensures KeepsFiles(a, c)
  {
    forall p, i | OnlyIts(a, p, i)
      ensures OnlyIts(c, p, i) && (MayMeet(c, p, i) ==> MayMeet(a, p, i) && SameFile(a, c, i))
    {
      assert OnlyIts(b, p, i);
    }
  }

  /** A partial unlinked leaves its file to whoever holds it open. */
  lemma GoneKeepsFiles(k: BlobDisk, p: PartialKey)
    requires WfBlobDisk(k) && p.designation in k.dirs
    ensures KeepsFiles(k, WithoutName(k, p.designation, Partial(p.id)))
  {
    var d := p.designation;
    var after := WithoutName(k, d, Partial(p.id));
    assert WfDir(k.dirs[d], k.files);
    forall q, i: nat | OnlyIts(k, q, i)
      ensures OnlyIts(after, q, i) && (MayMeet(after, q, i) ==> MayMeet(k, q, i))
    {
      forall e, m, n | NamedIn(after, e, m, n, i) ensures e == q.designation && n == Partial(q.id) {
        assert NamedIn(k, e, if m in k.dirs[e].may then m else k.dirs[d].live, n, i);
      }
      if MayMeet(after, q, i) {
        var m :| m in after.dirs[q.designation].may && NameIn(m, Partial(q.id)) == Some(i);
        if m !in k.dirs[q.designation].may { assert NameIn(k.dirs[d].live, Partial(q.id)) == Some(i); }
      }
    }
  }

  function NameAt(k: BlobDisk, d: string, n: Name): Option<nat> {
    if d in k.dirs then NameIn(k.dirs[d].live, n) else None
  }

  /** No name but a partial's is made, dropped or moved. */
  ghost predicate SameBeside(before: BlobDisk, after: BlobDisk) {
    forall d, n: Name {:trigger NameAt(after, d, n)} :: !n.Partial? ==> NameAt(after, d, n) == NameAt(before, d, n)
  }

  lemma SameBesideOn(a: BlobDisk, b: BlobDisk, c: BlobDisk)
    requires SameBeside(a, b) && SameBeside(b, c)
    ensures SameBeside(a, c)
  {
    forall d, n: Name | !n.Partial? ensures NameAt(c, d, n) == NameAt(a, d, n) {
      assert NameAt(c, d, n) == NameAt(b, d, n) == NameAt(a, d, n);
    }
  }

  /** So a partial held stays held, its first bytes the same, and its bytes now as they were. */
  lemma HeldStays(before: BlobDisk, after: BlobDisk, spared: set<PartialKey>, p: PartialKey, prefix: Bytes)
    requires GoodDisk(before) && GoodDisk(after) && KeepsPartials(before, after, spared)
    requires p !in spared && PartialHeld(before, p, prefix)
    ensures PartialHeld(after, p, prefix) && PartialAt(after, p) == PartialAt(before, p)
  {
    EntryStays(before, after, spared, p);
  }

  lemma EntryStays(before: BlobDisk, after: BlobDisk, spared: set<PartialKey>, p: PartialKey)
    requires GoodDisk(before) && GoodDisk(after) && KeepsPartials(before, after, spared) && p !in spared
    ensures Entry(after, p) == Entry(before, p)
    ensures Entry(before, p).Some? ==>
              && Entry(before, p).value in before.files && Entry(before, p).value in after.files
              && after.files[Entry(before, p).value] == before.files[Entry(before, p).value]
  {
    assert Entry(after, p) == Entry(before, p);
    if Entry(before, p).Some? {
      EntryIsOnlyIts(before, p);
      EntryIsOnlyIts(after, p);
    }
  }

  /** A change of one directory's names that renames no partial but those spared, and gives no other's file away. */
  lemma NamesKeepPartials(k: BlobDisk, d: string, live: Names, spared: set<PartialKey>)
    requires WfBlobDisk(k) && d in k.dirs
    requires forall id :: PartialKey(d, id) !in spared ==>
               NameIn(live, Partial(id)) == NameIn(k.dirs[d].live, Partial(id))
    requires forall id :: Partial(id) in live ==> NameIn(k.dirs[d].live, Partial(id)) == Some(live[Partial(id)])
    requires forall n :: n in live && !n.Partial? ==> IsFrom(k.dirs[d].live, live[n], d, spared)
    ensures KeepsPartials(k, WithDir(k, d, Changed(k.dirs[d], live)), spared)
  {
    var after := WithDir(k, d, Changed(k.dirs[d], live));
    assert WfDir(k.dirs[d], k.files);
    forall p | p !in spared && Throughout(k, p) ensures Throughout(after, p) {
      assert Entry(after, p) == Entry(k, p);
    }
    forall p, i | p !in spared && OnlyIts(k, p, i)
      ensures OnlyIts(after, p, i) && (MayMeet(after, p, i) ==> MayMeet(k, p, i))
    {
      NamesKeepOnlyIts(k, d, live, spared, p, i);
    }
  }

  /** The file was under a name no partial's, or under one spared. */
  ghost predicate IsFrom(names: Names, i: nat, d: string, spared: set<PartialKey>) {
    exists o :: o in names && names[o] == i && (o.Partial? ==> PartialKey(d, o.id) in spared)
  }

  lemma NamesKeepOnlyIts(k: BlobDisk, d: string, live: Names, spared: set<PartialKey>, p: PartialKey, i: nat)
    requires d in k.dirs && k.dirs[d].live in k.dirs[d].may && p !in spared && OnlyIts(k, p, i)
    requires forall id :: PartialKey(d, id) !in spared ==>
               NameIn(live, Partial(id)) == NameIn(k.dirs[d].live, Partial(id))
    requires forall n :: n in live && !n.Partial? ==> IsFrom(k.dirs[d].live, live[n], d, spared)
    requires forall id :: Partial(id) in live ==> NameIn(k.dirs[d].live, Partial(id)) == Some(live[Partial(id)])
    ensures var after := WithDir(k, d, Changed(k.dirs[d], live));
            OnlyIts(after, p, i) && (MayMeet(after, p, i) ==> MayMeet(k, p, i))
  {
    var was, after := k.dirs[d].live, WithDir(k, d, Changed(k.dirs[d], live));
    forall e, m, n | NamedIn(after, e, m, n, i) ensures e == p.designation && n == Partial(p.id) {
      if m in k.dirs[e].may {
        assert NamedIn(k, e, m, n, i);
      } else {
        assert e == d && m == live;
        if n.Partial? {
          assert NameIn(was, Partial(n.id)) == Some(i);
          assert NamedIn(k, d, was, n, i);
        } else {
          var o :| o in was && was[o] == i && (o.Partial? ==> PartialKey(d, o.id) in spared);
          assert NamedIn(k, d, was, o, i);
        }
      }
    }
    if MayMeet(after, p, i) {
      var m :| m in after.dirs[p.designation].may && NameIn(m, Partial(p.id)) == Some(i);
      if m !in k.dirs[p.designation].may { assert NameIn(was, Partial(p.id)) == Some(i); }
    }
  }

  lemma SyncsKeepPartials(k: BlobDisk, d: string)
    requires WfBlobDisk(k) && d in k.dirs
    ensures KeepsPartials(k, DirSyncedDisk(k, d), {}) && KeepsPartials(k, RootSyncedDisk(k), {})
  {
    var synced, rooted := DirSyncedDisk(k, d), RootSyncedDisk(k);
    assert WfDir(k.dirs[d], k.files);
    assert forall e :: e in k.dirs ==> synced.dirs[e].may <= k.dirs[e].may && synced.dirs[e].live == k.dirs[e].live;
    forall p, i | OnlyIts(k, p, i)
      ensures OnlyIts(synced, p, i) && (MayMeet(synced, p, i) ==> MayMeet(k, p, i))
      ensures OnlyIts(rooted, p, i) && (MayMeet(rooted, p, i) ==> MayMeet(k, p, i))
    {
      assert forall e, m, n :: NamedIn(synced, e, m, n, i) ==> NamedIn(k, e, m, n, i);
      assert forall e, m, n :: NamedIn(rooted, e, m, n, i) ==> NamedIn(k, e, m, n, i);
    }
  }

  /** A write to a partial's own file, or its sync, touches no other partial. */
  lemma FileKeepsPartials(k: BlobDisk, p: PartialKey, i: nat, f: FileDisk)
    requires OnlyIts(k, p, i)
    ensures KeepsPartials(k, WithFile(k, i, f), {p})
    ensures OnlyIts(WithFile(k, i, f), p, i) && (MayMeet(WithFile(k, i, f), p, i) <==> MayMeet(k, p, i))
    ensures Throughout(k, p) ==> Throughout(WithFile(k, i, f), p)
  {
    var after := WithFile(k, i, f);
    forall q, j: nat | OnlyIts(k, q, j)
      ensures && OnlyIts(after, q, j) && (MayMeet(after, q, j) <==> MayMeet(k, q, j))
              && (q != p && MayMeet(k, q, j) ==> SameFile(k, after, j))
    {
      assert forall e, m, n :: NamedIn(after, e, m, n, j) <==> NamedIn(k, e, m, n, j);
      if q != p && MayMeet(k, q, j) {
        var m :| m in k.dirs[q.designation].may && NameIn(m, Partial(q.id)) == Some(j);
        assert NamedIn(k, q.designation, m, Partial(q.id), j);
      }
    }
  }

  /** Nor does its sync that fails. */
  lemma FailedSyncKeepsPartials(k: BlobDisk, p: PartialKey, i: nat)
    requires OnlyIts(k, p, i)
    ensures KeepsPartials(k, FailedSync(k, i), {p})
    ensures OnlyIts(FailedSync(k, i), p, i) && (MayMeet(FailedSync(k, i), p, i) <==> MayMeet(k, p, i))
  {
    var after := FailedSync(k, i);
    forall q, j: nat | OnlyIts(k, q, j)
      ensures && OnlyIts(after, q, j) && (MayMeet(after, q, j) <==> MayMeet(k, q, j))
              && (q != p && MayMeet(k, q, j) ==> SameFile(k, after, j))
    {
      assert forall e, m, n :: NamedIn(after, e, m, n, j) <==> NamedIn(k, e, m, n, j);
      if q != p && MayMeet(k, q, j) {
        var m :| m in k.dirs[q.designation].may && NameIn(m, Partial(q.id)) == Some(j);
        assert NamedIn(k, q.designation, m, Partial(q.id), j);
      }
    }
    forall q | Throughout(k, q) ensures Throughout(after, q) {
      assert Entry(after, q) == Entry(k, q);
    }
  }

  /** A stream's own act on a partial held: what it keeps at the front of every content is held there. */
  lemma OwnFileIsHeld(k: BlobDisk, p: PartialKey, f: FileDisk, prefix: Bytes)
    requires Throughout(k, p) && forall b :: b in f.may ==> prefix <= b
    ensures PartialHeld(WithFile(k, Entry(k, p).value, f), p, prefix)
  {
    assert Throughout(WithFile(k, Entry(k, p).value, f), p);
  }

  /** It loses no hash its file. */
  lemma OwnFileLosesNothing(k: BlobDisk, p: PartialKey, i: nat, f: FileDisk)
    requires GoodDisk(k) && OnlyIts(k, p, i) && f.live in f.may
    ensures LosesNothing(k, WithFile(k, i, f))
  {
    FileShape(k, i, f);
    forall e, hex, size, hash: Bytes -> string | GoodWhereNamed(k, e, hex, size, hash)
      ensures GoodWhereNamed(WithFile(k, i, f), e, hex, size, hash)
    {
      if e in k.dirs {
        forall m | m in k.dirs[e].may && Hex(hex) in m ensures m[Hex(hex)] != i {
          assert m[Hex(hex)] == i <==> NamedIn(k, e, m, Hex(hex), i);
        }
      }
      FileKept(k, i, f, e, hex, size, hash);
    }
    assert forall e, hex :: MayBeNameless(WithFile(k, i, f), e, hex) ==> MayBeNameless(k, e, hex);
  }

  // ---------------------------------------------------------------- what a listing shows

  /** What stands at a partial's path now. */
  function PartialAt(k: BlobDisk, p: PartialKey): Option<Bytes> {
    if Entry(k, p).Some? && Entry(k, p).value in k.files then Some(k.files[Entry(k, p).value].live) else None
  }

  function Look(files: PartialFiles, p: PartialKey): Option<Bytes> {
    if p in files then Some(files[p]) else None
  }

  /** The listings and the stats of every partial's path, right now, answer `files`. */
  ghost predicate Shows(k: BlobDisk, files: PartialFiles) {
    forall p :: PartialAt(k, p) == Look(files, p)
  }

  /** Every partial standing is durable as it stands. */
  ghost predicate PartialsSettled(k: BlobDisk) {
    forall p :: PartialAt(k, p).Some? ==> PartialDurable(k, p, PartialAt(k, p).value)
  }

  /** What a crash left is what the next open's listings show, and durable once found. */
  lemma OpenedShows(k: BlobDisk, left: Left)
    ensures Shows(OpenedOver(k, left), PartialsIn(left)) && PartialsSettled(OpenedOver(k, left))
  {
    var o, files := OpenedOver(k, left), PartialsIn(left);
    forall p
      ensures PartialAt(o, p) == Look(files, p)
                && (PartialAt(o, p).Some? ==> PartialDurable(o, p, PartialAt(o, p).value))
    {
      OpenedAt(k, left, p);
    }
  }

  lemma OpenedAt(k: BlobDisk, left: Left, p: PartialKey)
    ensures PartialAt(OpenedOver(k, left), p) == Look(PartialsIn(left), p)
    ensures PartialAt(OpenedOver(k, left), p).Some? ==>
              PartialDurable(OpenedOver(k, left), p, PartialAt(OpenedOver(k, left), p).value)
  {
    FoundPartial(left, p);
    var o := OpenedOver(k, left);
    if p.designation in left.dirs {
      assert o.dirs[p.designation] == Dir(left.dirs[p.designation], {left.dirs[p.designation]});
    }
  }

  /** Where an act keeps the partials, those settled stay so. */
  lemma SettledStay(k: BlobDisk, after: BlobDisk, spared: set<PartialKey>)
    requires GoodDisk(k) && GoodDisk(after) && PartialsSettled(k) && KeepsPartials(k, after, spared)
    requires forall p :: p in spared && PartialAt(after, p).Some? ==>
               PartialDurable(after, p, PartialAt(after, p).value)
    ensures PartialsSettled(after)
  {
    forall p | PartialAt(after, p).Some? ensures PartialDurable(after, p, PartialAt(after, p).value) {
      if p !in spared {
        EntryStays(k, after, spared, p);
        assert PartialDurable(k, p, PartialAt(k, p).value);
        HeldStays(k, after, spared, p, PartialAt(k, p).value);
      }
    }
  }

  lemma KeptShows(k: BlobDisk, after: BlobDisk, spared: set<PartialKey>, files: PartialFiles, shown: PartialFiles)
    requires GoodDisk(k) && GoodDisk(after) && KeepsPartials(k, after, spared) && Shows(k, files)
    requires forall p :: Look(shown, p) == if p in spared then PartialAt(after, p) else Look(files, p)
    ensures Shows(after, shown)
  {
    forall p ensures PartialAt(after, p) == Look(shown, p) {
      assert PartialAt(k, p) == Look(files, p);
      if p !in spared { EntryStays(k, after, spared, p); }
    }
  }

  /** A partial unlinked: its path alone is gone. */
  lemma UnlinkedShows(k: BlobDisk, p: PartialKey, files: PartialFiles)
    requires GoodDisk(k) && Shows(k, files) && p in files
    ensures p.designation in k.dirs && Shows(WithoutName(k, p.designation, Partial(p.id)), files - {p})
    ensures PartialsSettled(k) ==> PartialsSettled(WithoutName(k, p.designation, Partial(p.id)))
  {
    assert PartialAt(k, p) == Look(files, p);
    var after := WithoutName(k, p.designation, Partial(p.id));
    GoneShape(k, p.designation, Partial(p.id));
    GoneKeepsPartials(k, p.designation, Partial(p.id), {p});
    KeptShows(k, after, {p}, files, files - {p});
    if PartialsSettled(k) { SettledStay(k, after, {p}); }
  }

  /** A name gone that is no partial's, or a spared one's, touches no other partial. */
  lemma GoneKeepsPartials(k: BlobDisk, d: string, n: Name, spared: set<PartialKey>)
    requires WfBlobDisk(k) && d in k.dirs && (n.Partial? ==> PartialKey(d, n.id) in spared)
    ensures KeepsPartials(k, WithoutName(k, d, n), spared)
  {
    var live := k.dirs[d].live - {n};
    forall o | o in live && !o.Partial? ensures IsFrom(k.dirs[d].live, live[o], d, spared) {
      assert o in k.dirs[d].live && k.dirs[d].live[o] == live[o];
    }
    NamesKeepPartials(k, d, live, spared);
  }

  lemma OtherNameShows(k: BlobDisk, d: string, n: Name, files: PartialFiles)
    requires GoodDisk(k) && Shows(k, files) && d in k.dirs && !n.Partial?
    ensures Shows(WithoutName(k, d, n), files)
    ensures PartialsSettled(k) ==> PartialsSettled(WithoutName(k, d, n))
  {
    GoneShape(k, d, n);
    GoneKeepsPartials(k, d, n, {});
    KeptShows(k, WithoutName(k, d, n), {}, files, files);
    if PartialsSettled(k) { SettledStay(k, WithoutName(k, d, n), {}); }
  }

  /** A partial's file changed: its bytes alone, durable where every content a crash may leave begins with them. */
  lemma ChangedShows(k: BlobDisk, p: PartialKey, f: FileDisk, files: PartialFiles)
    requires GoodDisk(k) && Shows(k, files) && PartialAt(k, p).Some? && f.live in f.may
    ensures Shows(WithFile(k, Entry(k, p).value, f), files[p := f.live])
  {
    EntryIsOnlyIts(k, p);
    FileKeepsPartials(k, p, Entry(k, p).value, f);
    FileShape(k, Entry(k, p).value, f);
    KeptShows(k, WithFile(k, Entry(k, p).value, f), {p}, files, files[p := f.live]);
  }

  lemma ChangedStaysSettled(k: BlobDisk, p: PartialKey, f: FileDisk)
    requires GoodDisk(k) && PartialsSettled(k) && PartialAt(k, p).Some? && f.live in f.may
    requires forall b :: b in f.may ==> f.live <= b
    ensures PartialsSettled(WithFile(k, Entry(k, p).value, f))
  {
    EntryIsOnlyIts(k, p);
    FileKeepsPartials(k, p, Entry(k, p).value, f);
    FileShape(k, Entry(k, p).value, f);
    assert PartialDurable(k, p, PartialAt(k, p).value);
    OwnFileIsHeld(k, p, f, f.live);
    SettledStay(k, WithFile(k, Entry(k, p).value, f), {p});
  }

  lemma SyncedShows(k: BlobDisk, d: string, files: PartialFiles)
    requires GoodDisk(k) && d in k.dirs && Shows(k, files)
    ensures Shows(DirSyncedDisk(k, d), files)
    ensures PartialsSettled(k) ==> PartialsSettled(DirSyncedDisk(k, d))
  {
    SyncShape(k, d);
    SyncsKeepPartials(k, d);
    KeptShows(k, DirSyncedDisk(k, d), {}, files, files);
    if PartialsSettled(k) { SettledStay(k, DirSyncedDisk(k, d), {}); }
  }

  // ---------------------------------------------------------------- a partial's creation

  /** A designation directory made where absent, its own entry left to the root's next sync. */
  function MadeDir(k: BlobDisk, d: string): BlobDisk {
    if d in k.dirs then k else k.(dirs := k.dirs[d := Dir(map[], {map[]})])
  }

  /** An empty partial at a name its directory does not hold. */
  function WithPartial(k: BlobDisk, d: string, id: nat): BlobDisk
    requires d in k.dirs
  {
    BlobDisk(
      k.files[k.next := FileDisk([], {[]})],
      k.dirs[d := Changed(k.dirs[d], k.dirs[d].live[Partial(id) := k.next])],
      k.rootDurable,
      k.next + 1,
      k.doubted)
  }

  lemma MadeDirShape(k: BlobDisk, d: string)
    requires GoodDisk(k)
    ensures GoodDisk(MadeDir(k, d))
  {
    var after := MadeDir(k, d);
    forall e | e in after.dirs ensures WfDir(after.dirs[e], after.files) && DirShape(after.dirs[e]) {
      if e in k.dirs { assert WfDir(k.dirs[e], k.files) && DirShape(k.dirs[e]); }
    }
    forall e | e in after.dirs ensures DirFiles(after.dirs[e]) == if e in k.dirs then DirFiles(k.dirs[e]) else {} {}
  }

  lemma MadeDirLosesNothing(k: BlobDisk, d: string)
    requires GoodDisk(k)
    ensures LosesNothing(k, MadeDir(k, d)) && KeepsPartials(k, MadeDir(k, d), {})
  {
    MadeDirShape(k, d);
    var after := MadeDir(k, d);
    assert forall e :: e in k.dirs ==> e in after.dirs && after.dirs[e] == k.dirs[e];
    assert forall e :: e in after.dirs && e !in k.dirs ==> after.dirs[e] == Dir(map[], {map[]});
    forall p, i | OnlyIts(k, p, i) ensures OnlyIts(after, p, i) && (MayMeet(after, p, i) ==> MayMeet(k, p, i)) {
      assert forall e, m, n :: NamedIn(after, e, m, n, i) ==> NamedIn(k, e, m, n, i);
    }
  }

  lemma WithPartialShape(k: BlobDisk, d: string, id: nat)
    requires GoodDisk(k) && d in k.dirs && Partial(id) !in k.dirs[d].live
    ensures GoodDisk(WithPartial(k, d, id))
  {
    var after := WithPartial(k, d, id);
    forall e, i | e in k.dirs && i in DirFiles(k.dirs[e]) ensures i < k.next {
      var m, n :| m in k.dirs[e].may && n in m && m[n] == i;
      assert WfDir(k.dirs[e], k.files);
    }
    forall e | e in after.dirs ensures WfDir(after.dirs[e], after.files) {
      assert WfDir(k.dirs[e], k.files);
    }
    forall e | e in after.dirs
      ensures DirFiles(after.dirs[e]) <= DirFiles(k.dirs[e]) + (if e == d then {k.next} else {})
    {
      if e == d { WithPartialFiles(k, d, id); }
    }
    WithPartialDirShape(k, d, id);
    forall e | e in after.dirs ensures DirShape(after.dirs[e]) {
      assert DirShape(k.dirs[e]);
    }
  }

  lemma WithPartialFiles(k: BlobDisk, d: string, id: nat)
    requires GoodDisk(k) && d in k.dirs
    ensures DirFiles(WithPartial(k, d, id).dirs[d]) <= DirFiles(k.dirs[d]) + {k.next}
  {
    assert WfDir(k.dirs[d], k.files);
    var dir, after := k.dirs[d], WithPartial(k, d, id).dirs[d];
    forall m, n | m in after.may && n in m ensures m[n] in DirFiles(dir) + {k.next} {
      if m !in dir.may && n != Partial(id) { assert dir.live[n] == m[n]; }
    }
  }

  lemma WithPartialDirShape(k: BlobDisk, d: string, id: nat)
    requires GoodDisk(k) && d in k.dirs && Partial(id) !in k.dirs[d].live
    ensures DirShape(WithPartial(k, d, id).dirs[d])
  {
    var dir, after := k.dirs[d], WithPartial(k, d, id).dirs[d];
    assert DirShape(dir) && WfDir(dir, k.files) && PartialsAlone(dir.live);
    forall m, n | m in dir.may && n in m ensures m[n] < k.next {}
    assert PartialsAlone(after.live);
    forall o, m, n | Partial(o) in after.live && m in after.may && n in m && m[n] == after.live[Partial(o)]
      ensures n == Partial(o)
    {
      if o != id && m in dir.may { assert dir.live[Partial(o)] == m[n]; }
    }
  }

  /** The partial joins the others, empty; no hash loses its file, and no partial its own. */
  lemma WithPartialLosesNothing(k: BlobDisk, d: string, id: nat)
    requires GoodDisk(k) && d in k.dirs && Partial(id) !in k.dirs[d].live
    ensures LosesNothing(k, WithPartial(k, d, id))
  {
    var after := WithPartial(k, d, id);
    WithPartialShape(k, d, id);
    assert WfDir(k.dirs[d], k.files);
    forall e, hex, size, hash: Bytes -> string | GoodWhereNamed(k, e, hex, size, hash)
      ensures GoodWhereNamed(after, e, hex, size, hash)
    {
      if e in k.dirs { assert WfDir(k.dirs[e], k.files); }
    }
    forall e, hex | MayBeNameless(after, e, hex) ensures MayBeNameless(k, e, hex) {
      if e == d && d in k.rootDurable {
        var m :| m in after.dirs[d].may && Hex(hex) !in m;
        if m !in k.dirs[d].may { assert Hex(hex) !in k.dirs[d].live; }
      }
    }
  }

  lemma WithPartialKeepsPartials(k: BlobDisk, d: string, id: nat)
    requires GoodDisk(k) && d in k.dirs && Partial(id) !in k.dirs[d].live
    ensures KeepsPartials(k, WithPartial(k, d, id), {PartialKey(d, id)})
    ensures Entry(WithPartial(k, d, id), PartialKey(d, id)) == Some(k.next)
  {
    var after := WithPartial(k, d, id);
    assert forall i :: i in k.files ==> i < k.next;
    forall p | p != PartialKey(d, id) && Throughout(k, p) ensures Throughout(after, p) {
      assert Entry(after, p) == Entry(k, p);
      assert WfDir(k.dirs[p.designation], k.files);
    }
    forall p, i | p != PartialKey(d, id) && OnlyIts(k, p, i)
      ensures OnlyIts(after, p, i) && (MayMeet(after, p, i) ==> MayMeet(k, p, i)) && after.files[i] == k.files[i]
    {
      NewPartialKeepsOnlyIts(k, d, id, p, i);
    }
  }

  lemma NewPartialKeepsOnlyIts(k: BlobDisk, d: string, id: nat, p: PartialKey, i: nat)
    requires WfBlobDisk(k) && d in k.dirs && p != PartialKey(d, id) && OnlyIts(k, p, i)
    ensures var after := WithPartial(k, d, id);
            OnlyIts(after, p, i) && (MayMeet(after, p, i) ==> MayMeet(k, p, i)) && after.files[i] == k.files[i]
  {
    var was, after := k.dirs[d].live, WithPartial(k, d, id);
    assert WfDir(k.dirs[d], k.files);
    forall e, m, n | NamedIn(after, e, m, n, i) ensures e == p.designation && n == Partial(p.id) {
      if m in k.dirs[e].may { assert NamedIn(k, e, m, n, i); } else { assert NamedIn(k, d, was, n, i); }
    }
    if MayMeet(after, p, i) {
      var m :| m in after.dirs[p.designation].may && NameIn(m, Partial(p.id)) == Some(i);
      if m !in k.dirs[p.designation].may { assert NameIn(was, Partial(p.id)) == Some(i); }
    }
  }

  /** Past its directory's sync a new partial is held, and durable from the root's next sync on. */
  lemma CreatedIsHeld(k: BlobDisk, p: PartialKey)
    requires GoodDisk(k) && Entry(k, p).Some?
    ensures PartialHeld(DirSyncedDisk(k, p.designation), p, [])
    ensures PartialDurable(RootSyncedDisk(DirSyncedDisk(k, p.designation)), p, [])
  {
    assert WfDir(k.dirs[p.designation], k.files);
    assert Throughout(DirSyncedDisk(k, p.designation), p);
    assert Throughout(RootSyncedDisk(DirSyncedDisk(k, p.designation)), p);
  }
}

/**
 * The disk under the blob store: files, the names of each designation directory, and the root. A name's change
 * is durable only past its directory's sync, a directory's own entry only past the root's, bytes past the file's.
 */
module BlobDisks {
  import opened Wrappers
  import opened LogLines
  import opened Logs

  datatype Name = Partial(id: nat) | Hex(hash: string) | Aside(of: string, serial: nat)

  type AsideName = n: Name | n.Aside? witness Aside("", 0)

  type Names = map<Name, nat>

  /** The names as the process sees them, and every version a crash may leave since the directory's last sync. */
  datatype Dir = Dir(live: Names, may: set<Names>)

  /** The disk; `doubted` are the files with bytes a failed sync may have dropped: no later sync answers for those. */
  datatype BlobDisk = BlobDisk(
    files: map<nat, FileDisk>, dirs: map<string, Dir>, rootDurable: set<string>, next: nat, doubted: set<nat>)

  predicate AsideStands(k: BlobDisk, d: string, name: AsideName) {
    d in k.dirs && name in k.dirs[d].live
  }

  predicate NamesHash(k: BlobDisk, d: string, hex: string) {
    d in k.dirs && Hex(hex) in k.dirs[d].live
  }

  /** No hash is named but those named before. */
  ghost predicate NoNewHash(before: BlobDisk, after: BlobDisk) {
    forall d, hex {:trigger NamesHash(after, d, hex)} :: NamesHash(after, d, hex) ==> NamesHash(before, d, hex)
  }

  /** No aside stands but these. */
  ghost predicate NoOtherAsides(k: BlobDisk, asides: set<(string, AsideName)>) {
    forall d, name: AsideName :: AsideStands(k, d, name) ==> (d, name) in asides
  }

  function AllAsides(k: BlobDisk): (asides: set<(string, AsideName)>)
    ensures NoOtherAsides(k, asides)
  {
    set d, name: AsideName | d in k.dirs && name in k.dirs[d].live :: (d, name)
  }

  ghost predicate WfDir(dir: Dir, files: map<nat, FileDisk>) {
    && dir.live in dir.may
    && forall m, n :: m in dir.may && n in m ==> m[n] in files
  }

  /** Everything the file holds is in whatever a crash leaves of it: a sync that fails has nothing to drop. */
  predicate AllDurable(f: FileDisk) {
    forall b :: b in f.may ==> f.live <= b
  }

  ghost predicate DoubtsFit(files: map<nat, FileDisk>, doubted: set<nat>) {
    forall i :: i in doubted ==> i in files && !AllDurable(files[i])
  }

  ghost predicate WfBlobDisk(k: BlobDisk) {
    && (forall d {:trigger WfDir(k.dirs[d], k.files)} :: d in k.dirs ==> WfDir(k.dirs[d], k.files))
    && (forall i :: i in k.files ==> i < k.next && k.files[i].live in k.files[i].may)
    && k.rootDurable <= k.dirs.Keys && DoubtsFit(k.files, k.doubted)
  }

  /** Every content a crash may leave of the file is of this size and hashes to this name. */
  predicate GoodFile(f: FileDisk, hex: string, size: nat, hash: Bytes -> string) {
    forall b {:trigger b in f.may} :: b in f.may ==> hash(b) == hex && |b| == size
  }

  /** In whatever a crash now leaves, the hash's name stands in its directory over a whole, durable file. */
  predicate Durably(k: BlobDisk, d: string, hex: string, size: nat, hash: Bytes -> string) {
    && d in k.dirs && d in k.rootDurable
    && forall m :: m in k.dirs[d].may ==>
         Hex(hex) in m && m[Hex(hex)] in k.files && GoodFile(k.files[m[Hex(hex)]], hex, size, hash)
  }

  /** Its first half: wherever a crash leaves the name at all, it leaves it over such a file. */
  predicate GoodWhereNamed(k: BlobDisk, d: string, hex: string, size: nat, hash: Bytes -> string) {
    d in k.dirs ==>
      forall m :: m in k.dirs[d].may && Hex(hex) in m ==>
        m[Hex(hex)] in k.files && GoodFile(k.files[m[Hex(hex)]], hex, size, hash)
  }

  /** And its other: some crash may leave no such name. */
  predicate MayBeNameless(k: BlobDisk, d: string, hex: string) {
    d !in k.dirs || d !in k.rootDurable || exists m :: m in k.dirs[d].may && Hex(hex) !in m
  }

  lemma DurablyIsBoth(k: BlobDisk, d: string, hex: string, size: nat, hash: Bytes -> string)
    ensures Durably(k, d, hex, size, hash) <==> GoodWhereNamed(k, d, hex, size, hash) && !MayBeNameless(k, d, hex)
  {
  }

  // ---------------------------------------------------------------- the acts

  function WithDir(k: BlobDisk, d: string, dir: Dir): BlobDisk {
    k.(dirs := k.dirs[d := dir])
  }

  /** A change of names, durable at the directory's next sync. */
  function Changed(dir: Dir, live: Names): Dir {
    Dir(live, dir.may + {live})
  }

  /** A file changed; one left with nothing but durable bytes is doubted no more. */
  function WithFile(k: BlobDisk, i: nat, f: FileDisk): BlobDisk {
    k.(files := k.files[i := f], doubted := if AllDurable(f) then k.doubted - {i} else k.doubted)
  }

  /** A file's sync that answers; over a file a failed one left in doubt the answer is worth nothing. */
  function SyncedFile(k: BlobDisk, i: nat): BlobDisk
    requires i in k.files
  {
    if i in k.doubted then k else WithFile(k, i, Synced(k.files[i]))
  }

  /** A file's sync that fails: what was not durable yet may have been dropped. */
  function FailedSync(k: BlobDisk, i: nat): BlobDisk
    requires i in k.files
  {
    if AllDurable(k.files[i]) then k else k.(doubted := k.doubted + {i})
  }

  function Linked(live: Names, hex: string, serial: nat): Names
    requires Hex(hex) in live
  {
    live[Aside(hex, serial) := live[Hex(hex)]]
  }

  function Installed(live: Names, id: nat, hex: string): Names
    requires Partial(id) in live
  {
    (live - {Partial(id)})[Hex(hex) := live[Partial(id)]]
  }

  function SetAside(live: Names, hex: string, serial: nat): Names
    requires Hex(hex) in live
  {
    (live - {Hex(hex)})[Aside(hex, serial) := live[Hex(hex)]]
  }

  function WithoutName(k: BlobDisk, d: string, n: Name): BlobDisk
    requires d in k.dirs
  {
    WithDir(k, d, Changed(k.dirs[d], k.dirs[d].live - {n}))
  }

  function DirSyncedDisk(k: BlobDisk, d: string): BlobDisk
    requires d in k.dirs
  {
    WithDir(k, d, Dir(k.dirs[d].live, {k.dirs[d].live}))
  }

  function RootSyncedDisk(k: BlobDisk): BlobDisk {
    k.(rootDurable := k.dirs.Keys)
  }

  // ---------------------------------------------------------------- what each act keeps

  /** A name change whose new version names the hash over a good file, if at all. */
  lemma NamesKept(k: BlobDisk, d: string, live: Names, e: string, hex: string, size: nat, hash: Bytes -> string)
    requires d in k.dirs && GoodWhereNamed(k, e, hex, size, hash)
    requires e == d && Hex(hex) in live ==>
               live[Hex(hex)] in k.files && GoodFile(k.files[live[Hex(hex)]], hex, size, hash)
    ensures GoodWhereNamed(WithDir(k, d, Changed(k.dirs[d], live)), e, hex, size, hash)
  {
  }

  /** A write to a file no version names by the hash touches nothing of it; a sync narrows what may be left. */
  lemma FileKept(k: BlobDisk, i: nat, f: FileDisk, e: string, hex: string, size: nat, hash: Bytes -> string)
    requires GoodWhereNamed(k, e, hex, size, hash)
    requires || (i in k.files && f.may <= k.files[i].may)
             || (e in k.dirs ==> forall m :: m in k.dirs[e].may && Hex(hex) in m ==> m[Hex(hex)] != i)
    ensures GoodWhereNamed(WithFile(k, i, f), e, hex, size, hash)
  {
    if e in k.dirs {
      forall m | m in k.dirs[e].may && Hex(hex) in m
        ensures GoodFile(WithFile(k, i, f).files[m[Hex(hex)]], hex, size, hash)
      {
        assert GoodFile(k.files[m[Hex(hex)]], hex, size, hash);
      }
    }
  }

  lemma SyncsKeep(k: BlobDisk, d: string, e: string, hex: string)
    requires WfBlobDisk(k) && d in k.dirs
    ensures MayBeNameless(DirSyncedDisk(k, d), e, hex) ==> MayBeNameless(k, e, hex)
    ensures MayBeNameless(RootSyncedDisk(k), e, hex) ==> MayBeNameless(k, e, hex)
  {
    assert WfDir(k.dirs[d], k.files);
  }

  /** Past the directory's sync and the root's, a good file at the hash's name is durable. */
  lemma InstalledIsDurable(k: BlobDisk, d: string, hex: string, size: nat, hash: Bytes -> string)
    requires d in k.dirs && d in k.rootDurable && k.dirs[d].may == {k.dirs[d].live}
    requires Hex(hex) in k.dirs[d].live && k.dirs[d].live[Hex(hex)] in k.files
    requires GoodFile(k.files[k.dirs[d].live[Hex(hex)]], hex, size, hash)
    ensures Durably(k, d, hex, size, hash)
  {
  }

  // ---------------------------------------------------------------- whose a file is

  /** A version gives no partial's file a second name. */
  ghost predicate PartialsAlone(m: Names) {
    forall id, n :: Partial(id) in m && n in m && m[n] == m[Partial(id)] ==> n == Partial(id)
  }

  /** And no version since the last sync gives a standing partial's file to anything else. */
  ghost predicate LivePartialsAlone(dir: Dir) {
    forall id, m, n :: Partial(id) in dir.live && m in dir.may && n in m && m[n] == dir.live[Partial(id)] ==>
      n == Partial(id)
  }

  ghost predicate DirShape(dir: Dir) {
    dir.live in dir.may && LivePartialsAlone(dir) && forall m :: m in dir.may ==> PartialsAlone(m)
  }

  /** Every file some version of the directory names. */
  ghost function DirFiles(dir: Dir): set<nat> {
    set m, n | m in dir.may && n in m :: m[n]
  }

  ghost predicate DirsApart(dirs: map<string, Dir>) {
    forall d, e {:trigger DirFiles(dirs[d]), DirFiles(dirs[e])} :: d in dirs && e in dirs && d != e ==>
      DirFiles(dirs[d]) !! DirFiles(dirs[e])
  }

  /** The shape every act keeps: partials' files their own, and no two directories sharing a file. */
  ghost predicate GoodDisk(k: BlobDisk) {
    WfBlobDisk(k) && DirsApart(k.dirs) && forall d {:trigger DirShape(k.dirs[d])} :: d in k.dirs ==> DirShape(k.dirs[d])
  }

  /** A version over files its directory already names, each partial it still lists its own. */
  ghost predicate NextVersion(before: Names, after: Names) {
    && (forall n :: n in after ==> exists o :: o in before && before[o] == after[n])
    && (forall id :: Partial(id) in after ==> Partial(id) in before && after[Partial(id)] == before[Partial(id)])
    && PartialsAlone(after)
  }

  lemma NextVersionShape(dir: Dir, live: Names)
    requires DirShape(dir) && NextVersion(dir.live, live)
    ensures DirShape(Changed(dir, live)) && DirFiles(Changed(dir, live)) == DirFiles(dir)
  {
    var after := Changed(dir, live);
    forall id, m, n | Partial(id) in live && m in after.may && n in m && m[n] == live[Partial(id)]
      ensures n == Partial(id)
    {
      assert dir.live[Partial(id)] == live[Partial(id)];
    }
    forall i | i in DirFiles(after) ensures i in DirFiles(dir) {
      var m, n :| m in after.may && n in m && m[n] == i;
      if m !in dir.may {
        var o :| o in dir.live && dir.live[o] == live[n];
      }
    }
  }

  /** A change within one directory that names no new file keeps the whole disk's shape. */
  lemma OneDirShape(k: BlobDisk, d: string, dir: Dir)
    requires GoodDisk(k) && d in k.dirs && DirShape(dir) && DirFiles(dir) <= DirFiles(k.dirs[d])
    ensures GoodDisk(WithDir(k, d, dir))
  {
    var after := WithDir(k, d, dir);
    assert WfDir(k.dirs[d], k.files);
    forall m, n | m in dir.may && n in m ensures m[n] in k.files {
      assert m[n] in DirFiles(dir);
    }
    forall e | e in after.dirs
      ensures WfDir(after.dirs[e], after.files) && DirFiles(after.dirs[e]) <= DirFiles(k.dirs[e])
    {
      assert WfDir(k.dirs[e], k.files);
    }
  }

  lemma NewVersionShape(k: BlobDisk, d: string, live: Names)
    requires GoodDisk(k) && d in k.dirs && NextVersion(k.dirs[d].live, live)
    ensures GoodDisk(WithDir(k, d, Changed(k.dirs[d], live)))
  {
    NextVersionShape(k.dirs[d], live);
    OneDirShape(k, d, Changed(k.dirs[d], live));
  }

  lemma SyncShape(k: BlobDisk, d: string)
    requires GoodDisk(k) && d in k.dirs
    ensures GoodDisk(DirSyncedDisk(k, d)) && GoodDisk(RootSyncedDisk(k))
  {
    var dir := k.dirs[d];
    assert DirShape(dir) && PartialsAlone(dir.live);
    OneDirShape(k, d, Dir(dir.live, {dir.live}));
  }

  lemma FileShape(k: BlobDisk, i: nat, f: FileDisk)
    requires GoodDisk(k) && i in k.files && f.live in f.may
    ensures GoodDisk(WithFile(k, i, f))
  {
    var after := WithFile(k, i, f);
    forall e | e in after.dirs ensures WfDir(after.dirs[e], after.files) { assert WfDir(k.dirs[e], k.files); }
  }

  /**
   * Whatever the hash function: every name over good files only keeps them so, and no name a crash could not have
   * taken can be taken now; and the disk keeps its shape.
   */
  ghost predicate LosesNothing(before: BlobDisk, after: BlobDisk) {
    && GoodDisk(after)
    && (forall d, hex, size, hash: Bytes -> string
          {:trigger GoodWhereNamed(before, d, hex, size, hash)} {:trigger GoodWhereNamed(after, d, hex, size, hash)} ::
          GoodWhereNamed(before, d, hex, size, hash) ==> GoodWhereNamed(after, d, hex, size, hash))
    && (forall d, hex {:trigger MayBeNameless(after, d, hex)} ::
          MayBeNameless(after, d, hex) ==> MayBeNameless(before, d, hex))
  }

  /** A name gone keeps the disk's shape. */
  lemma GoneShape(k: BlobDisk, d: string, n: Name)
    requires GoodDisk(k) && d in k.dirs
    ensures GoodDisk(WithoutName(k, d, n))
  {
    assert DirShape(k.dirs[d]) && PartialsAlone(k.dirs[d].live);
    NewVersionShape(k, d, k.dirs[d].live - {n});
  }

  /** A change of names that keeps every hash's as it was loses no hash its file. */
  lemma HexNamesKept(k: BlobDisk, d: string, live: Names)
    requires GoodDisk(k) && d in k.dirs && GoodDisk(WithDir(k, d, Changed(k.dirs[d], live)))
    requires forall hex :: Hex(hex) in live <==> Hex(hex) in k.dirs[d].live
    requires forall hex :: Hex(hex) in live ==> live[Hex(hex)] == k.dirs[d].live[Hex(hex)]
    ensures LosesNothing(k, WithDir(k, d, Changed(k.dirs[d], live)))
  {
    var after := WithDir(k, d, Changed(k.dirs[d], live));
    assert WfDir(k.dirs[d], k.files);
    forall e, hex, size, hash: Bytes -> string | GoodWhereNamed(k, e, hex, size, hash)
      ensures GoodWhereNamed(after, e, hex, size, hash)
    {
      NamesKept(k, d, live, e, hex, size, hash);
    }
    forall e, hex | MayBeNameless(after, e, hex) ensures MayBeNameless(k, e, hex) {
      if e == d && d in k.rootDurable {
        var m :| m in after.dirs[d].may && Hex(hex) !in m;
        if m == live { assert Hex(hex) !in k.dirs[d].live; }
      }
    }
  }

  /** Unlinking a partial, or any name but a hash's, loses no hash its file. */
  lemma UnlinkLosesNothing(k: BlobDisk, d: string, n: Name)
    requires GoodDisk(k) && d in k.dirs && !n.Hex?
    ensures LosesNothing(k, WithoutName(k, d, n))
  {
    GoneShape(k, d, n);
    HexNamesKept(k, d, k.dirs[d].live - {n});
  }

  lemma SyncLosesNothing(k: BlobDisk, d: string)
    requires GoodDisk(k) && d in k.dirs
    ensures LosesNothing(k, DirSyncedDisk(k, d)) && LosesNothing(k, RootSyncedDisk(k))
  {
    SyncShape(k, d);
    assert WfDir(k.dirs[d], k.files);
    forall e, hex ensures && (MayBeNameless(DirSyncedDisk(k, d), e, hex) ==> MayBeNameless(k, e, hex))
                          && (MayBeNameless(RootSyncedDisk(k), e, hex) ==> MayBeNameless(k, e, hex))
    {
      SyncsKeep(k, d, e, hex);
    }
  }

  /** A file's sync that fails changes nothing a crash may leave. */
  lemma FailedSyncLosesNothing(k: BlobDisk, i: nat)
    requires GoodDisk(k) && i in k.files
    ensures LosesNothing(k, FailedSync(k, i))
  {
    var after := FailedSync(k, i);
    assert forall e, hex :: MayBeNameless(after, e, hex) <==> MayBeNameless(k, e, hex);
    assert forall e, hex, size, hash: Bytes -> string ::
        GoodWhereNamed(k, e, hex, size, hash) ==> GoodWhereNamed(after, e, hex, size, hash);
  }

  lemma LosesNothingOn(a: BlobDisk, b: BlobDisk, c: BlobDisk)
    requires LosesNothing(a, b) && LosesNothing(b, c)
    ensures LosesNothing(a, c)
  {
  }

  // ---------------------------------------------------------------- what a crash leaves

  /** One thing a crash may leave: which directories stand, which version of each, which content of each file. */
  datatype Left = Left(dirs: map<string, Names>, files: map<nat, Bytes>)

  ghost predicate MayLeave(k: BlobDisk, left: Left) {
    && k.rootDurable <= left.dirs.Keys <= k.dirs.Keys
    && (forall d :: d in left.dirs ==> left.dirs[d] in k.dirs[d].may)
    && left.files.Keys == k.files.Keys
    && (forall i :: i in left.files ==> left.files[i] in k.files[i].may)
  }

  function NameIn(m: Names, n: Name): Option<nat> {
    if n in m then Some(m[n]) else None
  }

  /** What a disk that keeps no order among names may leave: each name as some version since the last sync had it. */
  ghost predicate MayLeaveByName(k: BlobDisk, left: Left) {
    && k.rootDurable <= left.dirs.Keys <= k.dirs.Keys
    && (forall d, n {:trigger NameIn(left.dirs[d], n)} :: d in left.dirs ==>
          exists m :: m in k.dirs[d].may && NameIn(m, n) == NameIn(left.dirs[d], n))
    && left.files.Keys == k.files.Keys
    && (forall i :: i in left.files ==> left.files[i] in k.files[i].may)
  }

  lemma MayLeaveIsByName(k: BlobDisk, left: Left)
    requires MayLeave(k, left)
    ensures MayLeaveByName(k, left)
  {
  }

  /** The disk an open finds and makes durable: one version of each name, one content of each file. */
  function OpenedOver(k: BlobDisk, left: Left): BlobDisk {
    BlobDisk(
      map i | i in left.files :: FileDisk(left.files[i], {left.files[i]}),
      map d | d in left.dirs :: Dir(left.dirs[d], {left.dirs[d]}),
      left.dirs.Keys,
      k.next,
      {})
  }

  /** What a crash left holds the hash's file: at its name, whole, the bytes the hash is of. */
  predicate HoldsFile(left: Left, d: string, hex: string, size: nat, hash: Bytes -> string) {
    && d in left.dirs && Hex(hex) in left.dirs[d] && left.dirs[d][Hex(hex)] in left.files
    && hash(left.files[left.dirs[d][Hex(hex)]]) == hex && |left.files[left.dirs[d][Hex(hex)]]| == size
  }

  /**
   * A name over good files only is over a good file wherever a crash leaves it, each name left on its own; and a
   * crash that leaves it over none found it nameless in some version.
   */
  lemma CrashKeepsGood(k: BlobDisk, left: Left, d: string, hex: string, size: nat, hash: Bytes -> string)
    requires MayLeaveByName(k, left) && GoodWhereNamed(k, d, hex, size, hash)
    ensures GoodWhereNamed(OpenedOver(k, left), d, hex, size, hash)
    ensures HoldsFile(left, d, hex, size, hash) <==> !MayBeNameless(OpenedOver(k, left), d, hex)
    ensures HoldsFile(left, d, hex, size, hash) || MayBeNameless(k, d, hex)
  {
    var o := OpenedOver(k, left);
    if d in left.dirs {
      assert o.dirs[d] == Dir(left.dirs[d], {left.dirs[d]});
      assert NameIn(left.dirs[d], Hex(hex)) == NameIn(left.dirs[d], Hex(hex));
      var m :| m in k.dirs[d].may && NameIn(m, Hex(hex)) == NameIn(left.dirs[d], Hex(hex));
      if Hex(hex) in m { assert GoodFile(k.files[m[Hex(hex)]], hex, size, hash); }
    }
  }

  /** A durable file is in everything a crash may leave, whether of whole versions or name by name. */
  lemma CrashKeepsDurable(k: BlobDisk, left: Left, d: string, hex: string, size: nat, hash: Bytes -> string)
    requires MayLeaveByName(k, left) && Durably(k, d, hex, size, hash)
    ensures Durably(OpenedOver(k, left), d, hex, size, hash) && HoldsFile(left, d, hex, size, hash)
  {
    DurablyIsBoth(k, d, hex, size, hash);
    CrashKeepsGood(k, left, d, hex, size, hash);
    DurablyIsBoth(OpenedOver(k, left), d, hex, size, hash);
  }

  /** A name some version lacks is one some crash leaves no file at. */
  lemma NamelessMayBeLeft(k: BlobDisk, d: string, hex: string) returns (left: Left)
    requires WfBlobDisk(k) && MayBeNameless(k, d, hex)
    ensures MayLeave(k, left) && !(d in left.dirs && Hex(hex) in left.dirs[d])
  {
    var dirs, files := map e | e in k.dirs :: k.dirs[e].live, map i | i in k.files :: k.files[i].live;
    assert forall e :: e in k.dirs ==> WfDir(k.dirs[e], k.files);
    if d !in k.dirs || d !in k.rootDurable {
      left := Left(dirs - {d}, files);
    } else {
      var m :| m in k.dirs[d].may && Hex(hex) !in m;
      left := Left(dirs[d := m], files);
    }
  }

  lemma OpenedIsGood(k: BlobDisk, left: Left)
    requires GoodDisk(k) && MayLeave(k, left)
    ensures GoodDisk(OpenedOver(k, left))
  {
    var o := OpenedOver(k, left);
    forall d | d in o.dirs
      ensures WfDir(o.dirs[d], o.files) && DirShape(o.dirs[d]) && DirFiles(o.dirs[d]) <= DirFiles(k.dirs[d])
    {
      assert WfDir(k.dirs[d], k.files) && DirShape(k.dirs[d]);
      assert PartialsAlone(left.dirs[d]);
    }
  }
}

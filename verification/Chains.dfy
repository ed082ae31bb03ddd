/** How an address stands in its document's version chain. */
module Chains {
  import opened Wrappers
  import opened Tumblers
  import opened Arithmetic
  import opened Addresses

  lemma FieldIsShorter(a: Address, n: nat)
    requires n >= 1
    ensures Field(a, n).Some? ==> |Field(a, n).value| <= |a|
  {
    if Separator(a, n).Some? && Separator(a, n + 1).Some? {
      NextSeparatorIsPast(a, n, Separator(a, n).value, Separator(a, n + 1).value);
    }
  }

  /** How many version components a document's address carries: every component of its field after the first. */
  function VersionsOf(a: Address): (v: nat)
    requires LevelOf(a) == Document
    ensures v < |a|
  {
    FieldsAreNonempty(a, 2);
    FieldIsShorter(a, 2);
    |Field(a, 2).value| - 1
  }

  /** The document's field is its address's last: everything past its second separator. */
  lemma DocumentFieldIsLast(a: Address)
    requires LevelOf(a) == Document
    ensures Separator(a, 2).Some?
    ensures var i := Separator(a, 2).value;
            && i + 1 < |a| && a[i] == 0
            && VersionsOf(a) == |a| - i - 2
            && (forall k :: i < k < |a| ==> a[k] != 0)
  {
    SeparatorIs(a, 2, 0);
    var i := Separator(a, 2).value;
    SeparatorIs(a, 2, i);
    SeparatorIs(a, 3, 0);
    FieldsAreNonempty(a, 2);
    forall k | i < k < |a| ensures a[k] != 0 {
      ZerosAt(a, k);
      ZerosMonotone(a, i + 1, k);
      assert a[..i + 1][..i] == a[..i];
    }
  }

  lemma CutToFirstComponent(a: Address, kept: nat)
    requires LevelOf(a) == Document && |a| - VersionsOf(a) <= kept <= |a|
    ensures 0 < kept && T4Valid(a[..kept]) && LevelOf(a[..kept]) == Document
    ensures VersionsOf(a[..kept]) == VersionsOf(a) - (|a| - kept)
  {
    DocumentFieldIsLast(a);
    var i := Separator(a, 2).value;
    var t := a[..kept];
    SeparatorIs(a, 2, i);
    assert a == t + a[kept..];
    NoZerosPast(a, kept);
    PrefixIsValid(a, kept);
    assert t[..i] == a[..i];
    SeparatorIs(t, 2, i);
    DocumentFieldIsLast(t);
  }

  lemma {:induction false} NoZerosPast(t: seq<nat>, k: nat)
    requires k <= |t| && forall j :: k <= j < |t| ==> t[j] != 0
    ensures Zeros(t[..k]) == Zeros(t)
    decreases |t|
  {
    if k == |t| {
      assert t[..k] == t;
    } else {
      NoZerosPast(t[..|t| - 1], k);
      assert t[..|t| - 1][..k] == t[..k];
    }
  }

  /** The trunk of a document, its version components cut off together; any other address answers itself. */
  function TrunkOf(a: Address): Address {
    if LevelOf(a) != Document then a
    else
      CutToFirstComponent(a, |a| - VersionsOf(a));
      a[..|a| - VersionsOf(a)]
  }

  /** `parent` taken `n` times. */
  function Ancestor(a: Address, n: nat): Option<Address>
    decreases n
  {
    if n == 0 then Some(a)
    else
      match Ancestor(a, n - 1)
      case None => None
      case Some(b) =>
        ParentIsLongestValidPrefix(b, b);
        match Parent(b) case None => None case Some(p) => Some(p)
  }

  lemma {:induction false} AncestorCuts(a: Address, n: nat)
    requires LevelOf(a) == Document && n <= VersionsOf(a)
    ensures Ancestor(a, n) == Some(a[..|a| - n])
  {
    if n == 0 {
      assert a[..|a|] == a;
    } else {
      AncestorCuts(a, n - 1);
      CutToFirstComponent(a, |a| - (n - 1));
      CutToFirstComponent(a, |a| - n);
      OneComponentOff(a, |a| - (n - 1));
    }
  }

  /** The parent of a cut that ends past a nonzero component is the cut one shorter. */
  lemma OneComponentOff(a: Address, kept: nat)
    requires 1 < kept <= |a| && T4Valid(a[..kept]) && T4Valid(a[..kept - 1])
    ensures Parent(a[..kept]) == Some(a[..kept - 1])
  {
    assert a[..kept][..kept - 1] == a[..kept - 1];
    assert a[..kept - 1][kept - 2] == a[..kept][kept - 2];
  }

  /**
   * One truncation reaches what `parent` reaches taken once per version component, and the projection is idempotent.
   */
  lemma TrunkIsIteratedParent(a: Address)
    ensures LevelOf(a) == Document ==> Ancestor(a, VersionsOf(a)) == Some(TrunkOf(a))
    ensures LevelOf(TrunkOf(a)) == LevelOf(a) && TrunkOf(TrunkOf(a)) == TrunkOf(a)
    ensures LevelOf(a) == Document ==> VersionsOf(TrunkOf(a)) == 0
    ensures LevelOf(a) != Document ==> TrunkOf(a) == a
  {
    if LevelOf(a) == Document {
      AncestorCuts(a, VersionsOf(a));
      CutToFirstComponent(a, |a| - VersionsOf(a));
      var t := TrunkOf(a);
      assert t[..|t|] == t;
    }
  }

  /** The opening slot of a document's version chain. */
  function FirstVersionAddress(source: Address): (r: Option<Address>)
    ensures r.Some? <==> LevelOf(source) == Document
  {
    if LevelOf(source) == Document then Some(CheckedInc(source, 1).value) else None
  }

  /** Whether `doc` opens its trunk's chain. */
  predicate IsBirthVersion(doc: Address) {
    TrunkOf(doc) != doc && FirstVersionAddress(TrunkOf(doc)) == Some(doc)
  }

  lemma FirstVersionOf(trunk: Address)
    ensures FirstVersionAddress(trunk).Some? ==> FirstVersionAddress(trunk).value == trunk + [1]
  {
    assert Inc(trunk, 1) == trunk + [1] by { assert seq(0, i => 0) == []; }
  }

  /** The document just under a trunk projects back to it. */
  lemma TrunkOfFirstVersion(doc: Address, trunk: Address)
    requires LevelOf(trunk) == Document && TrunkOf(trunk) == trunk && doc == trunk + [1]
    ensures TrunkOf(doc) == trunk
  {
    ZerosConcat(trunk, [1]);
    ZerosOfTail([1]);
    DocumentFieldIsLast(doc);
    DocumentFieldIsLast(trunk);
    var i := Separator(doc, 2).value;
    SeparatorIs(doc, 2, i);
    assert doc[..i] == trunk[..i];
    SeparatorIs(trunk, 2, i);
    assert doc[..|trunk|] == trunk;
  }

  /** A birth version is its trunk followed by the single component 1, and every document trunk has exactly that one. */
  lemma BirthVersionShape(doc: Address, trunk: Address)
    ensures IsBirthVersion(doc) && TrunkOf(doc) == trunk <==>
            LevelOf(trunk) == Document && TrunkOf(trunk) == trunk && doc == trunk + [1]
  {
    TrunkIsIteratedParent(doc);
    FirstVersionOf(trunk);
    if LevelOf(trunk) == Document && TrunkOf(trunk) == trunk && doc == trunk + [1] { TrunkOfFirstVersion(doc, trunk); }
  }
}

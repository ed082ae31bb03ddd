/** The reads that walk the leases in their map's order: a principal's live leases, and a hash's own range. */
module LeaseReads {
  import opened Clocks
  import opened Tumblers
  import opened Orders
  import opened Leases

  function Codes(s: string): (r: seq<nat>)
    ensures |r| == |s| && forall i :: 0 <= i < |s| ==> r[i] == s[i] as int + 1
  {
    seq(|s|, i requires 0 <= i < |s| => s[i] as int + 1)
  }

  /**
   * A field and its end, which stands below every letter: fields spelled one after another are ordered as their tuple
   * is.
   */
  function Field(s: string, rest: seq<nat>): seq<nat> {
    Codes(s) + [0] + rest
  }

  function Spell(key: LeaseKey): seq<nat> {
    Field(key.designation, Field(key.hex, Codes(key.principal)))
  }

  /** A field spelled at the front of another is that field, and what follows it the front of what follows. */
  lemma FieldsLineUp(a: string, x: seq<nat>, b: string, y: seq<nat>)
    requires IsPrefix(Field(a, x), Field(b, y))
    ensures a == b && IsPrefix(x, y)
  {
    var p, q := Field(a, x), Field(b, y);
    assert forall i :: 0 <= i < |p| ==> p[i] == q[i];
    var end := if |a| < |b| then |a| else |b|;
    assert p[end] == q[end];
    assert |a| == |b|;
    forall i | 0 <= i < |a| ensures a[i] == b[i] {
      assert p[i] == Codes(a)[i] && q[i] == Codes(b)[i];
    }
    assert x == p[|a| + 1..] && y == q[|b| + 1..];
  }

  lemma CodesApart(a: string, b: string)
    requires Codes(a) == Codes(b)
    ensures a == b
  {
    forall i | 0 <= i < |a| ensures a[i] == b[i] {
      assert Codes(a)[i] == Codes(b)[i];
    }
  }

  lemma KeysSpeltApart()
    ensures SpeltApart(Spell)
  {
    forall x: LeaseKey, y: LeaseKey | Spell(x) == Spell(y) ensures x == y {
      FieldsLineUp(x.designation, Field(x.hex, Codes(x.principal)), y.designation, Field(y.hex, Codes(y.principal)));
      FieldsLineUp(x.hex, Codes(x.principal), y.hex, Codes(y.principal));
      assert |Spell(x)| == |Spell(y)|;
      assert Codes(x.principal) == Codes(y.principal);
      CodesApart(x.principal, y.principal);
    }
  }

  /** A hash's keys are those its first possible key's spelling opens. */
  lemma HashOpensItsKeys(d: string, hex: string, key: LeaseKey)
    ensures IsPrefix(Spell(LeaseKey(d, hex, "")), Spell(key)) <==> key.designation == d && key.hex == hex
  {
    var from, spelt := Spell(LeaseKey(d, hex, "")), Spell(key);
    if IsPrefix(from, spelt) {
      FieldsLineUp(d, Field(hex, Codes("")), key.designation, Field(key.hex, Codes(key.principal)));
      FieldsLineUp(hex, Codes(""), key.hex, Codes(key.principal));
    }
  }

  /** The hash's keys all lie in the range walked. */
  lemma InRange(keys: seq<LeaseKey>, start: nat, at: nat, d: string, hex: string, i: nat)
    requires InOrder(keys, Spell) && start <= at <= |keys| && i < |keys|
    requires forall j :: 0 <= j < start ==> Lt(Spell(keys[j]), Spell(LeaseKey(d, hex, "")))
    requires start < |keys| ==> !Lt(Spell(keys[start]), Spell(LeaseKey(d, hex, "")))
    requires at < |keys| ==> keys[at].designation != d || keys[at].hex != hex
    requires keys[i].designation == d && keys[i].hex == hex
    ensures start <= i < at
  {
    var from := Spell(LeaseKey(d, hex, ""));
    HashOpensItsKeys(d, hex, keys[i]);
    PrefixIsBelow(from, Spell(keys[i]));
    if i < start {
      LtAsymmetric(Spell(keys[i]), from);
    } else if at <= i {
      HashOpensItsKeys(d, hex, keys[at]);
      LtTotal(Spell(keys[start]), from);
      if start < at { LtTransitive(from, Spell(keys[start]), Spell(keys[at])); }
      if at < i { ExtensionsLieTogether(from, Spell(keys[at]), Spell(keys[i])); }
    }
  }

  method RangeStart(keys: seq<LeaseKey>, from: seq<nat>) returns (start: nat)
    ensures start <= |keys| && (start < |keys| ==> !Lt(Spell(keys[start]), from))
    ensures forall i :: 0 <= i < start ==> Lt(Spell(keys[i]), from)
  {
    start := 0;
    while start < |keys| && Lt(Spell(keys[start]), from)
      invariant start <= |keys| && forall i :: 0 <= i < start ==> Lt(Spell(keys[i]), from)
    {
      start := start + 1;
    }
  }

  predicate OnHash(key: LeaseKey, d: string, hex: string) {
    key.designation == d && key.hex == hex
  }

  /** The walk while the keys name the hash, to the first live lease among them. */
  method WalkRange(
    held: LeaseTable, keys: seq<LeaseKey>, start: nat, d: string, hex: string, now: U64)
    returns (any: bool, ghost at: nat)
    requires start <= |keys| && forall i :: 0 <= i < |keys| ==> keys[i] in held
    ensures start <= at <= |keys| && (any ==> AnyLiveIn(held, d, hex, now))
    ensures !any && at < |keys| ==> !OnHash(keys[at], d, hex)
    ensures !any ==> forall i :: start <= i < at ==> !Live(held[keys[i]], now)
  {
    var n := start;
    while n < |keys| && OnHash(keys[n], d, hex)
      invariant start <= n <= |keys| && forall i :: start <= i < n ==> !Live(held[keys[i]], now)
    {
      if Live(held[keys[n]], now) {
        return true, n;
      }
      n := n + 1;
    }
    return false, n;
  }

  /**
   * Whether any principal holds a live lease on the hash: the walk from the hash's first possible key to the first key
   * naming another. A hex the asked one begins, or a designation it begins, is never read as it.
   */
  method AnyLive(held: LeaseTable, d: string, hex: string, now: U64) returns (any: bool)
    ensures any <==> AnyLiveIn(held, d, hex, now)
  {
    KeysSpeltApart();
    var keys := KeysInOrder(held.Keys, Spell);
    forall i | 0 <= i < |keys| ensures keys[i] in held {
      assert keys[i] in keys;
    }
    var start := RangeStart(keys, Spell(LeaseKey(d, hex, "")));
    ghost var at;
    any, at := WalkRange(held, keys, start, d, hex, now);
    if !any { NoneBeyondRange(held, keys, start, at, d, hex, now); }
  }

  lemma NoneBeyondRange(held: LeaseTable, keys: seq<LeaseKey>, start: nat, at: nat, d: string, hex: string, now: U64)
    requires InOrder(keys, Spell) && start <= at <= |keys| && forall key :: key in keys <==> key in held.Keys
    requires forall j :: 0 <= j < start ==> Lt(Spell(keys[j]), Spell(LeaseKey(d, hex, "")))
    requires start < |keys| ==> !Lt(Spell(keys[start]), Spell(LeaseKey(d, hex, "")))
    requires at < |keys| ==> !OnHash(keys[at], d, hex)
    requires forall i :: start <= i < at ==> keys[i] in held && !Live(held[keys[i]], now)
    ensures !AnyLiveIn(held, d, hex, now)
  {
    if key :| key in held && key.designation == d && key.hex == hex && Live(held[key], now) {
      assert key in keys;
      var i :| 0 <= i < |keys| && keys[i] == key;
      InRange(keys, start, at, d, hex, i);
    }
  }

  /** A principal's live leases, designation by designation and hex by hex. */
  method LiveOf(leases: LeaseMap, principal: string, now: U64) returns (live: seq<Lease>)
    requires leases.Valid() && forall key :: key in leases.byHash ==> key == KeyOf(leases.byHash[key])
    ensures forall i, j :: 0 <= i < j < |live| ==> Lt(Spell(KeyOf(live[i])), Spell(KeyOf(live[j])))
    ensures forall l :: l in live <==> l in LiveOfIn(leases.byHash, principal, now)
  {
    KeysSpeltApart();
    var own, held := leases.Of(principal), leases.byHash;
    var keys := KeptInOrder(own, Spell, key => key in held && Live(held[key], now));
    forall i | 0 <= i < |keys| ensures keys[i] in own && keys[i] in held {
      assert keys[i] in keys;
    }
    live := seq(|keys|, i requires 0 <= i < |keys| => held[keys[i]]);
    forall i, j | 0 <= i < j < |live| ensures Lt(Spell(KeyOf(live[i])), Spell(KeyOf(live[j]))) {
      assert KeyOf(live[i]) == keys[i] && KeyOf(live[j]) == keys[j];
    }
    forall l ensures l in live <==> l in LiveOfIn(held, principal, now) {
      if l in live {
        var i :| 0 <= i < |live| && live[i] == l;
        assert keys[i] in keys;
      }
      if l in LiveOfIn(held, principal, now) {
        var key :| key in held && key.principal == principal && Live(held[key], now) && held[key] == l;
        var i :| 0 <= i < |keys| && keys[i] == key;
        assert live[i] == l;
      }
    }
  }
}

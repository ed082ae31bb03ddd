/** Ordered maps' walks: a set of keys in the order their spellings stand in, each once. */
module Orders {
  import opened Tumblers

  /** Distinct keys are spelled apart. */
  ghost predicate SpeltApart<K(!new)>(spell: K -> seq<nat>) {
    forall x: K, y: K :: spell(x) == spell(y) ==> x == y
  }

  ghost predicate InOrder<K>(keys: seq<K>, spell: K -> seq<nat>) {
    forall i, j :: 0 <= i < j < |keys| ==> Lt(spell(keys[i]), spell(keys[j]))
  }

  ghost predicate IsLeast<K>(least: K, keys: set<K>, spell: K -> seq<nat>) {
    least in keys && forall x :: x in keys ==> x == least || Lt(spell(least), spell(x))
  }

  lemma {:induction false} LeastExists<K(!new)>(keys: set<K>, spell: K -> seq<nat>)
    requires keys != {} && SpeltApart(spell)
    ensures exists least :: IsLeast(least, keys, spell)
    decreases |keys|
  {
    var some :| some in keys;
    var rest := keys - {some};
    if rest == {} {
      assert forall x :: x in keys ==> x == some || x in rest;
      assert IsLeast(some, keys, spell);
    } else {
      LeastExists(rest, spell);
      var least :| IsLeast(least, rest, spell);
      LtTotal(spell(some), spell(least));
      var m := if Lt(spell(some), spell(least)) then some else least;
      forall x | x in keys ensures x == m || Lt(spell(m), spell(x)) {
        if m == some && x != some && x != least { LtTransitive(spell(some), spell(least), spell(x)); }
      }
      assert IsLeast(m, keys, spell);
    }
  }

  /** The keys in their order: the walk an ordered map makes. */
  method KeysInOrder<K(==, !new)>(keys: set<K>, spell: K -> seq<nat>) returns (sorted: seq<K>)
    requires SpeltApart(spell)
    ensures InOrder(sorted, spell) && |sorted| == |keys| && forall key :: key in sorted <==> key in keys
  {
    sorted := [];
    var rest := keys;
    while rest != {}
      invariant rest <= keys && InOrder(sorted, spell) && |sorted| + |rest| == |keys|
      invariant forall key :: key in keys <==> key in sorted || key in rest
      invariant forall key, x :: key in sorted && x in rest ==> Lt(spell(key), spell(x))
      decreases |rest|
    {
      LeastExists(rest, spell);
      var least :| least in rest && forall x :: x in rest ==> x == least || Lt(spell(least), spell(x));
      Next(sorted, rest, least, spell);
      sorted := sorted + [least];
      rest := rest - {least};
    }
  }

  lemma Next<K>(sorted: seq<K>, rest: set<K>, least: K, spell: K -> seq<nat>)
    requires InOrder(sorted, spell) && IsLeast(least, rest, spell)
    requires forall key, x :: key in sorted && x in rest ==> Lt(spell(key), spell(x))
    ensures InOrder(sorted + [least], spell)
    ensures forall key, x :: key in sorted + [least] && x in rest - {least} ==> Lt(spell(key), spell(x))
  {
  }

  /** The walk, filtered as it goes: what is kept stays in order. */
  method KeptInOrder<K(==, !new)>(keys: set<K>, spell: K -> seq<nat>, keep: K -> bool) returns (kept: seq<K>)
    requires SpeltApart(spell)
    ensures InOrder(kept, spell) && forall key :: key in kept <==> key in keys && keep(key)
  {
    var all := KeysInOrder(keys, spell);
    kept := [];
    for n := 0 to |all|
      invariant forall key :: key in kept <==> key in all[..n] && keep(key)
      invariant InOrder(kept, spell) && forall key, k :: key in kept && n <= k < |all| ==> Lt(spell(key), spell(all[k]))
    {
      assert all[..n + 1] == all[..n] + [all[n]];
      if keep(all[n]) {
        kept := kept + [all[n]];
      }
    }
    assert all[..|all|] == all;
  }

  // ---------------------------------------------------------------- ranges

  /** What lies between two extensions of a spelling extends it. */
  lemma ExtensionsLieTogether(p: seq<nat>, x: seq<nat>, y: seq<nat>)
    requires Le(p, x) && Lt(x, y) && IsPrefix(p, y)
    ensures IsPrefix(p, x)
  {
    if x != p {
      var i :| 0 <= i < |x| && FallsBelowAt(p, x, i);
      var j :| 0 <= j < |y| && FallsBelowAt(x, y, j);
      if i < |p| {
        assert false;
      }
    }
  }

  lemma PrefixIsBelow(p: seq<nat>, x: seq<nat>)
    requires IsPrefix(p, x)
    ensures Le(p, x)
  {
    if p != x { assert FallsBelowAt(p, x, |p|); }
  }
}

/** Position arithmetic: the start-preserving sum, the zero-padded difference, and the ordinal shift. */
module Arithmetic {
  import opened Wrappers
  import opened Tumblers

  /** The first nonzero position of `w`, 1-based; `None` exactly when `w` is all zero. */
  function ActionPoint(w: seq<nat>): (r: Option<nat>)
    ensures r.None? <==> forall i :: 0 <= i < |w| ==> w[i] == 0
    ensures r.Some? ==> 1 <= r.value <= |w| && w[r.value - 1] != 0
    ensures r.Some? ==> forall i :: 0 <= i < r.value - 1 ==> w[i] == 0
  {
    FirstNonzeroFrom(w, 0)
  }

  function FirstNonzeroFrom(w: seq<nat>, from: nat): (r: Option<nat>)
    requires from <= |w|
    ensures r.None? <==> forall i :: from <= i < |w| ==> w[i] == 0
    ensures r.Some? ==> from < r.value <= |w| && w[r.value - 1] != 0
    ensures r.Some? ==> forall i :: from <= i < r.value - 1 ==> w[i] == 0
    decreases |w| - from
  {
    if from == |w| then None
    else if w[from] != 0 then Some(from + 1)
    else FirstNonzeroFrom(w, from + 1)
  }

  datatype AddDomainClause = ZeroDisplacement | ActionPointTooDeep

  /** The domain of the sum, decided in one place: the action point, or the clause that fails. */
  function AddDomain(a: Tumbler, w: Tumbler): (r: Result<nat, AddDomainClause>)
    ensures r.Ok? ==> 1 <= r.value <= |a| && r.value <= |w| && ActionPoint(w) == Some(r.value)
  {
    match ActionPoint(w)
    case None => Err(ZeroDisplacement)
    case Some(k) => if k > |a| then Err(ActionPointTooDeep) else Ok(k)
  }

  predicate InAddDomain(a: Tumbler, w: Tumbler) {
    AddDomain(a, w).Ok?
  }

  /** `a ⊕ w` inside its domain: prefix of `a`, the two added at the action point, tail of `w`. */
  function Add(a: Tumbler, w: Tumbler): (r: Tumbler)
    requires InAddDomain(a, w)
    ensures |r| == |w|
  {
    var k := AddDomain(a, w).value;
    a[..k - 1] + [a[k - 1] + w[k - 1]] + w[k..]
  }

  /** The component at `i` of `t` padded with zeros. */
  function Padded(t: seq<nat>, i: nat): nat {
    if i < |t| then t[i] else 0
  }

  function MaxLen(a: seq<nat>, b: seq<nat>): nat {
    if |a| < |b| then |b| else |a|
  }

  /** The first position at which the padded operands differ, at or after `from`. */
  function PaddedDivergenceFrom(a: seq<nat>, w: seq<nat>, from: nat): (r: Option<nat>)
    requires from <= MaxLen(a, w)
    ensures r.None? <==> forall i :: from <= i < MaxLen(a, w) ==> Padded(a, i) == Padded(w, i)
    ensures r.Some? ==> from <= r.value < MaxLen(a, w) && Padded(a, r.value) != Padded(w, r.value)
    ensures r.Some? ==> forall i :: from <= i < r.value ==> Padded(a, i) == Padded(w, i)
    decreases MaxLen(a, w) - from
  {
    if from == MaxLen(a, w) then None
    else if Padded(a, from) != Padded(w, from) then Some(from)
    else PaddedDivergenceFrom(a, w, from + 1)
  }

  function PaddedDivergence(a: seq<nat>, w: seq<nat>): (r: Option<nat>)
    ensures r.None? <==> forall i :: 0 <= i < MaxLen(a, w) ==> Padded(a, i) == Padded(w, i)
    ensures r.Some? ==> r.value < MaxLen(a, w) && Padded(a, r.value) != Padded(w, r.value)
    ensures r.Some? ==> forall i :: 0 <= i < r.value ==> Padded(a, i) == Padded(w, i)
  {
    PaddedDivergenceFrom(a, w, 0)
  }

  /** The larger operand holds the larger component at the padded divergence, so `⊖` cannot underflow. */
  lemma DivergenceFavoursTheLarger(a: seq<nat>, w: seq<nat>)
    requires !Lt(a, w) && PaddedDivergence(a, w).Some?
    ensures Padded(a, PaddedDivergence(a, w).value) > Padded(w, PaddedDivergence(a, w).value)
  {
    var d := PaddedDivergence(a, w).value;
    if Padded(a, d) < Padded(w, d) {
      var k := if d <= |a| then d else |a|;
      assert forall i :: 0 <= i < k ==> Padded(a, i) == Padded(w, i);
      assert AgreeTo(a, w, k) by {
        forall i | 0 <= i < k ensures a[i] == w[i] { assert Padded(a, i) == Padded(w, i); }
      }
      assert k < d ==> Padded(a, k) == Padded(w, k);
      assert FallsBelowAt(a, w, k);
    }
  }

  datatype SubPrecond = SubPrecond

  /** `a ⊖ w`: zeros before the padded divergence, the difference at it, the padded tail of `a` after. */
  function Sub(a: Tumbler, w: Tumbler): (r: Result<Tumbler, SubPrecond>)
    ensures r.Ok? <==> !Lt(a, w)
    ensures r.Ok? ==> |r.value| == MaxLen(a, w)
  {
    if Lt(a, w) then Err(SubPrecond)
    else Ok(Difference(a, w))
  }

  function Difference(a: Tumbler, w: Tumbler): (r: Tumbler)
    requires !Lt(a, w)
    ensures |r| == MaxLen(a, w)
    ensures PaddedDivergence(a, w).None? ==> forall i :: 0 <= i < |r| ==> r[i] == 0
    ensures PaddedDivergence(a, w).Some? ==>
              var d := PaddedDivergence(a, w).value;
              && (forall i :: 0 <= i < d ==> r[i] == 0)
              && r[d] == Padded(a, d) - Padded(w, d) > 0
              && (forall i :: d < i < |r| ==> r[i] == Padded(a, i))
  {
    match PaddedDivergence(a, w)
    case None => seq(MaxLen(a, w), i => 0)
    case Some(d) =>
      DivergenceFavoursTheLarger(a, w);
      seq(MaxLen(a, w), (i: nat) => if i < d then 0 else if i == d then Padded(a, d) - Padded(w, d) else Padded(a, i))
  }

  /** `⊖` as it is run: the divergence sought, then the output filled position by position. */
  method SubByFilling(a: Tumbler, w: Tumbler) returns (r: Result<Tumbler, SubPrecond>)
    ensures r == Sub(a, w)
  {
    if Lt(a, w) {
      return Err(SubPrecond);
    }
    var paddedLen := MaxLen(a, w);
    var d := 0;
    while d < paddedLen && Padded(a, d) == Padded(w, d)
      invariant 0 <= d <= paddedLen
      invariant forall i :: 0 <= i < d ==> Padded(a, i) == Padded(w, i)
    {
      d := d + 1;
    }
    if d == paddedLen {
      return Ok(seq(paddedLen, i => 0));
    }
    DivergenceFavoursTheLarger(a, w);
    var out: seq<nat> := seq(d, i => 0);
    out := out + [Padded(a, d) - Padded(w, d)];
    for i := d + 1 to paddedLen
      invariant |out| == i
      invariant out == Difference(a, w)[..i]
    {
      out := out + [Padded(a, i)];
    }
    assert out == Difference(a, w)[..paddedLen] == Difference(a, w);
    r := Ok(out);
  }

  /** `b ⊖ a`, only where adding it back to `a` gives `b`. */
  function Displacement(a: Tumbler, b: Tumbler): (r: Option<Tumbler>)
  {
    if !Lt(a, b) then None
    else if |a| > |b| then None
    else if IsPrefix(a, b) then None
    else
      LtAsymmetric(a, b);
      Some(Sub(b, a).value)
  }

  /** The ordinal-only shift: the last component advanced by `n`. */
  function Shift(v: Tumbler, n: nat): (r: Tumbler)
    ensures |r| == |v|
  {
    v[..|v| - 1] + [v[|v| - 1] + n]
  }

  /** The least tumbler of the same length strictly above `t`. */
  function NextAtLength(t: Tumbler): (r: Tumbler)
    ensures |r| == |t|
  {
    Shift(t, 1)
  }

  /** The last nonzero position, 1-based; the length where every component is zero. */
  function Sig(t: Tumbler): (r: nat)
    ensures 1 <= r <= |t|
    ensures t[r - 1] != 0 ==> forall i :: r <= i < |t| ==> t[i] == 0
    ensures t[r - 1] == 0 ==> r == |t| && forall i :: 0 <= i < |t| ==> t[i] == 0
  {
    LastNonzeroUpTo(t, |t|)
  }

  function LastNonzeroUpTo(t: Tumbler, upTo: nat): (r: nat)
    requires upTo <= |t|
    requires forall i :: upTo <= i < |t| ==> t[i] == 0
    ensures 1 <= r <= |t|
    ensures t[r - 1] != 0 ==> forall i :: r <= i < |t| ==> t[i] == 0
    ensures t[r - 1] == 0 ==> r == |t| && forall i :: 0 <= i < |t| ==> t[i] == 0
  {
    if upTo == 0 then |t|
    else if t[upTo - 1] != 0 then upTo
    else LastNonzeroUpTo(t, upTo - 1)
  }

  /** `inc(t, k)`: the next peer for `k = 0`, else `k - 1` zeros and a one appended. */
  function Inc(t: Tumbler, k: nat): (r: Tumbler)
    ensures |r| == |t| + k
  {
    if k == 0 then t[Sig(t) - 1 := t[Sig(t) - 1] + 1]
    else t + seq(k - 1, i => 0) + [1]
  }

  /** The first difference decides the order both ways. */
  lemma FirstDifferenceDecides(a: seq<nat>, b: seq<nat>)
    ensures var k := FirstDifference(a, b); Lt(a, b) <==> k < |b| && (k == |a| || a[k] < b[k])
  {
    var k := FirstDifference(a, b);
    if Lt(a, b) {
      var i :| 0 <= i < |b| && FallsBelowAt(a, b, i);
      assert i == k;
    } else if k < |b| && (k == |a| || a[k] < b[k]) {
      assert FallsBelowAt(a, b, k);
    }
  }

  lemma PrefixByAgreement(p: seq<nat>, q: seq<nat>)
    ensures IsPrefix(p, q) <==> FirstDifference(p, q) == |p|
  {
    var k := FirstDifference(p, q);
    if k == |p| {
      assert p == q[..|p|];
    }
  }

  // ---------------------------------------------------------------- laws of the sum and the difference

  /** Adding a displacement strictly advances: every span is nonempty. */
  lemma AddAdvances(a: Tumbler, w: Tumbler)
    requires InAddDomain(a, w)
    ensures Lt(a, Add(a, w))
  {
    var k := AddDomain(a, w).value;
    assert FallsBelowAt(a, Add(a, w), k - 1);
  }

  /** The sum determines the displacement: `⊕` is left-cancellative. */
  lemma AddLeftCancels(a: Tumbler, x: Tumbler, y: Tumbler)
    requires InAddDomain(a, x) && InAddDomain(a, y)
    requires Add(a, x) == Add(a, y)
    ensures x == y
  {
    var r := Add(a, x);
    var k, l := AddDomain(a, x).value, AddDomain(a, y).value;
    assert r[k - 1] == a[k - 1] + x[k - 1] && r[l - 1] == a[l - 1] + y[l - 1];
    assert forall i :: 0 <= i < k - 1 ==> r[i] == a[i];
    assert forall i :: 0 <= i < l - 1 ==> r[i] == a[i];
    assert k == l;
    forall i | 0 <= i < |x| ensures x[i] == y[i] {
      if i >= k { assert r[i] == x[i] == y[i]; }
    }
  }

  /** `⊕` is many-to-one in its start, exactly up to the action point. */
  lemma AddForgetsPastTheActionPoint(a: Tumbler, b: Tumbler, w: Tumbler)
    requires InAddDomain(a, w) && InAddDomain(b, w)
    ensures Add(a, w) == Add(b, w) <==> AgreeTo(a, b, AddDomain(a, w).value)
  {
    var k := AddDomain(a, w).value;
    var x, y := Add(a, w), Add(b, w);
    if x == y {
      forall i | 0 <= i < k ensures a[i] == b[i] {
        if i < k - 1 { assert x[i] == a[i] && y[i] == b[i]; }
        else { assert x[i] == a[i] + w[i] && y[i] == b[i] + w[i]; }
      }
    }
  }

  /** `w` is what `⊖` computes from `s` up to `r`, where they differ at position `d` of `s`. */
  predicate WidthAt(s: Tumbler, r: Tumbler, w: Tumbler, d: nat) {
    && d < |s| <= |r| == |w|
    && AgreeTo(s, r, d) && s[d] < r[d]
    && (forall i :: 0 <= i < d ==> w[i] == 0)
    && w[d] == r[d] - s[d]
    && (forall i :: d < i < |w| ==> w[i] == r[i])
  }

  lemma DifferenceIsWidth(s: Tumbler, r: Tumbler) returns (d: nat)
    requires |s| <= |r| && Lt(s, r) && !IsPrefix(s, r)
    ensures !Lt(r, s) && WidthAt(s, r, Difference(r, s), d)
  {
    LtAsymmetric(s, r);
    FirstDifferenceDecides(s, r);
    PrefixByAgreement(s, r);
    d := FirstDifference(s, r);
    assert forall i :: 0 <= i < d ==> Padded(r, i) == Padded(s, i);
    assert Padded(r, d) != Padded(s, d);
    assert PaddedDivergence(r, s) == Some(d);
  }

  lemma AddOfWidth(s: Tumbler, r: Tumbler, w: Tumbler, d: nat)
    requires WidthAt(s, r, w, d)
    ensures InAddDomain(s, w) && Add(s, w) == r
  {
    assert ActionPoint(w) == Some(d + 1);
    forall i | 0 <= i < |r| ensures Add(s, w)[i] == r[i] {}
  }

  lemma SameLengthPrefix(s: Tumbler, r: Tumbler)
    requires |s| == |r| && Lt(s, r)
    ensures !IsPrefix(s, r)
  {
    LtAsymmetric(s, r);
  }

  /** On one length, a start and a reach determine the width that joins them. */
  lemma WidthFromReach(s: Tumbler, r: Tumbler)
    requires |s| == |r| && Lt(s, r)
    ensures !Lt(r, s) && InAddDomain(s, Difference(r, s)) && |Difference(r, s)| == |s|
    ensures Add(s, Difference(r, s)) == r
  {
    SameLengthPrefix(s, r);
    var d := DifferenceIsWidth(s, r);
    AddOfWidth(s, r, Difference(r, s), d);
  }

  /** Conversely the reach of a level-uniform pair gives its width back. */
  lemma ReachDeterminesWidth(s: Tumbler, w: Tumbler)
    requires InAddDomain(s, w) && |s| == |w|
    ensures !Lt(Add(s, w), s) && Difference(Add(s, w), s) == w
  {
    AddAdvances(s, w);
    WidthFromReach(s, Add(s, w));
    AddLeftCancels(s, w, Difference(Add(s, w), s));
  }

  /** The gate of `Displacement` is exactly the round trip, for every increasing pair. */
  lemma DisplacementRoundTrips(a: Tumbler, b: Tumbler)
    requires Lt(a, b)
    ensures !Lt(b, a)
    ensures Displacement(a, b).Some? <==>
            InAddDomain(a, Difference(b, a)) && Add(a, Difference(b, a)) == b
    ensures Displacement(a, b).Some? ==> Displacement(a, b).value == Difference(b, a)
  {
    LtAsymmetric(a, b);
    var w := Difference(b, a);
    if |a| <= |b| && !IsPrefix(a, b) {
      var d := DifferenceIsWidth(a, b);
      AddOfWidth(a, b, w, d);
    } else if |a| <= |b| {
      assert forall i :: 0 <= i < |a| ==> Padded(b, i) == Padded(a, i);
      assert forall i :: 0 <= i < |a| ==> w[i] == 0;
    }
  }

  lemma WidthsCompose(s: Tumbler, p: Tumbler, r: Tumbler, u: Tumbler, v: Tumbler, i: nat, j: nat)
    requires |s| == |p| == |r|
    requires WidthAt(s, p, u, i) && WidthAt(p, r, v, j)
    ensures InAddDomain(u, v) && WidthAt(s, r, Add(u, v), if i < j then i else j)
  {
    assert ActionPoint(v) == Some(j + 1);
    var x := Add(u, v);
    assert x == u[..j] + [u[j] + v[j]] + v[j + 1..];
  }

  /** The widths of the two halves of a split compose, by `⊕`, to the whole width. */
  lemma SplitWidthsCompose(s: Tumbler, p: Tumbler, r: Tumbler)
    requires |s| == |p| == |r| && Lt(s, p) && Lt(p, r)
    ensures !Lt(p, s) && !Lt(r, p) && !Lt(r, s)
    ensures InAddDomain(Difference(p, s), Difference(r, p))
    ensures Add(Difference(p, s), Difference(r, p)) == Difference(r, s)
  {
    LtTransitive(s, p, r);
    SameLengthPrefix(s, p);
    SameLengthPrefix(p, r);
    SameLengthPrefix(s, r);
    var i := DifferenceIsWidth(s, p);
    var j := DifferenceIsWidth(p, r);
    var k := DifferenceIsWidth(s, r);
    WidthsCompose(s, p, r, Difference(p, s), Difference(r, p), i, j);
    WidthIsUnique(s, r, Add(Difference(p, s), Difference(r, p)), Difference(r, s), if i < j then i else j, k);
  }

  lemma WidthIsUnique(s: Tumbler, r: Tumbler, v: Tumbler, w: Tumbler, i: nat, j: nat)
    requires WidthAt(s, r, v, i) && WidthAt(s, r, w, j)
    ensures v == w
  {
  }

  // ---------------------------------------------------------------- laws of the shift

  /** TS1/TS4/TS5: the shift preserves the order, and orders its amounts. */
  lemma ShiftOrders(v: Tumbler, m: nat, n: nat)
    ensures Lt(Shift(v, m), Shift(v, n)) <==> m < n
    ensures Shift(v, m) == Shift(v, n) <==> m == n
  {
    var x, y := Shift(v, m), Shift(v, n);
    assert forall i :: 0 <= i < |v| - 1 ==> x[i] == y[i];
    if m < n { assert FallsBelowAt(x, y, |v| - 1); }
    if Shift(v, m) == Shift(v, n) { assert x[|v| - 1] == y[|v| - 1]; }
  }

  /** TS3: shifts compose additively. */
  lemma ShiftComposes(v: Tumbler, m: nat, n: nat)
    ensures Shift(Shift(v, m), n) == Shift(v, m + n)
  {
  }

  lemma ShiftZero(v: Tumbler)
    ensures Shift(v, 0) == v
  {
  }

  /** `NextAtLength` is the least: nothing of the same length lies strictly between. */
  lemma NextAtLengthIsLeast(t: Tumbler, u: Tumbler)
    requires |u| == |t| && Lt(t, u)
    ensures Lt(t, NextAtLength(t))
    ensures Le(NextAtLength(t), u)
  {
    var n := NextAtLength(t);
    assert FallsBelowAt(t, n, |t| - 1);
    var k := FirstDifference(t, u);
    if k < |t| - 1 {
      assert FallsBelowAt(n, u, k) by {
        FirstDifferenceDecides(t, u);
      }
    } else {
      FirstDifferenceDecides(t, u);
      if u[k] == t[k] + 1 {
        assert n == u;
      } else {
        assert FallsBelowAt(n, u, k);
      }
    }
  }

  /** The interval from `p` to its next same-length tumbler holds exactly the extensions of `p`. */
  lemma SubtreeInterval(p: Tumbler, t: Tumbler)
    ensures (Le(p, t) && Lt(t, NextAtLength(p))) <==> IsPrefix(p, t)
  {
    var n := NextAtLength(p);
    var k := FirstDifference(p, t);
    PrefixByAgreement(p, t);
    FirstDifferenceDecides(p, t);
    FirstDifferenceDecides(t, n);
    if IsPrefix(p, t) {
      if |t| > |p| { assert FallsBelowAt(p, t, |p|); }
      else { assert p == t; }
      assert FallsBelowAt(t, n, |p| - 1);
    } else if k < |t| && p[k] < t[k] {
      var l := FirstDifference(t, n);
      assert forall i :: 0 <= i < k ==> t[i] == n[i];
      assert l >= k;
      assert k < |p| - 1 ==> l == k;
    }
  }
}

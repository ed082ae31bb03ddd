/** The tumbler value and its intrinsic total order: lexicographic, prefix-smaller. */
module Tumblers {

  /** T0's carrier: the nonempty finite sequences over the naturals. */
  type Tumbler = t: seq<nat> | |t| > 0 witness [0]

  /** `a` and `b` agree in every component before position `k`. */
  predicate AgreeTo(a: seq<nat>, b: seq<nat>, k: nat)
    requires k <= |a| && k <= |b|
  {
    forall i :: 0 <= i < k ==> a[i] == b[i]
  }

  /** `k` is the first position at which `a` falls below `b`: `a` ends there, or is smaller there. */
  predicate FallsBelowAt(a: seq<nat>, b: seq<nat>, k: nat)
  {
    k <= |a| && k < |b| && AgreeTo(a, b, k) && (k == |a| || a[k] < b[k])
  }

  /** The strict order of T1/T2. */
  predicate Lt(a: seq<nat>, b: seq<nat>)
  {
    exists k :: 0 <= k < |b| && FallsBelowAt(a, b, k)
  }

  predicate Le(a: seq<nat>, b: seq<nat>)
  {
    a == b || Lt(a, b)
  }

  predicate IsPrefix(p: seq<nat>, q: seq<nat>)
  {
    |p| <= |q| && p == q[..|p|]
  }

  lemma LtIrreflexive(a: seq<nat>)
    ensures !Lt(a, a)
  {
  }

  lemma LtTransitive(a: seq<nat>, b: seq<nat>, c: seq<nat>)
    requires Lt(a, b) && Lt(b, c)
    ensures Lt(a, c)
  {
    var i :| 0 <= i < |b| && FallsBelowAt(a, b, i);
    var j :| 0 <= j < |c| && FallsBelowAt(b, c, j);
    var k := if i < j then i else j;
    assert FallsBelowAt(a, c, k);
  }

  lemma LtAsymmetric(a: seq<nat>, b: seq<nat>)
    requires Lt(a, b)
    ensures !Lt(b, a) && a != b
  {
  }

  lemma LtTotal(a: seq<nat>, b: seq<nat>)
    ensures Lt(a, b) || a == b || Lt(b, a)
  {
    var k := FirstDifference(a, b);
    if k < |b| && (k == |a| || a[k] < b[k]) {
      assert FallsBelowAt(a, b, k);
    } else if k < |a| {
      assert FallsBelowAt(b, a, k);
    }
  }

  /** The length of the longest common prefix. */
  ghost function FirstDifference(a: seq<nat>, b: seq<nat>): (k: nat)
    ensures k <= |a| && k <= |b| && AgreeTo(a, b, k)
    ensures k == |a| || k == |b| || a[k] != b[k]
    ensures k == |a| == |b| ==> a == b
  {
    if a == [] || b == [] || a[0] != b[0] then 0
    else
      var k := FirstDifference(a[1..], b[1..]);
      assert forall i :: 0 <= i < 1 + k ==> a[i] == b[i] by {
        forall i | 0 <= i < 1 + k ensures a[i] == b[i] {
          if i > 0 { assert a[i] == a[1..][i - 1] && b[i] == b[1..][i - 1]; }
        }
      }
      1 + k
  }

  /** The strict total order laws, quantified for the sweeps that compare many endpoints. */
  lemma OrderLaws()
    ensures forall a: seq<nat>, b: seq<nat>, c: seq<nat> {:trigger Lt(a, b), Lt(b, c)} ::
              Lt(a, b) && Lt(b, c) ==> Lt(a, c)
    ensures forall a: seq<nat>, b: seq<nat> {:trigger Lt(a, b)} :: Lt(a, b) || a == b || Lt(b, a)
    ensures forall a: seq<nat>, b: seq<nat> {:trigger Lt(a, b)} :: !(Lt(a, b) && (a == b || Lt(b, a)))
  {
    forall a: seq<nat>, b: seq<nat>, c: seq<nat> | Lt(a, b) && Lt(b, c) ensures Lt(a, c) {
      LtTransitive(a, b, c);
    }
    forall a: seq<nat>, b: seq<nat> ensures Lt(a, b) || a == b || Lt(b, a) { LtTotal(a, b); }
    forall a: seq<nat>, b: seq<nat> ensures !(Lt(a, b) && (a == b || Lt(b, a))) {
      if Lt(a, b) { LtAsymmetric(a, b); }
    }
  }

  /** How many of `pts` lie below `t`: an integer image of the order on finitely many points. */
  ghost function Rank(t: seq<nat>, pts: seq<seq<nat>>): nat {
    if pts == [] then 0 else (if Lt(pts[0], t) then 1 else 0) + Rank(t, pts[1..])
  }

  lemma {:induction false} RankMonotone(a: seq<nat>, b: seq<nat>, pts: seq<seq<nat>>)
    requires Lt(a, b)
    ensures Rank(a, pts) <= Rank(b, pts)
    ensures a in pts ==> Rank(a, pts) < Rank(b, pts)
  {
    if pts != [] {
      if Lt(pts[0], a) { LtTransitive(pts[0], a, b); }
      LtIrreflexive(a);
      RankMonotone(a, b, pts[1..]);
    }
  }

  lemma RankDecides(a: seq<nat>, b: seq<nat>, pts: seq<seq<nat>>)
    requires a in pts && b in pts
    ensures Lt(a, b) <==> Rank(a, pts) < Rank(b, pts)
    ensures a == b <==> Rank(a, pts) == Rank(b, pts)
  {
    LtTotal(a, b);
    if Lt(a, b) { RankMonotone(a, b, pts); LtAsymmetric(a, b); }
    if Lt(b, a) { RankMonotone(b, a, pts); LtAsymmetric(b, a); }
  }

  /** Every comparison among five points, as comparisons of integers. */
  lemma Ranks(a: seq<nat>, b: seq<nat>, c: seq<nat>, d: seq<nat>, t: seq<nat>)
    returns (ra: int, rb: int, rc: int, rd: int, rt: int)
    ensures (Lt(a, b) <==> ra < rb) && (Lt(b, a) <==> rb < ra) && (a == b <==> ra == rb)
    ensures (Lt(a, c) <==> ra < rc) && (Lt(c, a) <==> rc < ra) && (a == c <==> ra == rc)
    ensures (Lt(a, d) <==> ra < rd) && (Lt(d, a) <==> rd < ra) && (a == d <==> ra == rd)
    ensures (Lt(a, t) <==> ra < rt) && (Lt(t, a) <==> rt < ra) && (a == t <==> ra == rt)
    ensures (Lt(b, c) <==> rb < rc) && (Lt(c, b) <==> rc < rb) && (b == c <==> rb == rc)
    ensures (Lt(b, d) <==> rb < rd) && (Lt(d, b) <==> rd < rb) && (b == d <==> rb == rd)
    ensures (Lt(b, t) <==> rb < rt) && (Lt(t, b) <==> rt < rb) && (b == t <==> rb == rt)
    ensures (Lt(c, d) <==> rc < rd) && (Lt(d, c) <==> rd < rc) && (c == d <==> rc == rd)
    ensures (Lt(c, t) <==> rc < rt) && (Lt(t, c) <==> rt < rc) && (c == t <==> rc == rt)
    ensures (Lt(d, t) <==> rd < rt) && (Lt(t, d) <==> rt < rd) && (d == t <==> rd == rt)
  {
    var pts := [a, b, c, d, t];
    ra, rb, rc, rd, rt := Rank(a, pts), Rank(b, pts), Rank(c, pts), Rank(d, pts), Rank(t, pts);
    assert pts[0] == a && pts[1] == b && pts[2] == c && pts[3] == d && pts[4] == t;
    forall x, y | x in pts && y in pts
      ensures (Lt(x, y) <==> Rank(x, pts) < Rank(y, pts)) && (x == y <==> Rank(x, pts) == Rank(y, pts))
    {
      RankDecides(x, y, pts);
    }
  }
}

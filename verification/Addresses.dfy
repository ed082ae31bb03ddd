/** Addresses: T4 validity, classification, the field projections, and the two structural cuts. */
module Addresses {
  import opened Wrappers
  import opened Tumblers
  import opened Arithmetic

  // ---------------------------------------------------------------- validity and level

  /** How many separators (zero components) a tumbler has. */
  function Zeros(t: seq<nat>): (n: nat)
    ensures n <= |t|
  {
    if t == [] then 0 else Zeros(t[..|t| - 1]) + (if t[|t| - 1] == 0 then 1 else 0)
  }

  predicate HasAdjacentZeros(t: seq<nat>) {
    exists i :: 0 < i < |t| && t[i - 1] == 0 && t[i] == 0
  }

  predicate T4Valid(t: seq<nat>) {
    && t != [] && t[0] != 0 && t[|t| - 1] != 0
    && !HasAdjacentZeros(t)
    && Zeros(t) <= 3
  }

  /** A T4-valid tumbler; its level is a function of its components. */
  type Address = t: seq<nat> | T4Valid(t) witness [1]

  datatype T4Clause = LeadingZero | TrailingZero | AdjacentZeros | OverDepth

  /** The violated clauses, in declaration order, each at most once. */
  function ViolatedClauses(t: Tumbler): (c: seq<T4Clause>)
    ensures c == [] <==> T4Valid(t)
  {
    (if t[0] == 0 then [LeadingZero] else [])
    + (if t[|t| - 1] == 0 then [TrailingZero] else [])
    + (if HasAdjacentZeros(t) then [AdjacentZeros] else [])
    + (if Zeros(t) > 3 then [OverDepth] else [])
  }

  /** The one fused left-to-right scan: the true separator count and every violated clause. */
  method ScanT4(t: Tumbler) returns (zeros: nat, clauses: seq<T4Clause>)
    ensures zeros == Zeros(t)
    ensures clauses == ViolatedClauses(t)
    ensures clauses == [] <==> T4Valid(t)
  {
    zeros := 0;
    var adjacent, prevZero := false, false;
    for i := 0 to |t|
      invariant zeros == Zeros(t[..i])
      invariant adjacent <==> HasAdjacentZeros(t[..i])
      invariant prevZero <==> i > 0 && t[i - 1] == 0
    {
      assert t[..i + 1][..i] == t[..i];
      AdjacentGrows(t, i);
      if t[i] == 0 {
        if prevZero {
          adjacent := true;
        }
        zeros := zeros + 1;
        prevZero := true;
      } else {
        prevZero := false;
      }
    }
    assert t[..|t|] == t;
    clauses := [];
    if t[0] == 0 {
      clauses := clauses + [LeadingZero];
    }
    if t[|t| - 1] == 0 {
      clauses := clauses + [TrailingZero];
    }
    if adjacent {
      clauses := clauses + [AdjacentZeros];
    }
    if zeros > 3 {
      clauses := clauses + [OverDepth];
    }
  }

  lemma AdjacentGrows(t: seq<nat>, i: nat)
    requires i < |t|
    ensures HasAdjacentZeros(t[..i + 1]) <==> HasAdjacentZeros(t[..i]) || (i > 0 && t[i - 1] == 0 && t[i] == 0)
  {
    if HasAdjacentZeros(t[..i]) {
      var k :| 0 < k < |t[..i]| && t[..i][k - 1] == 0 && t[..i][k] == 0;
      assert t[..i + 1][k - 1] == 0 && t[..i + 1][k] == 0;
    }
    if i > 0 && t[i - 1] == 0 && t[i] == 0 {
      assert t[..i + 1][i - 1] == 0 && t[..i + 1][i] == 0;
    }
    if HasAdjacentZeros(t[..i + 1]) {
      var k :| 0 < k < |t[..i + 1]| && t[..i + 1][k - 1] == 0 && t[..i + 1][k] == 0;
      if k < i { assert t[..i][k - 1] == 0 && t[..i][k] == 0; }
    }
  }

  datatype Level = Node | Account | Document | Element

  function LevelOf(a: Address): Level {
    match Zeros(a)
    case 0 => Node
    case 1 => Account
    case 2 => Document
    case _ => Element
  }

  function Validate(t: Tumbler): (r: Result<Address, seq<T4Clause>>)
    ensures r.Ok? <==> T4Valid(t)
    ensures r.Ok? ==> r.value == t
    ensures r.Err? ==> r.error != []
  {
    if T4Valid(t) then Ok(t) else Err(ViolatedClauses(t))
  }

  // ---------------------------------------------------------------- counting separators

  lemma {:induction false} ZerosConcat(x: seq<nat>, y: seq<nat>)
    ensures Zeros(x + y) == Zeros(x) + Zeros(y)
  {
    if y == [] {
      assert x + y == x;
    } else {
      ZerosConcat(x, y[..|y| - 1]);
      assert (x + y)[..|x + y| - 1] == x + y[..|y| - 1];
    }
  }

  /** A separator at position `i` counts once beyond those before it. */
  lemma ZerosAt(t: seq<nat>, i: nat)
    requires i < |t|
    ensures Zeros(t) == Zeros(t[..i]) + (if t[i] == 0 then 1 else 0) + Zeros(t[i + 1..])
  {
    assert t == t[..i + 1] + t[i + 1..];
    ZerosConcat(t[..i + 1], t[i + 1..]);
    assert t[..i + 1][..i] == t[..i];
  }

  lemma ZerosPrefix(t: seq<nat>, i: nat)
    requires i <= |t|
    ensures Zeros(t) == Zeros(t[..i]) + Zeros(t[i..])
  {
    assert t == t[..i] + t[i..];
    ZerosConcat(t[..i], t[i..]);
  }

  lemma ZerosMonotone(t: seq<nat>, j: nat, i: nat)
    requires j <= i <= |t|
    ensures Zeros(t[..j]) <= Zeros(t[..i])
  {
    ZerosPrefix(t[..i], j);
    assert t[..i][..j] == t[..j];
  }

  lemma NotAdjacent(t: seq<nat>, i: nat)
    requires !HasAdjacentZeros(t) && 0 < i < |t|
    ensures t[i - 1] != 0 || t[i] != 0
  {
  }

  /** Adjacent zeros of a concatenation lie in a part or at the seam. */
  lemma AdjacentConcat(x: seq<nat>, y: seq<nat>)
    ensures HasAdjacentZeros(x + y) <==>
            HasAdjacentZeros(x) || HasAdjacentZeros(y) || (x != [] && y != [] && x[|x| - 1] == 0 && y[0] == 0)
  {
    var t := x + y;
    if HasAdjacentZeros(x) {
      var i :| 0 < i < |x| && x[i - 1] == 0 && x[i] == 0;
      assert t[i - 1] == 0 && t[i] == 0;
    }
    if HasAdjacentZeros(y) {
      var i :| 0 < i < |y| && y[i - 1] == 0 && y[i] == 0;
      assert t[|x| + i - 1] == 0 && t[|x| + i] == 0;
    }
    if x != [] && y != [] && x[|x| - 1] == 0 && y[0] == 0 {
      assert t[|x| - 1] == 0 && t[|x|] == 0;
    }
    if HasAdjacentZeros(t) {
      var i :| 0 < i < |t| && t[i - 1] == 0 && t[i] == 0;
      if i < |x| { assert x[i - 1] == 0 && x[i] == 0; }
      else if i > |x| { assert y[i - 1 - |x|] == 0 && y[i - |x|] == 0; }
    }
  }

  lemma ZerosOfTail(tail: seq<nat>)
    ensures |tail| == 1 ==> Zeros(tail) == (if tail[0] == 0 then 1 else 0)
    ensures |tail| == 2 ==> Zeros(tail) == (if tail[0] == 0 then 1 else 0) + (if tail[1] == 0 then 1 else 0)
    ensures |tail| == 3 ==>
              Zeros(tail) == (if tail[0] == 0 then 1 else 0) + (if tail[1] == 0 then 1 else 0)
                + (if tail[2] == 0 then 1 else 0)
  {
    if 1 <= |tail| <= 3 {
      assert tail[..1] == [tail[0]] && [tail[0]][..0] == [];
      if |tail| >= 2 { assert tail[..2][..1] == tail[..1] && tail[..2][1] == tail[1]; }
    }
  }

  /** A nonempty prefix of an address that ends on a nonzero component is an address. */
  lemma PrefixIsValid(t: seq<nat>, n: nat)
    requires 0 < n <= |t| && t[0] != 0 && !HasAdjacentZeros(t) && Zeros(t[..n]) <= 3 && t[n - 1] != 0
    ensures T4Valid(t[..n])
  {
    assert t == t[..n] + t[n..];
    AdjacentConcat(t[..n], t[n..]);
  }

  // ---------------------------------------------------------------- separators and fields

  /** The index of the `n`-th separator at or after `from`, `n` counted from one. */
  function SeparatorFrom(t: seq<nat>, from: nat, n: nat): (r: Option<nat>)
    requires from <= |t| && n >= 1
    ensures r.Some? ==> from <= r.value < |t| && t[r.value] == 0
    decreases |t| - from
  {
    if from == |t| then None
    else if t[from] == 0 then (if n == 1 then Some(from) else SeparatorFrom(t, from + 1, n - 1))
    else SeparatorFrom(t, from + 1, n)
  }

  function Separator(a: Address, n: nat): (r: Option<nat>)
    requires n >= 1
    ensures r.Some? ==> r.value < |a| && a[r.value] == 0
  {
    SeparatorFrom(a, 0, n)
  }

  lemma {:induction false} SeparatorCounts(t: seq<nat>, from: nat, n: nat)
    requires from <= |t| && n >= 1
    ensures var r := SeparatorFrom(t, from, n);
            if r.Some? then Zeros(t[..r.value]) == Zeros(t[..from]) + n - 1 else Zeros(t) < Zeros(t[..from]) + n
    decreases |t| - from
  {
    if from < |t| {
      assert t[..from + 1][..from] == t[..from];
      if t[from] == 0 {
        if n > 1 { SeparatorCounts(t, from + 1, n - 1); }
      } else {
        SeparatorCounts(t, from + 1, n);
      }
    } else {
      assert t[..from] == t;
    }
  }

  /** The `n`-th separator is the zero with exactly `n - 1` zeros before it; there is none past the count. */
  lemma SeparatorIs(a: Address, n: nat, i: nat)
    requires n >= 1
    ensures Separator(a, n) == Some(i) <==> i < |a| && a[i] == 0 && Zeros(a[..i]) == n - 1
    ensures Separator(a, n).None? <==> Zeros(a) < n
  {
    SeparatorCounts(a, 0, n);
    var r := Separator(a, n);
    if r.Some? {
      ZerosAt(a, r.value);
    }
    if i < |a| && a[i] == 0 && Zeros(a[..i]) == n - 1 {
      ZerosAt(a, i);
      SameSeparator(a, i, r.value);
    }
  }

  lemma SameSeparator(t: seq<nat>, i: nat, j: nat)
    requires i < |t| && j < |t| && t[i] == 0 && t[j] == 0 && Zeros(t[..i]) == Zeros(t[..j])
    ensures i == j
  {
    if i < j {
      assert t[..j][..i] == t[..i];
      ZerosAt(t[..j], i);
    } else if j < i {
      assert t[..i][..j] == t[..j];
      ZerosAt(t[..i], j);
    }
  }

  /** The field the `n`-th separator opens, running to the next separator or the end. */
  function Field(a: Address, n: nat): Option<seq<nat>>
    requires n >= 1
  {
    match Separator(a, n)
    case None => None
    case Some(i) =>
      SeparatorIs(a, n, i);
      match Separator(a, n + 1)
      case None => Some(a[i + 1..])
      case Some(j) =>
        NextSeparatorIsPast(a, n, i, j);
        Some(a[i + 1..j])
  }

  lemma NextSeparatorIsPast(a: Address, n: nat, i: nat, j: nat)
    requires n >= 1 && Separator(a, n) == Some(i) && Separator(a, n + 1) == Some(j)
    ensures i < j
  {
    SeparatorIs(a, n, i);
    SeparatorIs(a, n + 1, j);
    if j <= i { ZerosMonotone(a, j, i); }
  }

  function ElementField(a: Address): Option<seq<nat>> {
    Field(a, 3)
  }

  const CONTENT_SUBSPACE := 1
  const LINK_SUBSPACE := 2

  /** Which subspace an element sits in: the first component of its element field. */
  function Subspace(a: Address): Option<nat> {
    match ElementField(a)
    case None => None
    case Some(e) => if e == [] then None else Some(e[0])
  }

  /** Fields are present exactly by level, nonempty, and open on a nonzero component. */
  lemma FieldsAreNonempty(a: Address, n: nat)
    requires n >= 1
    ensures Field(a, n).Some? <==> Zeros(a) >= n
    ensures Field(a, n).Some? ==> Field(a, n).value != [] && Field(a, n).value[0] != 0
  {
    match Separator(a, n) {
      case None => SeparatorIs(a, n, 0);
      case Some(i) =>
        SeparatorIs(a, n, i);
        assert i + 1 < |a|;
        NotAdjacent(a, i + 1);
        match Separator(a, n + 1) {
          case None =>
          case Some(j) => NextSeparatorIsPast(a, n, i, j);
        }
    }
  }

  // ---------------------------------------------------------------- full element positions

  /** A full element position `doc·0·subspace·ordinal`: an element field of exactly two components. */
  predicate IsElementPosition(a: seq<nat>) {
    T4Valid(a) && ElementField(a).Some? && |ElementField(a).value| == 2
  }

  /** The shape as components: three separators, the last of them third from the end. */
  lemma ElementPositionShape(a: seq<nat>)
    ensures IsElementPosition(a) <==> T4Valid(a) && Zeros(a) == 3 && |a| > 3 && a[|a| - 3] == 0
  {
    if T4Valid(a) {
      var r := Separator(a, 3);
      SeparatorIs(a, 4, 0);
      if r.Some? { SeparatorIs(a, 3, r.value); } else { SeparatorIs(a, 3, 0); }
      if Zeros(a) == 3 && |a| > 3 && a[|a| - 3] == 0 {
        ZerosAt(a, |a| - 3);
        NotAdjacent(a, |a| - 2);
        ZerosOfTail(a[|a| - 2..]);
        SeparatorIs(a, 3, |a| - 3);
      }
    }
  }

  /** What two positions of one content chain share: every component but the ordinal. */
  function ChainOf(a: seq<nat>): seq<nat>
    requires a != []
  {
    a[..|a| - 1]
  }

  function OrdinalOf(a: seq<nat>): nat
    requires a != []
  {
    a[|a| - 1]
  }

  lemma ElementPositionComponents(a: seq<nat>)
    requires IsElementPosition(a)
    ensures |a| > 3 && Zeros(a) == 3 && a[|a| - 3] == 0 && a[|a| - 2] != 0 && a[|a| - 1] != 0
    ensures Zeros(ChainOf(a)) == 3 && Zeros(a[..|a| - 3]) == 2
    ensures Separator(a, 3) == Some(|a| - 3)
  {
    ElementPositionShape(a);
    NotAdjacent(a, |a| - 2);
    ZerosPrefix(a, |a| - 3);
    ZerosOfTail(a[|a| - 3..]);
    ZerosPrefix(a, |a| - 1);
    ZerosOfTail(a[|a| - 1..]);
    SeparatorIs(a, 3, |a| - 3);
  }

  lemma SubspaceOfElementPosition(a: seq<nat>)
    requires IsElementPosition(a)
    ensures |a| > 3 && Subspace(a) == Some(a[|a| - 2])
  {
    ElementPositionComponents(a);
    SeparatorIs(a, 4, 0);
  }

  /** The ordinal shift keeps a full element position one, in its own chain. */
  lemma ShiftKeepsElementPosition(a: seq<nat>, k: nat)
    requires IsElementPosition(a)
    ensures IsElementPosition(Shift(a, k))
    ensures ChainOf(Shift(a, k)) == ChainOf(a) && OrdinalOf(Shift(a, k)) == OrdinalOf(a) + k
  {
    ElementPositionComponents(a);
    var c, b := ChainOf(a), Shift(a, k);
    assert a == c + [a[|a| - 1]] && b == c + [b[|a| - 1]];
    AdjacentConcat(c, [a[|a| - 1]]);
    AdjacentConcat(c, [b[|a| - 1]]);
    assert ChainOf(b) == c;
    ElementPositionShape(b);
  }

  lemma SameChainSameOrdinal(a: seq<nat>, b: seq<nat>)
    requires a != [] && b != [] && ChainOf(a) == ChainOf(b) && OrdinalOf(a) == OrdinalOf(b)
    ensures a == b
  {
    assert a == ChainOf(a) + [OrdinalOf(a)] && b == ChainOf(b) + [OrdinalOf(b)];
  }

  /** Within one chain the tumbler order is the order of ordinals. */
  lemma ChainOrder(a: seq<nat>, b: seq<nat>)
    requires a != [] && b != [] && ChainOf(a) == ChainOf(b)
    ensures Lt(a, b) <==> OrdinalOf(a) < OrdinalOf(b)
    ensures Le(a, b) <==> OrdinalOf(a) <= OrdinalOf(b)
  {
    assert a == ChainOf(a) + [OrdinalOf(a)] && b == ChainOf(b) + [OrdinalOf(b)];
    ShiftOrders(a, 0, OrdinalOf(b));
    var n := |a| - 1;
    assert forall i :: 0 <= i < n ==> a[i] == ChainOf(a)[i] == b[i];
    FirstDifferenceDecides(a, b);
  }

  /** Sharing a prefix is convex in the tumbler order. */
  lemma PrefixIsConvex(p: Tumbler, x: Tumbler, z: Tumbler, y: Tumbler)
    requires IsPrefix(p, x) && IsPrefix(p, y) && Le(x, z) && Le(z, y)
    ensures IsPrefix(p, z)
  {
    SubtreeInterval(p, x);
    SubtreeInterval(p, y);
    OrderLaws();
    SubtreeInterval(p, z);
  }

  /** An element position under another's chain is of that chain: a deeper field is one no run admits. */
  lemma UnderChainIsOfChain(x: seq<nat>, z: seq<nat>)
    requires IsElementPosition(x) && IsElementPosition(z) && IsPrefix(ChainOf(x), z)
    ensures ChainOf(z) == ChainOf(x)
  {
    ElementPositionComponents(x);
    ElementPositionComponents(z);
    var c := ChainOf(x);
    assert forall i :: 0 <= i < |c| ==> z[i] == c[i] == x[i];
    ZerosPrefix(z, |c|);
    assert z[..|c|] == c;
    NotAdjacent(z, |z| - 2);
    assert z[|c| - 2] == 0 && z[|c| - 1] != 0;
    if |z| - 3 >= |c| {
      ZerosAt(z[|c|..], |z| - 3 - |c|);
    }
    assert |z| - 3 < |c|;
  }

  /** Among full element positions of every length, one chain's positions lie together in the order. */
  lemma ChainsAreContiguous(x: seq<nat>, z: seq<nat>, y: seq<nat>)
    requires IsElementPosition(x) && IsElementPosition(y) && IsElementPosition(z)
    requires ChainOf(x) == ChainOf(y) && Le(x, z) && Le(z, y)
    ensures ChainOf(z) == ChainOf(x)
  {
    ElementPositionShape(x);
    PrefixIsConvex(ChainOf(x), x, z, y);
    UnderChainIsOfChain(x, z);
  }

  /**
   * What an I-extent holds: of the full element positions of every length, exactly the next `width`
   * of the start's own chain. No other level class can cover them.
   */
  lemma ExtentHoldsItsPositions(start: seq<nat>, width: nat, z: seq<nat>)
    requires IsElementPosition(start) && IsElementPosition(z)
    ensures Le(start, z) && Lt(z, Shift(start, width)) <==>
            ChainOf(z) == ChainOf(start) && OrdinalOf(start) <= OrdinalOf(z) < OrdinalOf(start) + width
    ensures Le(start, z) && Lt(z, Shift(start, width)) <==>
            exists k :: 0 <= k < width && z == Shift(start, k)
  {
    var reach := Shift(start, width);
    ShiftKeepsElementPosition(start, width);
    if Le(start, z) && Lt(z, reach) {
      ChainsAreContiguous(start, z, reach);
    }
    if ChainOf(z) == ChainOf(start) {
      ChainOrder(start, z);
      ChainOrder(z, reach);
      if OrdinalOf(start) <= OrdinalOf(z) {
        var k := OrdinalOf(z) - OrdinalOf(start);
        ShiftKeepsElementPosition(start, k);
        SameChainSameOrdinal(z, Shift(start, k));
      }
    }
    if k :| 0 <= k < width && z == Shift(start, k) {
      ShiftKeepsElementPosition(start, k);
    }
  }

  // ---------------------------------------------------------------- the two cuts

  /** The origin document: the prefix before the third separator, or the document itself. */
  function DocumentOf(a: Address): Option<seq<nat>> {
    match LevelOf(a)
    case Node => None
    case Account => None
    case Document => Some(a)
    case Element =>
      SeparatorIs(a, 3, 0);
      Some(a[..Separator(a, 3).value])
  }

  /** The projection never fails validation, and always answers a document the address extends. */
  lemma DocumentOfIsDocument(a: Address)
    ensures DocumentOf(a).Some? <==> Zeros(a) >= 2
    ensures DocumentOf(a).Some? ==>
              var d := DocumentOf(a).value; T4Valid(d) && LevelOf(d) == Document && IsPrefix(d, a)
  {
    if Zeros(a) == 3 {
      SeparatorIs(a, 3, 0);
      var i := Separator(a, 3).value;
      SeparatorIs(a, 3, i);
      NotAdjacent(a, i);
      PrefixIsValid(a, i);
    }
  }

  /** For a full element position the origin document is everything before its last three components. */
  lemma DocumentOfElementPosition(a: seq<nat>)
    requires IsElementPosition(a)
    ensures |a| > 3 && DocumentOf(a) == Some(a[..|a| - 3])
  {
    ElementPositionComponents(a);
    SeparatorIs(a, 3, |a| - 3);
  }

  /** The structural peel: the last component goes, and a separator it exposes goes with it. */
  function Parent(a: Address): Option<seq<nat>> {
    if |a| == 1 then None
    else
      var end := |a| - 1;
      if a[end - 1] == 0 then Some(a[..end - 1]) else Some(a[..end])
  }

  lemma EndsOnSeparator(q: seq<nat>, a: seq<nat>, end: nat)
    requires IsPrefix(q, a) && |q| == end && 0 < end <= |a| && a[end - 1] == 0
    ensures !T4Valid(q)
  {
    assert q[end - 1] == a[end - 1];
  }

  /** The peel is the longest proper prefix that is an address; there is none exactly for one component. */
  lemma ParentIsLongestValidPrefix(a: Address, q: seq<nat>)
    ensures Parent(a).Some? ==> T4Valid(Parent(a).value) && IsPrefix(Parent(a).value, a) && Parent(a).value != a
    ensures T4Valid(q) && IsPrefix(q, a) && q != a ==> Parent(a).Some? && |q| <= |Parent(a).value|
  {
    if |a| > 1 {
      var end := |a| - 1;
      ZerosPrefix(a, end);
      if a[end - 1] != 0 {
        PrefixIsValid(a, end);
      } else {
        NotAdjacent(a, end - 1);
        ZerosPrefix(a, end - 1);
        PrefixIsValid(a, end - 1);
        if IsPrefix(q, a) && |q| == end { EndsOnSeparator(q, a, end); }
      }
    }
  }

  // ---------------------------------------------------------------- minting

  /** The gate of `inc`: always for `k` at most one, for two below the element level, never past. */
  predicate IncPreservesT4(a: Address, k: nat) {
    match k
    case 0 => true
    case 1 => true
    case 2 => LevelOf(a) != Element
    case _ => false
  }

  lemma NextPeerIsValid(a: Address)
    ensures T4Valid(Inc(a, 0)) && Inc(a, 0) == Shift(a, 1)
  {
    assert Sig(a) == |a|;
    var c, x, y := a[..|a| - 1], a[|a| - 1], a[|a| - 1] + 1;
    assert a == c + [x] && Inc(a, 0) == c + [y];
    AdjacentConcat(c, [x]);
    AdjacentConcat(c, [y]);
    ZerosConcat(c, [x]);
    ZerosConcat(c, [y]);
    ZerosOfTail([x]);
    ZerosOfTail([y]);
  }

  lemma ExtensionValidity(a: Address, pad: seq<nat>)
    requires pad != [] && pad[|pad| - 1] != 0
    ensures T4Valid(a + pad) <==> !HasAdjacentZeros(pad) && Zeros(a) + Zeros(pad) <= 3
  {
    ZerosConcat(a, pad);
    AdjacentConcat(a, pad);
  }

  /** TA5a: the gate admits exactly the increments that stay addresses. */
  lemma IncGateIsExact(a: Address, k: nat)
    ensures T4Valid(Inc(a, k)) <==> IncPreservesT4(a, k)
  {
    if k == 0 {
      NextPeerIsValid(a);
    } else {
      var pad: seq<nat> := seq(k - 1, i => 0) + [1];
      assert Inc(a, k) == a + pad;
      ExtensionValidity(a, pad);
      ZerosOfTail(pad);
      if k >= 3 {
        assert pad[0] == 0 && pad[1] == 0;
        assert HasAdjacentZeros(pad);
      }
    }
  }

  datatype GateViolation = GateViolation

  function CheckedInc(a: Address, k: nat): (r: Result<Address, GateViolation>)
    ensures r.Ok? <==> IncPreservesT4(a, k)
    ensures r.Ok? ==> r.value == Inc(a, k)
  {
    if !IncPreservesT4(a, k) then Err(GateViolation)
    else
      IncGateIsExact(a, k);
      Ok(Inc(a, k))
  }

  datatype ElemError = DocNotDocument | SubspaceZero | OrdinalZero

  /** Mints `doc·0·subspace·ordinal` behind its three guards. */
  function ElemAddr(doc: Address, subspace: nat, ordinal: nat): (r: Result<Address, ElemError>)
    ensures r.Ok? <==> LevelOf(doc) == Document && subspace >= 1 && ordinal >= 1
  {
    if LevelOf(doc) != Document then Err(DocNotDocument)
    else if subspace == 0 then Err(SubspaceZero)
    else if ordinal == 0 then Err(OrdinalZero)
    else
      MintedElementIsValid(doc, subspace, ordinal);
      Ok(doc + [0, subspace, ordinal])
  }

  lemma MintedElementIsValid(doc: Address, subspace: nat, ordinal: nat)
    requires LevelOf(doc) == Document && subspace >= 1 && ordinal >= 1
    ensures T4Valid(doc + [0, subspace, ordinal]) && Zeros(doc + [0, subspace, ordinal]) == 3
  {
    var tail := [0, subspace, ordinal];
    ZerosConcat(doc, tail);
    ZerosOfTail(tail);
    AdjacentConcat(doc, tail);
  }

  /** Under the guards the mint is a full element position that reads back as the three things it was minted from. */
  lemma ElemAddrReadsBack(doc: Address, subspace: nat, ordinal: nat)
    requires ElemAddr(doc, subspace, ordinal).Ok?
    ensures var a := ElemAddr(doc, subspace, ordinal).value;
            && IsElementPosition(a)
            && DocumentOf(a) == Some(doc) && Subspace(a) == Some(subspace) && OrdinalOf(a) == ordinal
  {
    var a := ElemAddr(doc, subspace, ordinal).value;
    MintedElementIsValid(doc, subspace, ordinal);
    ElementPositionShape(a);
    SubspaceOfElementPosition(a);
    DocumentOfElementPosition(a);
    assert a[..|a| - 3] == doc;
  }

  /** And every full element position is minted so: the mint and the three reads are inverse. */
  lemma ElementPositionIsMinted(a: seq<nat>)
    requires IsElementPosition(a)
    ensures DocumentOf(a).Some? && T4Valid(DocumentOf(a).value) && Subspace(a).Some?
    ensures ElemAddr(DocumentOf(a).value, Subspace(a).value, OrdinalOf(a)) == Ok(a)
  {
    ElementPositionComponents(a);
    SubspaceOfElementPosition(a);
    DocumentOfElementPosition(a);
    DocumentOfIsDocument(a);
    assert a == a[..|a| - 3] + [0, a[|a| - 2], a[|a| - 1]];
  }
}

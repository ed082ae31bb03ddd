/** Spans, half-open intervals of the tumbler order, and the pairwise interval algebra over them. */
module Spans {
  import opened Wrappers
  import opened Tumblers
  import opened Arithmetic

  /** The authoritative form: a start and a displacement. */
  datatype StartWidth = StartWidth(start: Tumbler, width: Tumbler)

  /** T12: exactly the pairs the sum accepts, so every span has a reach. */
  type Span = p: StartWidth | InAddDomain(p.start, p.width) witness StartWidth([1], [1])

  datatype WfError = NotIncreasing | LevelMismatched

  datatype LevelMismatch = LevelMismatch

  function Reach(s: Span): (r: Tumbler)
    ensures |r| == |s.width|
  {
    Add(s.start, s.width)
  }

  /** Membership: two comparisons, half-open. */
  predicate Contains(s: Span, t: Tumbler) {
    Le(s.start, t) && Lt(t, Reach(s))
  }

  predicate IsLevelUniform(s: Span) {
    |s.start| == |s.width|
  }

  /** WF: endpoints of one length, strictly increasing; the level clause is judged first. */
  function FromEndpoints(s: Tumbler, r: Tumbler): (res: Result<Span, WfError>)
    ensures res.Ok? <==> |s| == |r| && Lt(s, r)
    ensures res == Err(LevelMismatched) <==> |s| != |r|
    ensures res.Ok? ==> res.value.start == s && Reach(res.value) == r && IsLevelUniform(res.value)
  {
    if |s| != |r| then Err(LevelMismatched)
    else if !Lt(s, r) then Err(NotIncreasing)
    else
      WidthFromReach(s, r);
      Ok(StartWidth(s, Sub(r, s).value))
  }

  /** The derived working form of a sweep. */
  datatype Ends = Ends(start: Tumbler, reach: Tumbler)

  function EndsOf(s: Span): Ends {
    Ends(s.start, Reach(s))
  }

  predicate InEnds(e: Ends, t: Tumbler) {
    Le(e.start, t) && Lt(t, e.reach)
  }

  /** One length, strictly increasing: the pairs `FromEndpoints` turns back into a span. */
  predicate WfEnds(e: Ends) {
    |e.start| == |e.reach| && Lt(e.start, e.reach)
  }

  function SpanOf(e: Ends): (s: Span)
    requires WfEnds(e)
    ensures s.start == e.start && EndsOf(s) == e && IsLevelUniform(s)
  {
    FromEndpoints(e.start, e.reach).value
  }

  /** A level-uniform span and its endpoints determine each other. */
  lemma EndsDetermineSpan(s: Span)
    requires IsLevelUniform(s)
    ensures WfEnds(EndsOf(s)) && SpanOf(EndsOf(s)) == s
  {
    AddAdvances(s.start, s.width);
    ReachDeterminesWidth(s.start, s.width);
  }

  function MaxOf(a: Tumbler, b: Tumbler): (r: Tumbler)
    ensures r == a || r == b
  {
    if Lt(a, b) then b else a
  }

  function MinOf(a: Tumbler, b: Tumbler): (r: Tumbler)
    ensures r == a || r == b
  {
    if Lt(a, b) then a else b
  }

  predicate Separated(a: Ends, b: Ends) {
    Lt(MinOf(a.reach, b.reach), MaxOf(a.start, b.start))
  }

  datatype OrientedRel =
    | RelSeparated | RelAdjacent | RelEqual
    | AContainsB | BContainsA | OverlapAFirst | OverlapBFirst

  /** The five-case classification with its orientation, by endpoint comparison alone. */
  function Relate(a: Ends, b: Ends): OrientedRel {
    var maxStart := MaxOf(a.start, b.start);
    var minReach := MinOf(a.reach, b.reach);
    if Lt(minReach, maxStart) then RelSeparated
    else if maxStart == minReach then RelAdjacent
    else if a.start == b.start && a.reach == b.reach then RelEqual
    else if Le(a.start, b.start) && Le(b.reach, a.reach) then AContainsB
    else if Le(b.start, a.start) && Le(a.reach, b.reach) then BContainsA
    else if Lt(a.start, b.start) then OverlapAFirst
    else OverlapBFirst
  }

  datatype SpanRel = Apart | Touching | ProperOverlap | Containment | Same

  function ClassifySpans(a: Span, b: Span): SpanRel {
    match Relate(EndsOf(a), EndsOf(b))
    case RelSeparated => Apart
    case RelAdjacent => Touching
    case RelEqual => Same
    case AContainsB => Containment
    case BContainsA => Containment
    case OverlapAFirst => ProperOverlap
    case OverlapBFirst => ProperOverlap
  }

  ghost predicate Within(a: Ends, b: Ends) {
    forall t: Tumbler :: InEnds(a, t) ==> InEnds(b, t)
  }

  ghost predicate Meet(a: Ends, b: Ends) {
    exists t: Tumbler :: InEnds(a, t) && InEnds(b, t)
  }

  /** Inclusion of nonempty intervals is inclusion of endpoints, at every mix of lengths. */
  lemma WithinIsByEndpoints(a: Ends, b: Ends)
    requires Lt(a.start, a.reach) && Lt(b.start, b.reach)
    ensures Within(a, b) <==> Le(b.start, a.start) && Le(a.reach, b.reach)
  {
    OrderLaws();
    if Within(a, b) {
      assert InEnds(a, a.start);
      if Lt(b.reach, a.reach) {
        assert Le(a.start, b.reach);
        assert InEnds(a, b.reach);
      }
    }
  }

  lemma MeetIsByEndpoints(a: Ends, b: Ends)
    requires Lt(a.start, a.reach) && Lt(b.start, b.reach)
    ensures Meet(a, b) <==> Lt(MaxOf(a.start, b.start), MinOf(a.reach, b.reach))
  {
    OrderLaws();
    var m := MaxOf(a.start, b.start);
    if Lt(m, MinOf(a.reach, b.reach)) {
      assert InEnds(a, m) && InEnds(b, m);
    }
  }

  lemma RelateMeaning(x: Ends, y: Ends)
    requires Lt(x.start, x.reach) && Lt(y.start, y.reach)
    ensures Relate(x, y) in {RelSeparated, RelAdjacent} <==> !Lt(MaxOf(x.start, y.start), MinOf(x.reach, y.reach))
    ensures Relate(x, y) == RelAdjacent <==> x.reach == y.start || y.reach == x.start
    ensures Relate(x, y) == RelEqual <==> x == y
    ensures Relate(x, y) == AContainsB <==> x != y && Le(x.start, y.start) && Le(y.reach, x.reach)
    ensures Relate(x, y) == BContainsA <==> x != y && Le(y.start, x.start) && Le(x.reach, y.reach)
    ensures Relate(x, y) == OverlapAFirst <==> Lt(x.start, y.start) && Lt(y.start, x.reach) && Lt(x.reach, y.reach)
    ensures Relate(x, y) == OverlapBFirst <==> Lt(y.start, x.start) && Lt(x.start, y.reach) && Lt(y.reach, x.reach)
  {
    var _, _, _, _, _ := Ranks(x.start, x.reach, y.start, y.reach, x.start);
  }

  /** What each case of the classification says of the two denotations, for spans of any lengths. */
  lemma ClassificationMeaning(a: Span, b: Span)
    ensures var x, y := EndsOf(a), EndsOf(b);
            && (ClassifySpans(a, b) in {Apart, Touching} <==> !Meet(x, y))
            && (ClassifySpans(a, b) == Same <==> Within(x, y) && Within(y, x))
            && (ClassifySpans(a, b) == Containment <==> (Within(x, y) != Within(y, x)))
            && (ClassifySpans(a, b) == ProperOverlap <==> Meet(x, y) && !Within(x, y) && !Within(y, x))
            && (ClassifySpans(a, b) == Touching <==> Reach(a) == b.start || Reach(b) == a.start)
  {
    AddAdvances(a.start, a.width);
    AddAdvances(b.start, b.width);
    var x, y := EndsOf(a), EndsOf(b);
    EndsRelationMeaning(x, y);
  }

  lemma EndsRelationMeaning(x: Ends, y: Ends)
    requires Lt(x.start, x.reach) && Lt(y.start, y.reach)
    ensures Relate(x, y) in {RelSeparated, RelAdjacent} <==> !Meet(x, y)
    ensures Relate(x, y) == RelEqual <==> Within(x, y) && Within(y, x)
    ensures Relate(x, y) in {AContainsB, BContainsA} <==> (Within(x, y) != Within(y, x))
    ensures Relate(x, y) in {OverlapAFirst, OverlapBFirst} <==> Meet(x, y) && !Within(x, y) && !Within(y, x)
    ensures Relate(x, y) == RelAdjacent <==> x.reach == y.start || y.reach == x.start
  {
    WithinIsByEndpoints(x, y);
    WithinIsByEndpoints(y, x);
    MeetIsByEndpoints(x, y);
    RelateMeaning(x, y);
    var _, _, _, _, _ := Ranks(x.start, x.reach, y.start, y.reach, x.start);
  }

  /** The pairwise level gate: each operand level-uniform, and both of one length. */
  predicate Gated(a: Span, b: Span) {
    IsLevelUniform(a) && IsLevelUniform(b) && |a.start| == |b.start|
  }

  /** The meet of two endpoint pairs, at most one span. */
  function Intersection(a: Ends, b: Ends): (r: Option<Span>)
    requires |a.start| == |a.reach| == |b.start| == |b.reach|
  {
    var start := MaxOf(a.start, b.start);
    var reach := MinOf(a.reach, b.reach);
    if Lt(start, reach) then Some(SpanOf(Ends(start, reach))) else None
  }

  function Intersect(a: Span, b: Span): Result<Option<Span>, LevelMismatch> {
    if Gated(a, b) then Ok(Intersection(EndsOf(a), EndsOf(b))) else Err(LevelMismatch)
  }

  lemma IntersectionDenotes(a: Ends, b: Ends, t: Tumbler)
    requires |a.start| == |a.reach| == |b.start| == |b.reach|
    ensures var r := Intersection(a, b);
            (InEnds(a, t) && InEnds(b, t)) <==> (r.Some? && Contains(r.value, t))
  {
    OrderLaws();
  }

  /** S11a: the intersection is one span exactly where the operands meet, and it denotes their meet. */
  lemma IntersectIsMeet(a: Span, b: Span, t: Tumbler)
    ensures Intersect(a, b).Ok? <==> Gated(a, b)
    ensures Intersect(a, b).Ok? ==>
              var r := Intersect(a, b).value;
              && (r.None? ==> !(Contains(a, t) && Contains(b, t)))
              && (r.Some? ==> IsLevelUniform(r.value) && (Contains(r.value, t) <==> Contains(a, t) && Contains(b, t)))
  {
    if Gated(a, b) {
      IntersectionDenotes(EndsOf(a), EndsOf(b), t);
    }
  }

  /** The smallest pair of endpoints around two. */
  function JoinEnds(x: Ends, y: Ends): Ends {
    Ends(MinOf(x.start, y.start), MaxOf(x.reach, y.reach))
  }

  /** S3a: contiguous intervals join into exactly their union. */
  lemma JoinDenotes(x: Ends, y: Ends, t: Tumbler)
    requires Lt(x.start, x.reach) && Lt(y.start, y.reach)
    ensures Lt(JoinEnds(x, y).start, JoinEnds(x, y).reach)
    ensures !Separated(x, y) ==> (InEnds(JoinEnds(x, y), t) <==> InEnds(x, t) || InEnds(y, t))
  {
    var _, _, _, _, _ := Ranks(x.start, x.reach, y.start, y.reach, t);
  }

  /** The join of two spans: one span where they are contiguous, nothing where they are separated. */
  function Merge(a: Span, b: Span): Result<Option<Span>, LevelMismatch>
  {
    if !Gated(a, b) then Err(LevelMismatch)
    else
      var x, y := EndsOf(a), EndsOf(b);
      if Separated(x, y) then Ok(None)
      else
        AddAdvances(a.start, a.width);
        AddAdvances(b.start, b.width);
        JoinDenotes(x, y, x.start);
        Ok(Some(SpanOf(JoinEnds(x, y))))
  }

  /** S3: where a merge is made it denotes the union. */
  lemma MergeIsUnion(a: Span, b: Span, t: Tumbler)
    requires Merge(a, b).Ok? && Merge(a, b).value.Some?
    ensures Gated(a, b) && IsLevelUniform(Merge(a, b).value.value)
    ensures Contains(Merge(a, b).value.value, t) <==> Contains(a, t) || Contains(b, t)
  {
    AddAdvances(a.start, a.width);
    AddAdvances(b.start, b.width);
    var x, y := EndsOf(a), EndsOf(b);
    JoinDenotes(x, y, t);
    assert EndsOf(Merge(a, b).value.value) == JoinEnds(x, y);
  }

  /** And past the gate it is refused exactly where the two neither meet nor touch. */
  lemma MergeRefusedApart(a: Span, b: Span)
    ensures Merge(a, b).Ok? <==> Gated(a, b)
    ensures Gated(a, b) ==> (Merge(a, b) == Ok(None) <==>
              !Meet(EndsOf(a), EndsOf(b)) && Reach(a) != b.start && Reach(b) != a.start)
  {
    AddAdvances(a.start, a.width);
    AddAdvances(b.start, b.width);
    EndsRelationMeaning(EndsOf(a), EndsOf(b));
    assert Relate(EndsOf(a), EndsOf(b)) == RelSeparated <==> Separated(EndsOf(a), EndsOf(b));
  }

  datatype SplitError = NotInterior | SplitLevelMismatch

  function Split(s: Span, p: Tumbler): (r: Result<(Span, Span), SplitError>)
    ensures r.Err? && r.error == SplitLevelMismatch <==> !IsLevelUniform(s) || |s.start| != |p|
    ensures r.Ok? <==> IsLevelUniform(s) && |s.start| == |p| && Lt(s.start, p) && Lt(p, Reach(s))
  {
    if !IsLevelUniform(s) || |s.start| != |p| then Err(SplitLevelMismatch)
    else if !(Lt(s.start, p) && Lt(p, Reach(s))) then Err(NotInterior)
    else Ok((SpanOf(Ends(s.start, p)), SpanOf(Ends(p, Reach(s)))))
  }

  /** S4/S5: the halves partition the span at `p`, and their widths compose to its width. */
  lemma SplitPartitions(s: Span, p: Tumbler, t: Tumbler)
    requires Split(s, p).Ok?
    ensures var (l, r) := Split(s, p).value;
            && (Contains(s, t) <==> Contains(l, t) || Contains(r, t))
            && !(Contains(l, t) && Contains(r, t))
            && Reach(l) == r.start == p && l.start == s.start && Reach(r) == Reach(s)
            && InAddDomain(l.width, r.width) && Add(l.width, r.width) == s.width
  {
    var (l, r) := Split(s, p).value;
    OrderLaws();
    SplitWidthsCompose(s.start, p, Reach(s));
    ReachDeterminesWidth(s.start, s.width);
    ReachDeterminesWidth(l.start, l.width);
    ReachDeterminesWidth(r.start, r.width);
  }

  /** The span denoting exactly the subtree of `p`. */
  function SubtreeOf(p: Tumbler): (s: Span)
    ensures s.start == p && Reach(s) == NextAtLength(p) && IsLevelUniform(s)
  {
    ShiftOrders(p, 0, 1);
    ShiftZero(p);
    SpanOf(Ends(p, NextAtLength(p)))
  }

  /** T5: a subtree span captures the extensions of its prefix and nothing else, at every length. */
  lemma SubtreeCapturesExtensions(p: Tumbler, t: Tumbler)
    ensures Contains(SubtreeOf(p), t) <==> IsPrefix(p, t)
  {
    SubtreeInterval(p, t);
  }

  /** What `x` holds and `y` does not, as at most two endpoint pairs, left before right. */
  function EndsDifference(x: Ends, y: Ends): (r: seq<Ends>)
    ensures |r| <= 2
  {
    match Relate(x, y)
    case RelSeparated => [x]
    case RelAdjacent => [x]
    case RelEqual => []
    case BContainsA => []
    case AContainsB =>
      (if Lt(x.start, y.start) then [Ends(x.start, y.start)] else [])
      + (if Lt(y.reach, x.reach) then [Ends(y.reach, x.reach)] else [])
    case OverlapAFirst => [Ends(x.start, y.start)]
    case OverlapBFirst => [Ends(y.reach, x.reach)]
  }

  ghost predicate InAny(es: seq<Ends>, t: Tumbler) {
    exists i :: 0 <= i < |es| && InEnds(es[i], t)
  }

  lemma EndsDifferenceDenotes(x: Ends, y: Ends, t: Tumbler)
    requires Lt(x.start, x.reach) && Lt(y.start, y.reach)
    ensures InAny(EndsDifference(x, y), t) <==> InEnds(x, t) && !InEnds(y, t)
  {
    RelateMeaning(x, y);
    var _, _, _, _, _ := Ranks(x.start, x.reach, y.start, y.reach, t);
    var r := EndsDifference(x, y);
    if |r| == 1 {
      assert InAny(r, t) <==> InEnds(r[0], t);
    } else if |r| == 2 {
      assert InAny(r, t) <==> InEnds(r[0], t) || InEnds(r[1], t);
    }
  }

  lemma EndsDifferenceWellFormed(x: Ends, y: Ends)
    requires WfEnds(x) && WfEnds(y) && |x.start| == |y.start|
    ensures forall i :: 0 <= i < |EndsDifference(x, y)| ==>
              WfEnds(EndsDifference(x, y)[i]) && |EndsDifference(x, y)[i].start| == |x.start|
    ensures |EndsDifference(x, y)| == 2 ==>
              EndsDifference(x, y)[0].reach == y.start && EndsDifference(x, y)[1].start == y.reach
  {
    RelateMeaning(x, y);
  }

  function SpansOf(es: seq<Ends>): (r: seq<Span>)
    requires forall i :: 0 <= i < |es| ==> WfEnds(es[i])
    ensures |r| == |es|
    ensures forall i :: 0 <= i < |es| ==> r[i] == SpanOf(es[i])
    ensures forall i :: 0 <= i < |es| ==> EndsOf(r[i]) == es[i] && IsLevelUniform(r[i])
  {
    seq(|es|, i requires 0 <= i < |es| => SpanOf(es[i]))
  }

  /** S11d: the difference of two spans. */
  function SpanDifference(a: Span, b: Span): Result<seq<Span>, LevelMismatch> {
    if !Gated(a, b) then Err(LevelMismatch)
    else
      EndsDetermineSpan(a);
      EndsDetermineSpan(b);
      EndsDifferenceWellFormed(EndsOf(a), EndsOf(b));
      Ok(SpansOf(EndsDifference(EndsOf(a), EndsOf(b))))
  }

  /** The parts denote exactly what `a` holds and `b` does not, and two parts leave `b` whole between them. */
  lemma SpanDifferenceDenotes(a: Span, b: Span, t: Tumbler)
    ensures SpanDifference(a, b).Ok? <==> Gated(a, b)
    ensures SpanDifference(a, b).Ok? ==>
              var r := SpanDifference(a, b).value;
              && ((exists i :: 0 <= i < |r| && Contains(r[i], t)) <==> Contains(a, t) && !Contains(b, t))
              && (forall i :: 0 <= i < |r| ==> IsLevelUniform(r[i]) && |r[i].start| == |a.start|)
              && (|r| == 2 ==> Reach(r[0]) == b.start && r[1].start == Reach(b))
  {
    if Gated(a, b) {
      EndsDetermineSpan(a);
      EndsDetermineSpan(b);
      var es := EndsDifference(EndsOf(a), EndsOf(b));
      EndsDifferenceWellFormed(EndsOf(a), EndsOf(b));
      EndsDifferenceDenotes(EndsOf(a), EndsOf(b), t);
      assert forall i :: 0 <= i < |es| ==> (InEnds(es[i], t) <==> Contains(SpanOf(es[i]), t));
    }
  }
}

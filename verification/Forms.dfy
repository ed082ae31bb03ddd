/** A signed body's two spellings: windows by address, stretches by value; and when two forms spell one body. */
module Forms {
  import opened Wrappers
  import opened Tumblers
  import opened Arithmetic
  import opened Runs
  import opened RunLists

  /** One run of an address form, classed by the family the commit gives it. */
  datatype SegmentRun = Value(run: Run) | Window(run: Run)

  /** One segment of the body: a window is a segment of its own, a stretch of value runs is spelled by its count. */
  datatype Segment = Stretch(width: Positive) | Win(run: Run)

  /** What a position is signed by: nothing of its address inside a stretch, its address in a window. */
  type Label = Option<Tumbler>

  function Nones(n: nat): (r: seq<Label>)
    ensures |r| == n && forall i :: 0 <= i < n ==> r[i] == None
  {
    seq(n, i => None)
  }

  function Somes(s: seq<Tumbler>): (r: seq<Label>)
    ensures |r| == |s| && forall i :: 0 <= i < |s| ==> r[i] == Some(s[i])
  {
    seq(|s|, i requires 0 <= i < |s| => Some(s[i]))
  }

  function ItemLabels(item: SegmentRun): (r: seq<Label>)
    ensures |r| == item.run.width
  {
    match item
    case Value(run) => Nones(run.width)
    case Window(run) => Somes(Addrs(run))
  }

  function FormLabels(form: seq<SegmentRun>): seq<Label> {
    if form == [] then [] else ItemLabels(form[0]) + FormLabels(form[1..])
  }

  /** The body a form spells: consecutive value runs in one stretch. */
  function Body(form: seq<SegmentRun>): seq<Segment> {
    if form == [] then []
    else
      var rest := Body(form[1..]);
      match form[0]
      case Window(run) => [Win(run)] + rest
      case Value(run) =>
        if rest != [] && rest[0].Stretch? then [Stretch(run.width + rest[0].width)] + rest[1..]
        else [Stretch(run.width)] + rest
  }

  function SegmentLabels(segment: Segment): (r: seq<Label>)
    ensures |r| == if segment.Stretch? then segment.width else segment.run.width
  {
    match segment
    case Stretch(width) => Nones(width)
    case Win(run) => Somes(Addrs(run))
  }

  function BodyLabels(body: seq<Segment>): seq<Label> {
    if body == [] then [] else SegmentLabels(body[0]) + BodyLabels(body[1..])
  }

  lemma NonesConcat(a: nat, b: nat)
    ensures Nones(a) + Nones(b) == Nones(a + b)
  {
  }

  lemma {:induction false} BodyKeepsLabels(form: seq<SegmentRun>)
    ensures BodyLabels(Body(form)) == FormLabels(form)
  {
    if form != [] {
      BodyKeepsLabels(form[1..]);
      var rest := Body(form[1..]);
      if form[0].Value? && rest != [] && rest[0].Stretch? {
        NonesConcat(form[0].run.width, rest[0].width);
        Associates(Nones(form[0].run.width), Nones(rest[0].width), BodyLabels(rest[1..]));
        assert Body(form)[1..] == rest[1..];
      } else {
        assert Body(form)[1..] == rest;
      }
    }
  }

  /** Two neighbours that could be one segment. */
  predicate Mergeable(a: Segment, b: Segment) {
    (a.Stretch? && b.Stretch?) || (a.Win? && b.Win? && IAdjacent(a.run, b.run.iStart))
  }

  predicate Canonical(body: seq<Segment>) {
    forall i :: 0 < i < |body| ==> !Mergeable(body[i - 1], body[i])
  }

  /** Consecutive windows of the form are maximally merged. */
  predicate WindowsMerged(form: seq<SegmentRun>) {
    forall i :: 0 < i < |form| && form[i - 1].Window? && form[i].Window? ==>
      !IAdjacent(form[i - 1].run, form[i].run.iStart)
  }

  lemma CanonicalCons(head: Segment, tail: seq<Segment>)
    requires Canonical(tail) && (tail != [] ==> !Mergeable(head, tail[0]))
    ensures Canonical([head] + tail)
  {
    var r := [head] + tail;
    forall i | 0 < i < |r| ensures !Mergeable(r[i - 1], r[i]) {
      if i > 1 { assert r[i - 1] == tail[i - 2] && r[i] == tail[i - 1]; }
    }
  }

  lemma {:induction false} BodyIsCanonical(form: seq<SegmentRun>)
    requires WindowsMerged(form)
    ensures Canonical(Body(form))
    ensures form != [] ==> Body(form) != [] && Body(form)[0].Win? == form[0].Window?
    ensures form != [] && form[0].Window? ==> Body(form)[0] == Win(form[0].run)
  {
    if form != [] {
      BodyIsCanonical(form[1..]);
      var rest := Body(form[1..]);
      match form[0]
      case Window(run) => CanonicalCons(Win(run), rest);
      case Value(run) =>
        if rest != [] && rest[0].Stretch? {
          CanonicalCons(Stretch(run.width + rest[0].width), rest[1..]);
        } else {
          CanonicalCons(Stretch(run.width), rest);
        }
    }
  }

  lemma SegmentSize(segment: Segment)
    ensures |SegmentLabels(segment)| > 0
  {
  }

  lemma BodyParts(body: seq<Segment>)
    requires body != []
    ensures BodyLabels(body) == SegmentLabels(body[0]) + BodyLabels(body[1..])
    ensures |body| == 1 ==> BodyLabels(body[1..]) == []
  {
  }

  lemma SegmentHead(body: seq<Segment>)
    requires body != []
    ensures var f, n := BodyLabels(body), |SegmentLabels(body[0])|;
            && |f| >= n > 0
            && (forall k :: 0 <= k < n ==> f[k] == SegmentLabels(body[0])[k])
            && f[n..] == BodyLabels(body[1..])
            && (|body| == 1 ==> |f| == n)
  {
    BodyParts(body);
    SegmentSize(body[0]);
    HeadOfConcat(SegmentLabels(body[0]), BodyLabels(body[1..]));
  }

  /** And what a body signs where its first segment ends is its second's first position. */
  lemma SegmentNext(body: seq<Segment>)
    requires |body| > 1
    ensures var f, n := BodyLabels(body), |SegmentLabels(body[0])|;
            |f| > n && f[n] == SegmentLabels(body[1])[0]
  {
    BodyParts(body);
    BodyParts(body[1..]);
    SegmentSize(body[1]);
    HeadOfConcat(SegmentLabels(body[0]), BodyLabels(body[1..]));
  }

  lemma HeadOfConcat<T>(a: seq<T>, b: seq<T>)
    ensures forall k :: 0 <= k < |a| ==> (a + b)[k] == a[k]
    ensures (a + b)[|a|..] == b
    ensures b != [] ==> (a + b)[|a|] == b[0]
  {
  }

  lemma SegmentOpens(segment: Segment)
    ensures segment.Stretch? ==> SegmentLabels(segment)[0] == None
    ensures segment.Win? ==> SegmentLabels(segment)[0] == Some(segment.run.iStart)
  {
    if segment.Win? { ShiftZero(segment.run.iStart); }
  }

  lemma CanonicalHeadsAgree(x: seq<Segment>, y: seq<Segment>)
    requires Canonical(x) && x != [] && y != [] && BodyLabels(x) == BodyLabels(y)
    ensures x[0].Stretch? == y[0].Stretch?
    ensures x[0].Win? ==> x[0].run.iStart == y[0].run.iStart
    ensures |SegmentLabels(x[0])| >= |SegmentLabels(y[0])|
  {
    SegmentHead(x);
    SegmentHead(y);
    SegmentOpens(x[0]);
    SegmentOpens(y[0]);
    if |x| > 1 {
      SegmentNext(x);
      SegmentOpens(x[1]);
      assert !Mergeable(x[0], x[1]);
    }
  }

  /** A body with nothing left to merge is determined by what it signs at each position. */
  lemma {:induction false} CanonicalIsUnique(x: seq<Segment>, y: seq<Segment>)
    requires Canonical(x) && Canonical(y) && BodyLabels(x) == BodyLabels(y)
    ensures x == y
  {
    if x != [] { SegmentHead(x); }
    if y != [] { SegmentHead(y); }
    if x != [] && y != [] {
      CanonicalHeadsAgree(x, y);
      CanonicalHeadsAgree(y, x);
      CanonicalIsUnique(x[1..], y[1..]);
    }
  }

  /** Two forms with merged windows spell one body exactly when they sign the same thing at every position. */
  lemma FormsAgree(x: seq<SegmentRun>, y: seq<SegmentRun>)
    requires WindowsMerged(x) && WindowsMerged(y)
    ensures Body(x) == Body(y) <==> FormLabels(x) == FormLabels(y)
  {
    BodyIsCanonical(x);
    BodyIsCanonical(y);
    BodyKeepsLabels(x);
    BodyKeepsLabels(y);
    if FormLabels(x) == FormLabels(y) { CanonicalIsUnique(Body(x), Body(y)); }
  }

  lemma TailOfConcat<T>(x: seq<T>, y: seq<T>)
    requires x != []
    ensures (x + y)[1..] == x[1..] + y && (x + y)[0] == x[0] && x + y != []
  {
  }

  lemma {:induction false} FormLabelsConcat(x: seq<SegmentRun>, y: seq<SegmentRun>)
    ensures FormLabels(x + y) == FormLabels(x) + FormLabels(y)
  {
    if x == [] {
      assert x + y == y;
    } else {
      FormLabelsConcat(x[1..], y);
      TailOfConcat(x, y);
      Associates(ItemLabels(x[0]), FormLabels(x[1..]), FormLabels(y));
    }
  }
}

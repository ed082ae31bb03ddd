/** The ordinal-level depth-two V-range, stated once from both sides. */
module VSpaces {
  import opened Wrappers
  import opened Tumblers
  import opened Arithmetic
  import opened Addresses
  import opened Spans
  import opened Runs

  datatype OrdinalVSpan = OrdinalVSpan(subspace: nat, ordinal: nat, count: nat)

  function AsOrdinalVSpan(span: Span): Option<OrdinalVSpan> {
    if |span.start| != 2 || |span.width| != 2 || span.width[0] != 0 then None
    else Some(OrdinalVSpan(span.start[0], span.start[1], span.width[1]))
  }

  function MakeVSpan(subspace: nat, ordinal: nat, count: nat): (r: Option<Span>)
    ensures r.Some? <==> count > 0
  {
    if count == 0 then None
    else
      assert WidthAt([subspace, ordinal], [subspace, ordinal + count], [0, count], 1);
      AddOfWidth([subspace, ordinal], [subspace, ordinal + count], [0, count], 1);
      Some(StartWidth([subspace, ordinal], [0, count]))
  }

  /** The two halves are inverse: what one builds the other reads, and what one reads the other rebuilds. */
  lemma VSpanRoundTrips(subspace: nat, ordinal: nat, count: nat, span: Span)
    ensures count > 0 ==>
              AsOrdinalVSpan(MakeVSpan(subspace, ordinal, count).value) == Some(OrdinalVSpan(subspace, ordinal, count))
    ensures AsOrdinalVSpan(span).Some? ==>
              var v := AsOrdinalVSpan(span).value;
              v.count > 0 && MakeVSpan(v.subspace, v.ordinal, v.count) == Some(span)
  {
    if AsOrdinalVSpan(span).Some? {
      assert span.start == [span.start[0], span.start[1]];
      assert span.width == [0, span.width[1]];
      assert InAddDomain(span.start, span.width);
    }
  }

  /** The V-span is level-uniform at depth two and holds every tumbler under its positions, deeper ones included. */
  lemma VSpanDenotes(subspace: nat, ordinal: nat, count: nat, t: Tumbler)
    requires count > 0
    ensures var s := MakeVSpan(subspace, ordinal, count).value;
            && IsLevelUniform(s) && |s.start| == 2
            && (Contains(s, t) <==> |t| >= 2 && t[0] == subspace && ordinal <= t[1] < ordinal + count)
  {
    var lo, hi := [subspace, ordinal], [subspace, ordinal + count];
    assert WidthAt(lo, hi, [0, count], 1);
    AddOfWidth(lo, hi, [0, count], 1);
    var k, l := FirstDifference(lo, t), FirstDifference(t, hi);
    FirstDifferenceDecides(lo, t);
    FirstDifferenceDecides(t, hi);
  }
}

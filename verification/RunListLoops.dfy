/** The run-list's loops as they run, each proved to compute its specification. */
module RunListLoops {
  import opened Wrappers
  import opened Tumblers
  import opened Addresses
  import opened Runs
  import opened RunLists

  lemma WidenIsExtend(out: seq<Run>, run: Run)
    requires out != [] && IAdjacent(out[|out| - 1], run.iStart)
    ensures var last := out[|out| - 1];
            out[|out| - 1 := last.(width := last.width + run.width)] == ExtendOrPush(out, run)
  {
  }

  /** The eager coalesce: the last run widened in place where the next one continues it. */
  method CoalesceRuns(runs: seq<Run>) returns (out: seq<Run>)
    ensures out == Coalesced(runs)
    ensures Flat(out) == Flat(runs) && Merged(out)
  {
    out := [];
    var rest := runs;
    while rest != []
      invariant CoalesceOnto(out, rest) == Coalesced(runs)
      decreases |rest|
    {
      var run := rest[0];
      if out != [] && IAdjacent(out[|out| - 1], run.iStart) {
        WidenIsExtend(out, run);
        var last := out[|out| - 1];
        out := out[|out| - 1 := last.(width := last.width + run.width)];
      } else {
        out := out + [run];
      }
      rest := rest[1..];
    }
    CoalescedKeeps(runs);
  }

  /** One step of the walk: what the blocks from here split into, past the ones already left behind. */
  lemma SplitStep(left: seq<Run>, blocks: seq<Run>, ord: nat)
    requires blocks != [] && ord > 1 && ord - 1 >= blocks[0].width
    ensures var rest := SplitRuns(blocks[1..], ord - blocks[0].width);
            && left + SplitRuns(blocks, ord).0 == (left + [blocks[0]]) + rest.0
            && SplitRuns(blocks, ord).1 == rest.1
  {
    Associates(left, [blocks[0]], SplitRuns(blocks[1..], ord - blocks[0].width).0);
  }

  /** The one prefix-sum walk that splits at a boundary: before a block, inside one, or past the last. */
  method SplitByBlocks(runs: seq<Run>, ord: nat) returns (left: seq<Run>, right: seq<Run>)
    ensures left == SplitRuns(runs, ord).0 && right == SplitRuns(runs, ord).1
  {
    left := [];
    if ord <= 1 {
      right := runs;
      return;
    }
    var blocks := runs;
    var vStart := 1;
    while blocks != []
      invariant 1 <= vStart <= ord
      invariant SplitRuns(runs, ord).0 == left + SplitRuns(blocks, ord - vStart + 1).0
      invariant SplitRuns(runs, ord).1 == SplitRuns(blocks, ord - vStart + 1).1
      decreases |blocks|
    {
      var run := blocks[0];
      if ord == vStart {
        right := [run] + blocks[1..];
        return;
      }
      if ord < vStart + run.width {
        var kept: Positive := ord - vStart;
        left := left + [Run(run.iStart, kept)];
        right := [Run(TumblerAt(run, kept), run.width - kept)] + blocks[1..];
        return;
      }
      SplitStep(left, blocks, ord - vStart + 1);
      left := left + [run];
      blocks := blocks[1..];
      vStart := vStart + run.width;
    }
    right := [];
  }

  /** The transpose: regions peeled off the right of the prefix, then laid down in the order they were peeled. */
  method ReorderByPeeling(runs: seq<Run>, cuts: seq<nat>) returns (out: seq<Run>)
    ensures out == Reorder(runs, cuts)
  {
    if cuts == [] {
      return runs;
    }
    var remaining := cuts[..|cuts| - 1];
    var prefix, exteriorRight := SplitByBlocks(runs, cuts[|cuts| - 1]);
    var whole := prefix;
    var regions: seq<Run> := [];
    var k: nat := |remaining|;
    assert remaining[..k] == remaining;
    while k > 0
      invariant k <= |remaining|
      invariant var (first, more) := Peel(prefix, remaining[..k]);
                Peel(whole, remaining).0 == first && Peel(whole, remaining).1 == regions + more
    {
      assert remaining[..k][..k - 1] == remaining[..k - 1];
      var left, region := SplitByBlocks(prefix, remaining[k - 1]);
      Associates(regions, region, Peel(left, remaining[..k - 1]).1);
      regions := regions + region;
      prefix := left;
      k := k - 1;
    }
    assert remaining[..0] == [];
    assert regions + [] == regions;
    out := CoalesceRuns(prefix + regions + exteriorRight);
  }
}

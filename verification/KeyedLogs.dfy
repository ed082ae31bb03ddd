/**
 * A keyed store over one log: each key's current value is its latest line. What the upload records and the
 * leases share: the fold, the count that decides a compaction, and what a crash leaves of the map.
 */
module KeyedLogs {
  import opened Wrappers
  import opened LogLines
  import opened Logs

  datatype Line<K, V> = Put(key: K, value: V) | Drop(key: K)

  /**
   * How lines are spelled and read; `valid` is what a put must hold to be read at all, `drops` whether a line may
   * drop a key.
   */
  datatype Codec<!K, !V> = Codec(
    parse: Bytes -> Option<Line<K, V>>,
    render: Line<K, V> -> Bytes,
    valid: (K, V) -> bool,
    drops: bool,
    isObject: Bytes -> bool)

  ghost predicate GoodCodec<K(!new), V(!new)>(c: Codec<K, V>) {
    && (forall l: Line<K, V> {:trigger c.render(l)} ::
          (if l.Put? then c.valid(l.key, l.value) else c.drops) ==> c.parse(c.render(l)) == Some(l))
    && (forall l: Line<K, V> {:trigger c.render(l)} :: NoNewline(c.render(l)) && c.isObject(c.render(l)))
    && (forall b: Bytes {:trigger c.parse(b)} ::
          c.parse(b).Some? && c.parse(b).value.Put? ==> c.valid(c.parse(b).value.key, c.parse(b).value.value))
  }

  function FoldLine<K, V>(entries: map<K, V>, line: Option<Line<K, V>>): map<K, V> {
    match line
    case Some(Put(key, value)) => entries[key := value]
    case Some(Drop(key)) => entries - {key}
    case None => entries
  }

  /** The entries a log's lines leave: each key's latest line, until one drops it. */
  function Fold<K, V>(lines: seq<Bytes>, c: Codec<K, V>): map<K, V> {
    if lines == [] then map[] else FoldLine(Fold(lines[..|lines| - 1], c), c.parse(lines[|lines| - 1]))
  }

  lemma FoldPush<K, V>(lines: seq<Bytes>, line: Bytes, c: Codec<K, V>)
    ensures Fold(lines + [line], c) == FoldLine(Fold(lines, c), c.parse(line))
  {
    assert (lines + [line])[..|lines|] == lines;
  }

  /** The fold as an open runs it, the unread lines counted. */
  method FoldLines<K, V>(lines: seq<Bytes>, c: Codec<K, V>) returns (entries: map<K, V>, unread: nat)
    ensures entries == Fold(lines, c)
    ensures unread == |set i | 0 <= i < |lines| && c.parse(lines[i]).None?|
  {
    entries, unread := map[], 0;
    for i := 0 to |lines|
      invariant entries == Fold(lines[..i], c)
      invariant unread == |set k | 0 <= k < i && c.parse(lines[k]).None?|
    {
      assert lines[..i + 1] == lines[..i] + [lines[i]];
      FoldPush(lines[..i], lines[i], c);
      ghost var before := set k | 0 <= k < i && c.parse(lines[k]).None?;
      ghost var after := set k | 0 <= k < i + 1 && c.parse(lines[k]).None?;
      match c.parse(lines[i]) {
        case Some(Put(key, value)) =>
          entries := entries[key := value];
          assert after == before;
        case Some(Drop(key)) =>
          entries := entries - {key};
          assert after == before;
        case None =>
          unread := unread + 1;
          assert after == before + {i};
      }
    }
    assert lines[..|lines|] == lines;
  }

  ghost predicate AllValid<K, V>(entries: map<K, V>, c: Codec<K, V>) {
    forall key {:trigger c.valid(key, entries[key])} :: key in entries ==> c.valid(key, entries[key])
  }

  lemma {:induction false} FoldIsValid<K(!new), V(!new)>(lines: seq<Bytes>, c: Codec<K, V>)
    requires GoodCodec(c)
    ensures AllValid(Fold(lines, c), c)
  {
    if lines != [] { FoldIsValid(lines[..|lines| - 1], c); }
  }

  // ---------------------------------------------------------------- the count is enough

  lemma FoldLineSize<K, V>(entries: map<K, V>, line: Option<Line<K, V>>)
    ensures |FoldLine(entries, line)| <= |entries| + 1
    ensures |FoldLine(entries, line)| == |entries| + 1 ==> line.Some? && line.value.Put? && line.value.key !in entries
  {
    var after := FoldLine(entries, line);
    match line
    case Some(Put(key, _)) =>
      assert after.Keys == entries.Keys + {key};
    case Some(Drop(key)) =>
      assert after.Keys == entries.Keys - {key};
    case None =>
  }

  lemma {:induction false} FoldIsNoLarger<K, V>(lines: seq<Bytes>, c: Codec<K, V>)
    ensures |Fold(lines, c)| <= |lines|
  {
    if lines != [] {
      FoldIsNoLarger(lines[..|lines| - 1], c);
      FoldLineSize(Fold(lines[..|lines| - 1], c), c.parse(lines[|lines| - 1]));
    }
  }

  /** The key a line puts, if it puts one. */
  function KeyOn<K, V>(line: Bytes, c: Codec<K, V>): Option<K> {
    match c.parse(line)
    case Some(Put(key, _)) => Some(key)
    case _ => None
  }

  /** A line is the one its key's current value stands on. */
  ghost predicate Current<K, V>(line: Bytes, entries: map<K, V>, c: Codec<K, V>) {
    match c.parse(line)
    case Some(Put(key, value)) => key in entries && entries[key] == value
    case _ => false
  }

  /** The lines are the current entries, each once, and nothing else. */
  ghost predicate HoldsExactly<K, V>(lines: seq<Bytes>, entries: map<K, V>, c: Codec<K, V>) {
    && entries == Fold(lines, c) && |entries| == |lines|
    && (forall i :: 0 <= i < |lines| ==> Current(lines[i], entries, c))
    && (forall i, j :: 0 <= i < j < |lines| ==> KeyOn(lines[i], c) != KeyOn(lines[j], c))
  }

  /** A log of as many lines as it folds to entries holds nothing but those entries, each once. */
  lemma {:induction false} EqualCountIsExact<K, V>(lines: seq<Bytes>, c: Codec<K, V>)
    requires |Fold(lines, c)| == |lines|
    ensures HoldsExactly(lines, Fold(lines, c), c)
  {
    if lines != [] {
      var n := |lines| - 1;
      var before, line := Fold(lines[..n], c), c.parse(lines[n]);
      FoldIsNoLarger(lines[..n], c);
      FoldLineSize(before, line);
      EqualCountIsExact(lines[..n], c);
      forall i | 0 <= i < n
        ensures Current(lines[i], Fold(lines, c), c) && KeyOn(lines[i], c) != KeyOn(lines[n], c)
      {
        assert lines[..n][i] == lines[i];
        assert Current(lines[i], before, c);
      }
      forall i, j | 0 <= i < j < |lines| ensures KeyOn(lines[i], c) != KeyOn(lines[j], c) {
        if j < n { assert lines[..n][i] == lines[i] && lines[..n][j] == lines[j]; }
      }
    }
  }

  lemma SubsetSize<K>(part: set<K>, whole: set<K>)
    requires part <= whole && part != whole
    ensures |part| < |whole|
  {
    var extra :| extra in whole && extra !in part;
    assert |part + {extra}| == |part| + 1;
    assert whole == (part + {extra}) + (whole - part - {extra});
  }

  /** Equal counts leave nothing else in the log: the shortcut a compaction takes is sound. */
  lemma CountDecides<K, V>(held: seq<Bytes>, entries: map<K, V>, gone: set<K>, c: Codec<K, V>)
    requires entries == Fold(held, c) - gone && |entries| == |held|
    ensures HoldsExactly(held, entries, c)
  {
    var whole := Fold(held, c);
    FoldIsNoLarger(held, c);
    assert entries.Keys <= whole.Keys;
    if entries.Keys != whole.Keys { SubsetSize(entries.Keys, whole.Keys); }
    assert entries == whole;
    EqualCountIsExact(held, c);
  }

  // ---------------------------------------------------------------- the rewrite

  function Rendered<K, V>(keys: seq<K>, entries: map<K, V>, c: Codec<K, V>): (r: seq<Bytes>)
    requires forall i :: 0 <= i < |keys| ==> keys[i] in entries
    ensures |r| == |keys| && forall i :: 0 <= i < |keys| ==> r[i] == c.render(Put(keys[i], entries[keys[i]]))
  {
    seq(|keys|, i requires 0 <= i < |keys| => c.render(Put(keys[i], entries[keys[i]])))
  }

  lemma {:induction false} RenderedFolds<K(!new), V(!new)>(keys: seq<K>, entries: map<K, V>, c: Codec<K, V>)
    requires GoodCodec(c) && AllValid(entries, c)
    requires forall i :: 0 <= i < |keys| ==> keys[i] in entries
    ensures Fold(Rendered(keys, entries, c), c) == map key | key in keys :: entries[key]
  {
    if keys != [] {
      var n := |keys| - 1;
      RenderedFolds(keys[..n], entries, c);
      assert Rendered(keys, entries, c)[..n] == Rendered(keys[..n], entries, c);
      assert keys == keys[..n] + [keys[n]];
    }
  }

  /**
   * Every entry rendered once, in whatever order the store keeps: lines that fold to the entries and hold nothing
   * else.
   */
  lemma RenderedHoldsExactly<K(!new), V(!new)>(keys: seq<K>, entries: map<K, V>, c: Codec<K, V>)
    requires GoodCodec(c) && AllValid(entries, c)
    requires |keys| == |entries| && forall key :: key in keys <==> key in entries
    ensures HoldsExactly(Rendered(keys, entries, c), entries, c)
    ensures Records(Rendered(keys, entries, c), c.isObject)
  {
    RenderedFolds(keys, entries, c);
    assert (map key | key in keys :: entries[key]) == entries;
    EqualCountIsExact(Rendered(keys, entries, c), c);
  }

  // ---------------------------------------------------------------- what a crash leaves of the map

  /**
   * A reading still says of every key held: its value, or one whose line a failed append left whole as the log
   * stopped.
   */
  ghost predicate Covers<K, V>(reading: seq<Bytes>, entries: map<K, V>, offered: set<(K, V)>, c: Codec<K, V>) {
    forall key :: key in entries ==>
      key in Fold(reading, c) && (Fold(reading, c)[key] == entries[key] || (key, Fold(reading, c)[key]) in offered)
  }

  /** Past the last synced line a log holds drops alone: the one line whose loss costs nothing. */
  ghost predicate DropsFrom<K, V>(lines: seq<Bytes>, from: nat, c: Codec<K, V>) {
    forall i :: from <= i < |lines| ==> c.parse(lines[i]).Some? && c.parse(lines[i]).value.Drop?
  }

  /** Losing drops off the end loses no entry. */
  lemma {:induction false} LostDrops<K, V>(lines: seq<Bytes>, k: nat, c: Codec<K, V>)
    requires k <= |lines| && DropsFrom(lines, k, c)
    ensures forall key :: key in Fold(lines, c) ==>
              key in Fold(lines[..k], c) && Fold(lines[..k], c)[key] == Fold(lines, c)[key]
    decreases |lines|
  {
    if k == |lines| {
      assert lines[..k] == lines;
    } else {
      var n := |lines| - 1;
      LostDrops(lines[..n], k, c);
      assert lines[..n][..k] == lines[..k];
    }
  }

  /** The line a failed append left whole as it stopped the log: its entry offered, or its key already let go. */
  ghost predicate PendingIsKnown<K, V>(pending: seq<Bytes>, entries: map<K, V>, offered: set<(K, V)>, c: Codec<K, V>) {
    && |pending| <= 1
    && (pending != [] ==>
          match c.parse(pending[0])
          case Some(Put(key, value)) => (key, value) in offered
          case Some(Drop(key)) => key !in entries
          case None => true)
  }

  /**
   * How a map agrees with what its log promises: it is the fold of the lines held less what was let go since;
   * nothing but drops is unsynced; and whatever else a crash may leave still covers it.
   */
  ghost predicate Agrees<K, V>(p: Promise, entries: map<K, V>, gone: set<K>, offered: set<(K, V)>, c: Codec<K, V>) {
    && AllValid(entries, c) && entries == Fold(p.held, c) - gone
    && p.synced <= |p.held| && DropsFrom(p.held, p.synced, c)
    && PendingIsKnown(p.pending, entries, offered, c)
    && (forall alt :: alt in p.alts ==> Covers(alt, entries, offered, c))
  }

  /** Whatever a crash leaves still holds every entry the map holds. */
  lemma CoveredByKept<K, V>(
    p: Promise, entries: map<K, V>, gone: set<K>, offered: set<(K, V)>, c: Codec<K, V>, reading: seq<Bytes>)
    requires Agrees(p, entries, gone, offered, c) && Keeps(p, reading)
    ensures Covers(reading, entries, offered, c)
  {
    if reading !in p.alts {
      if |reading| <= |p.held| {
        assert reading == p.held[..|reading|];
        LostDrops(p.held, |reading|, c);
      } else {
        assert reading == p.held + [p.pending[0]];
        FoldPush(p.held, p.pending[0], c);
      }
    }
  }

  /** A rewrite agrees with the map it was written from, its directory synced or not. */
  lemma AgreesRewritten<K, V>(
    p: Promise, entries: map<K, V>, gone: set<K>, offered: set<(K, V)>, c: Codec<K, V>, current: seq<Bytes>)
    requires Agrees(p, entries, gone, offered, c) && Fold(current, c) == entries
    ensures Agrees(Promise(current, |current|, [], KeptReadings(p)), entries, {}, offered, c)
    ensures Agrees(Promise(current, |current|, [], {}), entries, {}, offered, c)
    ensures Agrees(Promise(current, |current|, [], {}), entries, {}, {}, c)
  {
    assert entries == entries - {};
    forall alt | alt in KeptReadings(p) ensures Covers(alt, entries, offered, c) {
      KeptReadingsMeaning(p, alt);
      CoveredByKept(p, entries, gone, offered, c, alt);
    }
  }

  /** Whether a rewrite's end leaves nothing but the rewrite to be read. */
  predicate Alone(r: CompactResult, after: Promise) {
    r.Compacted? || (r == StoppedPast && after.alts == {})
  }

  /** A synced put, however its append ends, leaves the map it moves in agreement. */
  lemma AgreesPut<K(!new), V(!new)>(
    p: Promise, q: Promise, entries: map<K, V>, gone: set<K>, offered: set<(K, V)>, c: Codec<K, V>, key: K, value: V,
    r: AppendResult)
    requires Agrees(p, entries, gone, offered, c) && GoodCodec(c) && c.valid(key, value)
    requires FollowsAppend(p, c.render(Put(key, value)), true, r, q)
    ensures r == Appended ==> Agrees(q, entries[key := value], gone - {key}, offered, c)
    ensures r == FailedAndStopped ==>
              Agrees(q, entries, gone, if q.pending == [] then offered else offered + {(key, value)}, c)
    ensures r == Failed || r == Refused ==> Agrees(q, entries, gone, offered, c)
  {
    FoldPush(p.held, c.render(Put(key, value)), c);
    assert c.parse(c.render(Put(key, value))) == Some(Put(key, value));
  }

  /** A put in flight, its line whole in the file or not, leaves the map in agreement with its entry offered. */
  lemma AgreesInFlight<K(!new), V(!new)>(
    p: Promise, entries: map<K, V>, gone: set<K>, offered: set<(K, V)>, c: Codec<K, V>, key: K, value: V,
    pend: seq<Bytes>)
    requires Agrees(p, entries, gone, offered, c) && GoodCodec(c) && c.valid(key, value)
    requires pend == [] || pend == [c.render(Put(key, value))]
    ensures Agrees(p.(pending := pend), entries, gone, offered + {(key, value)}, c)
  {
    assert c.parse(c.render(Put(key, value))) == Some(Put(key, value));
    forall alt | alt in p.alts ensures Covers(alt, entries, offered + {(key, value)}, c) {
      assert Covers(alt, entries, offered, c);
    }
  }

  /** An unsynced drop, the map's entry let go first, however its append ends. */
  lemma AgreesDropped<K(!new), V(!new)>(
    p: Promise, q: Promise, entries: map<K, V>, gone: set<K>, offered: set<(K, V)>, c: Codec<K, V>, key: K,
    r: AppendResult)
    requires Agrees(p, entries, gone, offered, c) && GoodCodec(c) && c.drops
    requires FollowsAppend(p, c.render(Drop(key)), false, r, q)
    ensures r == Appended ==> Agrees(q, entries - {key}, gone, offered, c)
    ensures r != Appended ==> Agrees(q, entries - {key}, gone + {key}, offered, c)
  {
    var line := c.render(Drop(key));
    FoldPush(p.held, line, c);
    assert c.parse(line) == Some(Drop(key));
    if r == Appended {
      assert (Fold(p.held, c) - gone) - {key} == (Fold(p.held, c) - {key}) - gone;
    } else {
      assert (Fold(p.held, c) - gone) - {key} == Fold(p.held, c) - (gone + {key});
    }
  }

  /** Entries let go in memory alone, their lines left for a rewrite. */
  lemma AgreesLetGo<K, V>(
    p: Promise, entries: map<K, V>, gone: set<K>, offered: set<(K, V)>, c: Codec<K, V>, dropped: set<K>)
    requires Agrees(p, entries, gone, offered, c)
    ensures Agrees(p, entries - dropped, gone + dropped, offered, c)
  {
    assert (Fold(p.held, c) - gone) - dropped == Fold(p.held, c) - (gone + dropped);
  }

  /** Whether a log is due its runtime compaction. */
  predicate PastTrigger(stopped: bool, lines: nat, current: nat, trigger: nat, minLines: nat) {
    stopped || (lines >= minLines && lines > trigger * current)
  }
}

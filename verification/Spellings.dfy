/**
 * One spelling of the two logs' lines, so that what the stores ask of a codec is met by something: a line is a list of
 * numbers in decimal, each ended by a comma. It stands in for the records' JSON, which is not part of this model.
 */
module Spellings {
  import opened Wrappers
  import opened Clocks
  import opened LogLines
  import opened KeyedLogs
  import opened UploadLogs
  import opened Leases

  const ZERO: Byte := 48
  const COMMA: Byte := 44

  // ---------------------------------------------------------------- numbers

  function Digits(n: nat): Bytes {
    (if n < 10 then [] else Digits(n / 10)) + [ZERO + n % 10]
  }

  /** The numbers a line spells; `acc` is the one in hand. */
  function ReadNumbers(acc: nat, bytes: Bytes): Option<seq<nat>>
    decreases |bytes|
  {
    if bytes == [] then Some([])
    else if bytes[0] == COMMA then
      match ReadNumbers(0, bytes[1..])
      case Some(rest) => Some([acc] + rest)
      case None => None
    else if ZERO <= bytes[0] < ZERO + 10 then ReadNumbers(acc * 10 + (bytes[0] - ZERO), bytes[1..])
    else None
  }

  lemma {:induction false} DigitsRead(n: nat, rest: Bytes)
    ensures ReadNumbers(0, Digits(n) + rest) == ReadNumbers(n, rest)
  {
    var digit := [ZERO + n % 10];
    if n < 10 {
      assert Digits(n) + rest == digit + rest && (digit + rest)[1..] == rest;
    } else {
      assert Digits(n) + rest == Digits(n / 10) + (digit + rest);
      DigitsRead(n / 10, digit + rest);
      assert (digit + rest)[1..] == rest;
    }
  }

  function SpellNumbers(ns: seq<nat>): Bytes {
    if ns == [] then [] else Digits(ns[0]) + [COMMA] + SpellNumbers(ns[1..])
  }

  lemma {:induction false} NumbersReadBack(ns: seq<nat>)
    ensures ReadNumbers(0, SpellNumbers(ns)) == Some(ns)
  {
    if ns != [] {
      var rest := SpellNumbers(ns[1..]);
      assert SpellNumbers(ns) == Digits(ns[0]) + ([COMMA] + rest);
      DigitsRead(ns[0], [COMMA] + rest);
      assert ([COMMA] + rest)[1..] == rest;
      NumbersReadBack(ns[1..]);
      assert ns == [ns[0]] + ns[1..];
    }
  }

  lemma {:induction false} NoNewlineInDigits(n: nat)
    ensures NoNewline(Digits(n))
  {
    if n >= 10 { NoNewlineInDigits(n / 10); }
  }

  lemma {:induction false} NoNewlineInNumbers(ns: seq<nat>)
    ensures NoNewline(SpellNumbers(ns))
  {
    if ns != [] {
      NoNewlineInDigits(ns[0]);
      NoNewlineInNumbers(ns[1..]);
    }
  }

  // ---------------------------------------------------------------- texts

  predicate IsChar(n: nat) {
    n < 0xD800 || 0xE000 <= n < 0x11_0000
  }

  function Codes(s: string): seq<nat> {
    seq(|s|, i requires 0 <= i < |s| => s[i] as int)
  }

  /** A text among numbers: its length first. */
  function Text(s: string): seq<nat> {
    [|s|] + Codes(s)
  }

  /** The text a list begins with, and the rest of the list. */
  function TakeText(ns: seq<nat>): Option<(string, seq<nat>)> {
    if ns == [] || ns[0] > |ns| - 1 then None else
    var codes := ns[1..ns[0] + 1];
    if exists i :: 0 <= i < |codes| && !IsChar(codes[i]) then None else
    Some((seq(|codes|, i requires 0 <= i < |codes| => codes[i] as char), ns[ns[0] + 1..]))
  }

  lemma TextTakenBack(s: string, rest: seq<nat>)
    ensures TakeText(Text(s) + rest) == Some((s, rest))
  {
    var ns := Text(s) + rest;
    assert ns[1..|s| + 1] == Codes(s) && ns[|s| + 1..] == rest;
    assert seq(|s|, i requires 0 <= i < |s| => Codes(s)[i] as char) == s;
  }

  // ---------------------------------------------------------------- leases

  function LeaseNumbers(l: Lease): seq<nat> {
    Text(l.principal) + (Text(l.designation) + (Text(l.hex) + [l.size, l.expires]))
  }

  function LeaseOf(ns: seq<nat>): Option<Lease> {
    match TakeText(ns)
    case None => None
    case Some((principal, pastPrincipal)) =>
      match TakeText(pastPrincipal)
      case None => None
      case Some((designation, pastDesignation)) =>
        match TakeText(pastDesignation)
        case None => None
        case Some((hex, rest)) =>
          if |rest| == 2 && rest[0] <= U64_MAX && rest[1] <= U64_MAX
          then Some(Lease(principal, designation, hex, rest[0], rest[1])) else None
  }

  lemma LeaseReadsBack(l: Lease)
    ensures LeaseOf(LeaseNumbers(l)) == Some(l)
  {
    TextTakenBack(l.principal, Text(l.designation) + (Text(l.hex) + [l.size, l.expires]));
    TextTakenBack(l.designation, Text(l.hex) + [l.size, l.expires]);
    TextTakenBack(l.hex, [l.size, l.expires]);
  }

  function ParseLease(b: Bytes): Option<Line<LeaseKey, Lease>> {
    match ReadNumbers(0, b)
    case None => None
    case Some(ns) =>
      match LeaseOf(ns)
      case Some(l) => if ReadableLease(KeyOf(l), l) then Some(Put(KeyOf(l), l)) else None
      case None => None
  }

  function RenderLease(line: Line<LeaseKey, Lease>): Bytes {
    SpellNumbers(if line.Put? then LeaseNumbers(line.value) else [])
  }

  predicate IsNumbers(b: Bytes) {
    ReadNumbers(0, b).Some?
  }

  function SpelledLeases(): (c: LeaseCodec) {
    Codec(ParseLease, RenderLease, ReadableLease, false, IsNumbers)
  }

  lemma SpelledLeasesAreGood()
    ensures GoodLeaseCodec(SpelledLeases())
  {
    var c := SpelledLeases();
    forall l: Line<LeaseKey, Lease>
      ensures NoNewline(c.render(l)) && c.isObject(c.render(l))
      ensures l.Put? && c.valid(l.key, l.value) ==> c.parse(c.render(l)) == Some(l)
    {
      var ns := if l.Put? then LeaseNumbers(l.value) else [];
      NoNewlineInNumbers(ns);
      NumbersReadBack(ns);
      if l.Put? { LeaseReadsBack(l.value); }
    }
  }

  // ---------------------------------------------------------------- upload records

  function RecordNumbers(r: UploadRecord): seq<nat> {
    [r.id] + (Text(r.principal) + (Text(r.designation) + [r.length, r.offset, r.interval, r.expires]))
  }

  function RecordOf(ns: seq<nat>): Option<UploadRecord> {
    if ns == [] || ns[0] >= 0x1_0000_0000_0000_0000_0000_0000_0000_0000 then None else
    match TakeText(ns[1..])
    case None => None
    case Some((principal, pastPrincipal)) =>
      match TakeText(pastPrincipal)
      case None => None
      case Some((designation, rest)) =>
        if |rest| == 4 && forall i :: 0 <= i < 4 ==> rest[i] <= U64_MAX
        then Some(UploadRecord(ns[0], principal, designation, rest[0], rest[1], rest[2], rest[3])) else None
  }

  lemma RecordReadsBack(r: UploadRecord)
    ensures RecordOf(RecordNumbers(r)) == Some(r)
  {
    var figures := [r.length, r.offset, r.interval, r.expires];
    assert RecordNumbers(r)[1..] == Text(r.principal) + (Text(r.designation) + figures);
    TextTakenBack(r.principal, Text(r.designation) + figures);
    TextTakenBack(r.designation, figures);
  }

  function ParseRecord(b: Bytes): Option<Line<UploadId, UploadRecord>> {
    match ReadNumbers(0, b)
    case None => None
    case Some(ns) =>
      if |ns| == 1 then
        if ns[0] < 0x1_0000_0000_0000_0000_0000_0000_0000_0000 then Some(Drop(ns[0])) else None
      else
        match RecordOf(ns)
        case Some(r) => if ReadableRecord(r.id, r) then Some(Put(r.id, r)) else None
        case None => None
  }

  function RenderRecord(line: Line<UploadId, UploadRecord>): Bytes {
    SpellNumbers(if line.Put? then RecordNumbers(line.value) else [line.key])
  }

  function SpelledRecords(): (c: UploadCodec) {
    Codec(ParseRecord, RenderRecord, ReadableRecord, true, IsNumbers)
  }

  lemma RecordLineReadsBack(l: Line<UploadId, UploadRecord>)
    ensures NoNewline(RenderRecord(l)) && IsNumbers(RenderRecord(l))
    ensures (l.Put? ==> ReadableRecord(l.key, l.value)) ==> ParseRecord(RenderRecord(l)) == Some(l)
  {
    var ns := if l.Put? then RecordNumbers(l.value) else [l.key];
    NoNewlineInNumbers(ns);
    NumbersReadBack(ns);
    if l.Put? { RecordReadsBack(l.value); }
  }

  lemma SpelledRecordsAreGood()
    ensures GoodUploadCodec(SpelledRecords())
  {
    var c := SpelledRecords();
    forall l: Line<UploadId, UploadRecord>
      ensures NoNewline(c.render(l)) && c.isObject(c.render(l))
      ensures (if l.Put? then c.valid(l.key, l.value) else c.drops) ==> c.parse(c.render(l)) == Some(l)
    {
      RecordLineReadsBack(l);
    }
  }
}

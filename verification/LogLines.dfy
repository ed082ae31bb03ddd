/** A line-structured file: its whole lines, the tail a crash leaves, and where trust in it ends. */
module LogLines {

  type Byte = n: nat | n < 256

  type Bytes = seq<Byte>

  const NEWLINE: Byte := 10

  predicate NoNewline(s: Bytes) {
    forall i :: 0 <= i < |s| ==> s[i] != NEWLINE
  }

  predicate AllLines(lines: seq<Bytes>) {
    forall i :: 0 <= i < |lines| ==> NoNewline(lines[i])
  }

  /** The file a sequence of whole lines is. */
  function Encode(lines: seq<Bytes>): Bytes {
    if lines == [] then [] else lines[0] + [NEWLINE] + Encode(lines[1..])
  }

  datatype FileRead = FileRead(lines: seq<Bytes>, tail: Bytes)

  /** The whole lines, each without its newline, and the bytes past the last newline; `current` is the line in hand. */
  function ReadFrom(current: Bytes, bytes: Bytes): FileRead
    decreases |bytes|
  {
    if bytes == [] then FileRead([], current)
    else if bytes[0] == NEWLINE then
      var rest := ReadFrom([], bytes[1..]);
      FileRead([current] + rest.lines, rest.tail)
    else ReadFrom(current + [bytes[0]], bytes[1..])
  }

  function ReadLines(bytes: Bytes): FileRead {
    ReadFrom([], bytes)
  }

  lemma Assoc(a: Bytes, b: Bytes, c: Bytes)
    ensures (a + b) + c == a + (b + c)
  {
  }

  /** The reading loses nothing: its lines and its tail spell the file. */
  lemma {:induction false} ReadFromSpells(current: Bytes, bytes: Bytes)
    requires NoNewline(current)
    ensures var r := ReadFrom(current, bytes);
            Encode(r.lines) + r.tail == current + bytes && AllLines(r.lines) && NoNewline(r.tail)
    decreases |bytes|
  {
    if bytes != [] {
      if bytes[0] == NEWLINE {
        ReadFromSpells([], bytes[1..]);
        var rest := ReadFrom([], bytes[1..]);
        var lines := [current] + rest.lines;
        assert lines[1..] == rest.lines;
        Assoc(current + [NEWLINE], Encode(rest.lines), rest.tail);
        assert bytes == [NEWLINE] + bytes[1..];
        Assoc(current, [NEWLINE], bytes[1..]);
      } else {
        ReadFromSpells(current + [bytes[0]], bytes[1..]);
        assert bytes == [bytes[0]] + bytes[1..];
        Assoc(current, [bytes[0]], bytes[1..]);
      }
    }
  }

  lemma {:induction false} ReadFromLine(current: Bytes, line: Bytes, rest: Bytes)
    requires NoNewline(line)
    ensures ReadFrom(current, line + [NEWLINE] + rest)
         == FileRead([current + line] + ReadFrom([], rest).lines, ReadFrom([], rest).tail)
    decreases |line|
  {
    var bytes := line + [NEWLINE] + rest;
    if line == [] {
      assert bytes[1..] == rest;
      assert current + line == current;
    } else {
      ReadFromLine(current + [line[0]], line[1..], rest);
      assert bytes[1..] == line[1..] + [NEWLINE] + rest;
      assert (current + [line[0]]) + line[1..] == current + line;
    }
  }

  lemma {:induction false} ReadFromTail(current: Bytes, tail: Bytes)
    requires NoNewline(tail)
    ensures ReadFrom(current, tail) == FileRead([], current + tail)
    decreases |tail|
  {
    if tail == [] {
      assert current + tail == current;
    } else {
      ReadFromTail(current + [tail[0]], tail[1..]);
      assert (current + [tail[0]]) + tail[1..] == current + tail;
    }
  }

  /** And it is the only reading: whole lines followed by a newline-free tail read back as themselves. */
  lemma {:induction false} ReadsBack(lines: seq<Bytes>, tail: Bytes)
    requires AllLines(lines) && NoNewline(tail)
    ensures ReadLines(Encode(lines) + tail) == FileRead(lines, tail)
  {
    if lines == [] {
      assert Encode(lines) + tail == tail;
      ReadFromTail([], tail);
    } else {
      ReadsBack(lines[1..], tail);
      var rest := Encode(lines[1..]) + tail;
      Assoc(lines[0] + [NEWLINE], Encode(lines[1..]), tail);
      ReadFromLine([], lines[0], rest);
      assert [] + lines[0] == lines[0];
      assert lines == [lines[0]] + lines[1..];
    }
  }

  lemma {:induction false} EncodeConcat(x: seq<Bytes>, y: seq<Bytes>)
    ensures Encode(x + y) == Encode(x) + Encode(y)
  {
    if x == [] {
      assert x + y == y;
    } else {
      EncodeConcat(x[1..], y);
      assert (x + y)[1..] == x[1..] + y;
      Assoc(x[0] + [NEWLINE], Encode(x[1..]), Encode(y));
    }
  }

  lemma EncodeOne(line: Bytes)
    ensures Encode([line]) == line + [NEWLINE]
  {
    assert [line][1..] == [];
  }

  lemma EncodePush(lines: seq<Bytes>, line: Bytes)
    ensures Encode(lines + [line]) == Encode(lines) + (line + [NEWLINE])
  {
    EncodeConcat(lines, [line]);
    EncodeOne(line);
  }

  // ---------------------------------------------------------------- trust

  /** The lines before the first that is no record. */
  function Trusted(lines: seq<Bytes>, isObject: Bytes -> bool): (r: seq<Bytes>)
    ensures r <= lines
    ensures forall i :: 0 <= i < |r| ==> isObject(r[i])
    ensures |r| < |lines| ==> !isObject(lines[|r|])
  {
    if lines == [] || !isObject(lines[0]) then [] else [lines[0]] + Trusted(lines[1..], isObject)
  }

  /** What an open reads of a file. */
  function Reading(bytes: Bytes, isObject: Bytes -> bool): seq<Bytes> {
    Trusted(ReadLines(bytes).lines, isObject)
  }

  /** Whether the first untrusted line was whole: damage, which no crash leaves. */
  predicate Damaged(bytes: Bytes, isObject: Bytes -> bool) {
    |Reading(bytes, isObject)| < |ReadLines(bytes).lines|
  }

  lemma {:induction false} TrustsObjects(lines: seq<Bytes>, isObject: Bytes -> bool)
    requires forall i :: 0 <= i < |lines| ==> isObject(lines[i])
    ensures Trusted(lines, isObject) == lines
  {
    if lines != [] {
      TrustsObjects(lines[1..], isObject);
      assert lines == [lines[0]] + lines[1..];
    }
  }

  /** The loop over the lines: their values trusted, and the bytes trusted, newlines counted. */
  method WholeLines(lines: seq<Bytes>, isObject: Bytes -> bool) returns (values: seq<Bytes>, good: nat)
    ensures values == Trusted(lines, isObject)
    ensures good == |Encode(values)|
  {
    values, good := [], 0;
    for i := 0 to |lines|
      invariant values == lines[..i] && good == |Encode(values)|
      invariant values + Trusted(lines[i..], isObject) == Trusted(lines, isObject)
    {
      TrustedUnfolds(lines, i, isObject);
      assert lines[i..][0] == lines[i];
      if !isObject(lines[i]) {
        return;
      }
      EncodePush(values, lines[i]);
      values := values + [lines[i]];
      good := good + |lines[i]| + 1;
      assert lines[..i + 1] == lines[..i] + [lines[i]];
    }
    assert lines[|lines|..] == [];
  }

  lemma TrustedUnfolds(lines: seq<Bytes>, i: nat, isObject: Bytes -> bool)
    requires i < |lines|
    ensures lines[..i] + Trusted(lines[i..], isObject) ==
            if isObject(lines[i]) then (lines[..i] + [lines[i]]) + Trusted(lines[i + 1..], isObject) else lines[..i]
  {
    assert lines[i..][0] == lines[i] && lines[i..][1..] == lines[i + 1..];
    var rest := Trusted(lines[i + 1..], isObject);
    assert lines[..i] + ([lines[i]] + rest) == (lines[..i] + [lines[i]]) + rest;
  }

  // ---------------------------------------------------------------- torn writes

  predicate Records(lines: seq<Bytes>, isObject: Bytes -> bool) {
    AllLines(lines) && forall i :: 0 <= i < |lines| ==> isObject(lines[i])
  }

  /** A file that spells records and a newline-free tail reads as exactly those records, and is no damage. */
  lemma ReadingOf(lines: seq<Bytes>, tail: Bytes, isObject: Bytes -> bool)
    requires Records(lines, isObject) && NoNewline(tail)
    ensures Reading(Encode(lines) + tail, isObject) == lines && !Damaged(Encode(lines) + tail, isObject)
  {
    ReadsBack(lines, tail);
    TrustsObjects(lines, isObject);
  }

  /** A line's write cut anywhere leaves the lines before it, and the line itself only where its newline landed. */
  lemma TornWrite(lines: seq<Bytes>, line: Bytes, k: nat, isObject: Bytes -> bool)
    requires Records(lines, isObject) && Records([line], isObject) && k <= |line| + 1
    ensures var bytes := Encode(lines) + (line + [NEWLINE])[..k];
            && !Damaged(bytes, isObject)
            && Reading(bytes, isObject) == if k == |line| + 1 then lines + [line] else lines
  {
    assert NoNewline([line][0]) && isObject([line][0]);
    if k == |line| + 1 {
      assert (line + [NEWLINE])[..k] == line + [NEWLINE];
      EncodePush(lines, line);
      assert Encode(lines + [line]) + [] == Encode(lines + [line]);
      ReadingOf(lines + [line], [], isObject);
    } else {
      assert (line + [NEWLINE])[..k] == line[..k];
      ReadingOf(lines, line[..k], isObject);
    }
  }
}

// From a netlink datagram to an event: the sanitiser of NetlinkUeventMonitor::recv and the
// key=value parser of the Python observer. A byte of the datagram is a char below 256.
module Netlink {
  const NUL := '\0'
  const NEWLINE := '\n'
  const RECEIVE_TIME := "receive_time"

  type Fields = map<string, string>

  /** isprint in the C locale. */
  predicate IsPrint(c: char) {
    ' ' <= c <= '~'
  }

  function Clean(c: char): char {
    if c == NUL then NEWLINE else if !IsPrint(c) then ' ' else c
  }

  function Sanitized(s: string): (r: string)
    ensures |r| == |s|
    ensures forall i :: 0 <= i < |s| ==> r[i] == Clean(s[i])
  {
    seq(|s|, i requires 0 <= i < |s| => Clean(s[i]))
  }

  /** The loop of NetlinkUeventMonitor::recv, in place on the datagram. */
  method Sanitize(data: array<char>)
    modifies data
    ensures data[..] == Sanitized(old(data[..]))
    ensures forall i :: 0 <= i < data.Length ==>
              var raw := old(data[i]);
              data[i] == if raw == '\0' then '\n' else if 0x20 <= raw as int <= 0x7e then raw else ' '
  {
    ghost var raw := data[..];
    for i := 0 to data.Length
      invariant forall j :: 0 <= j < i ==> data[j] == Clean(raw[j])
      invariant forall j :: i <= j < data.Length ==> data[j] == raw[j]
    {
      if data[i] == NUL {
        data[i] := NEWLINE;
      } else if !IsPrint(data[i]) {
        data[i] := ' ';
      }
    }
  }

  /** str.split with a one-character separator. */
  function Split(s: string, sep: char): (parts: seq<string>)
    ensures parts != []
  {
    if s == "" then [""]
    else
      var rest := Split(s[1..], sep);
      if s[0] == sep then [""] + rest else [[s[0]] + rest[0]] + rest[1..]
  }

  /** str.join. */
  function Join(parts: seq<string>, sep: char): string
    requires parts != []
  {
    if |parts| == 1 then parts[0] else parts[0] + [sep] + Join(parts[1..], sep)
  }

  /** str.count of one character. */
  function Count(s: string, c: char): nat {
    if s == "" then 0 else (if s[0] == c then 1 else 0) + Count(s[1..], c)
  }

  lemma {:induction false} SplitCount(s: string, sep: char)
    ensures |Split(s, sep)| == Count(s, sep) + 1
  {
    if s != "" {
      SplitCount(s[1..], sep);
    }
  }

  /** The parts of a split are free of the separator, and joining them gives the text back. */
  lemma {:induction false} JoinSplit(s: string, sep: char)
    ensures forall i :: 0 <= i < |Split(s, sep)| ==> sep !in Split(s, sep)[i]
    ensures Join(Split(s, sep), sep) == s
  {
    if s != "" {
      JoinSplit(s[1..], sep);
      var rest := Split(s[1..], sep);
      if s[0] == sep {
        assert ([""] + rest)[1..] == rest;
      } else {
        assert ([[s[0]] + rest[0]] + rest[1..])[1..] == rest[1..];
      }
    }
  }

  lemma {:induction false} SplitFirst(part: string, sep: char, tail: string)
    requires sep !in part
    ensures Split(part + [sep] + tail, sep) == [part] + Split(tail, sep)
    ensures Split(part, sep) == [part]
  {
    if part == "" {
      assert part + [sep] + tail == [sep] + tail;
    } else {
      assert (part + [sep] + tail)[1..] == part[1..] + [sep] + tail;
      SplitFirst(part[1..], sep, tail);
      assert [part[0]] + part[1..] == part;
    }
  }

  /** Splitting inverts joining, for parts that are free of the separator. */
  lemma {:induction false} SplitJoin(parts: seq<string>, sep: char)
    requires parts != [] && forall i :: 0 <= i < |parts| ==> sep !in parts[i]
    ensures Split(Join(parts, sep), sep) == parts
  {
    SplitFirst(parts[0], sep, if |parts| == 1 then "" else Join(parts[1..], sep));
    if |parts| > 1 {
      SplitJoin(parts[1..], sep);
    }
  }

  function SanitizedAll(parts: seq<string>): (r: seq<string>)
    ensures |r| == |parts|
    ensures forall i :: 0 <= i < |parts| ==> r[i] == Sanitized(parts[i])
  {
    seq(|parts|, i requires 0 <= i < |parts| => Sanitized(parts[i]))
  }

  lemma SanitizedCons(c: char, rest: string)
    ensures Sanitized([c] + rest) == [Clean(c)] + Sanitized(rest)
  {
  }

  lemma SanitizedAllCons(part: string, parts: seq<string>)
    ensures SanitizedAll([part] + parts) == [Sanitized(part)] + SanitizedAll(parts)
  {
  }

  /** For any datagram at all, the lines of the sanitised text are its NUL-separated fields,
      each sanitised: no byte that is not NUL can start a new line. */
  lemma {:induction false} SanitizeKeepsFields(s: string)
    ensures Split(Sanitized(s), NEWLINE) == SanitizedAll(Split(s, NUL))
  {
    if s != "" {
      SanitizeKeepsFields(s[1..]);
      assert Sanitized(s)[1..] == Sanitized(s[1..]);
      var rest := Split(s[1..], NUL);
      if s[0] == NUL {
        SanitizedAllCons("", rest);
      } else {
        SanitizedCons(s[0], rest[0]);
        SanitizedAllCons([s[0]] + rest[0], rest[1..]);
        SanitizedAllCons(rest[0], rest[1..]);
        assert [rest[0]] + rest[1..] == rest;
      }
    }
  }

  /** The bytes that come through as they are: 0x20 to 0x7e. */
  predicate Printable(s: string) {
    forall i :: 0 <= i < |s| ==> 0x20 <= s[i] as int <= 0x7e
  }

  lemma SanitizePrintable(s: string)
    requires Printable(s)
    ensures Sanitized(s) == s && NUL !in s
  {
  }

  /** The line reads `key=value`, with just that one '='. */
  predicate IsRecord(line: string, key: string, value: string) {
    line == key + "=" + value && '=' !in key && '=' !in value
  }

  predicate HasRecord(line: string) {
    Count(line, '=') == 1
  }

  function Key(line: string): string
    requires HasRecord(line)
  {
    SplitCount(line, '=');
    Split(line, '=')[0]
  }

  function Val(line: string): string
    requires HasRecord(line)
  {
    SplitCount(line, '=');
    Split(line, '=')[1]
  }

  lemma RecordIff(line: string, key: string, value: string)
    ensures IsRecord(line, key, value) <==> HasRecord(line) && Key(line) == key && Val(line) == value
  {
    SplitCount(line, '=');
    if IsRecord(line, key, value) {
      SplitFirst(key, '=', value);
      SplitFirst(value, '=', "");
    } else if HasRecord(line) {
      JoinSplit(line, '=');
      assert Split(line, '=') == [Split(line, '=')[0], Split(line, '=')[1]];
    }
  }

  /** The dictionary after the lines have been read in order: a later line overwrites. */
  function FieldsOf(lines: seq<string>): Fields {
    if lines == [] then map[]
    else
      var before := FieldsOf(lines[..|lines| - 1]);
      var line := lines[|lines| - 1];
      if HasRecord(line) then before[Key(line) := Val(line)] else before
  }

  /** The fields of the event parserRawData makes; the entry for the receive time is then
      replaced by the clock reading, which the event carries separately. */
  function ParsedFields(data: string): Fields {
    FieldsOf(Split(data, NEWLINE)) - {RECEIVE_TIME}
  }

  /** parserRawData, but for the clock reading. */
  method ParserRawData(data: string) returns (event: Fields)
    ensures event == ParsedFields(data)
  {
    var lines := Split(data, NEWLINE);
    event := map[];
    for i := 0 to |lines|
      invariant event == FieldsOf(lines[..i])
    {
      var line := lines[i];
      assert lines[..i + 1][..i] == lines[..i];
      if Count(line, '=') == 1 {
        SplitCount(line, '=');
        var parts := Split(line, '=');
        var key, value := parts[0], parts[1];
        event := event[key := value];
      }
    }
    assert lines[..|lines|] == lines;
    event := event - {RECEIVE_TIME};
  }

  predicate LastRecord(lines: seq<string>, key: string, value: string, i: nat) {
    && i < |lines| && IsRecord(lines[i], key, value)
    && forall j :: i < j < |lines| && HasRecord(lines[j]) ==> Key(lines[j]) != key
  }

  /** A key is in the dictionary with a value if and only if the last line that is a record
      of that key gives it that value. */
  lemma {:induction false} FieldsOfIff(lines: seq<string>, key: string, value: string)
    ensures key in FieldsOf(lines) && FieldsOf(lines)[key] == value <==>
            exists i :: LastRecord(lines, key, value, i)
  {
    if lines != [] {
      var n := |lines| - 1;
      var before := lines[..n];
      FieldsOfIff(before, key, value);
      RecordIff(lines[n], key, value);
      if HasRecord(lines[n]) && Key(lines[n]) == key {
        if Val(lines[n]) == value {
          assert LastRecord(lines, key, value, n);
        }
        forall i | LastRecord(lines, key, value, i) ensures i == n {
        }
      } else {
        forall i | LastRecord(before, key, value, i) ensures LastRecord(lines, key, value, i) {
        }
        forall i | LastRecord(lines, key, value, i) ensures LastRecord(before, key, value, i) {
          assert i != n;
        }
      }
    }
  }

  /** What parserRawData makes of any text: a key has a value if and only if the last line
      that is a record of that key gives it that value, and it is not the receive time's. */
  lemma ParsedFieldsIff(data: string, key: string, value: string)
    ensures key in ParsedFields(data) && ParsedFields(data)[key] == value <==>
            key != "receive_time" && exists i :: LastRecord(Split(data, '\n'), key, value, i)
  {
    var lines := Split(data, '\n');
    FieldsOfIff(lines, key, value);
    var f := FieldsOf(lines);
    assert key in f - {RECEIVE_TIME} <==> key in f && key != RECEIVE_TIME;
    assert key in f - {RECEIVE_TIME} ==> (f - {RECEIVE_TIME})[key] == f[key];
  }

  /** What the kernel sends: a header, then one string per variable, NUL-separated. */
  function Lines(header: string, vars: seq<(string, string)>, trailer: seq<string>): seq<string> {
    [header] + seq(|vars|, i requires 0 <= i < |vars| => vars[i].0 + "=" + vars[i].1) + trailer
  }

  /** Printable variables with different names, none of them the receive time, among lines
      that are no records themselves. */
  predicate WellFormed(header: string, vars: seq<(string, string)>, trailer: seq<string>) {
    && (forall i :: 0 <= i < |Lines(header, vars, trailer)| ==> Printable(Lines(header, vars, trailer)[i]))
    && (forall i :: 0 <= i < |vars| ==> '=' !in vars[i].0 && '=' !in vars[i].1 && vars[i].0 != RECEIVE_TIME)
    && (forall i, j :: 0 <= i < j < |vars| ==> vars[i].0 != vars[j].0)
    && !HasRecord(header)
    && (forall i :: 0 <= i < |trailer| ==> !HasRecord(trailer[i]))
  }

  /** Round trip: sanitising and parsing such a message gives exactly its variables. */
  lemma MessageRoundTrip(header: string, vars: seq<(string, string)>, trailer: seq<string>, key: string, value: string)
    requires WellFormed(header, vars, trailer)
    ensures var fields := ParsedFields(Sanitized(Join(Lines(header, vars, trailer), '\0')));
            key in fields && fields[key] == value <==> (key, value) in vars
  {
    var lines := Lines(header, vars, trailer);
    forall i | 0 <= i < |lines| ensures Sanitized(lines[i]) == lines[i] && NUL !in lines[i] {
      SanitizePrintable(lines[i]);
    }
    SplitJoin(lines, NUL);
    SanitizeKeepsFields(Join(lines, NUL));
    assert SanitizedAll(lines) == lines;
    ParsedFieldsIff(Sanitized(Join(lines, NUL)), key, value);
    LastRecordIff(header, vars, trailer, key, value);
  }

  lemma LastRecordIff(header: string, vars: seq<(string, string)>, trailer: seq<string>, key: string, value: string)
    requires WellFormed(header, vars, trailer)
    ensures key != RECEIVE_TIME ==>
              ((exists i :: LastRecord(Lines(header, vars, trailer), key, value, i)) <==> (key, value) in vars)
    ensures (key, value) in vars ==> key != RECEIVE_TIME
  {
    var lines := Lines(header, vars, trailer);
    assert forall i :: |vars| < i < |lines| ==> lines[i] == trailer[i - 1 - |vars|];
    forall i | 0 <= i < |lines| && HasRecord(lines[i])
      ensures 1 <= i <= |vars| && IsRecord(lines[i], vars[i - 1].0, vars[i - 1].1) && Key(lines[i]) == vars[i - 1].0
    {
      RecordIff(lines[i], vars[i - 1].0, vars[i - 1].1);
    }
    forall i: nat | LastRecord(lines, key, value, i) ensures (key, value) in vars {
      RecordIff(lines[i], key, value);
      RecordIff(lines[i], vars[i - 1].0, vars[i - 1].1);
      assert vars[i - 1] == (key, value);
    }
    if (key, value) in vars {
      var k :| 0 <= k < |vars| && vars[k] == (key, value);
      assert lines[k + 1] == key + "=" + value;
      assert LastRecord(lines, key, value, k + 1);
    }
  }
}

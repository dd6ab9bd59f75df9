// Bytes, and the two operations on sequences that every other module needs.
module Bytes {
  type byte = x: int | 0 <= x < 256

  const NUL: byte := 0
  const NEWLINE: byte := 10

  /** All the parts, one after the other. */
  function Concat<T>(parts: seq<seq<T>>): seq<T> {
    if parts == [] then [] else parts[0] + Concat(parts[1..])
  }

  lemma {:induction false} ConcatAppend<T>(a: seq<seq<T>>, b: seq<seq<T>>)
    ensures Concat(a + b) == Concat(a) + Concat(b)
  {
    if a == [] {
      assert a + b == b;
    } else {
      assert (a + b)[1..] == a[1..] + b;
      ConcatAppend(a[1..], b);
    }
  }

  lemma Assoc<T>(a: seq<T>, b: seq<T>, c: seq<T>)
    ensures (a + b) + c == a + (b + c)
  {
  }

  lemma ConcatCons<T>(part: seq<T>, parts: seq<seq<T>>)
    ensures Concat([part] + parts) == part + Concat(parts)
  {
    assert ([part] + parts)[1..] == parts;
  }

  lemma ConcatOne<T>(part: seq<T>)
    ensures Concat([part]) == part
  {
    assert Concat([part]) == part + Concat([]);
  }

  lemma ConcatSnoc<T>(a: seq<seq<T>>, part: seq<T>)
    ensures Concat(a + [part]) == Concat(a) + part
  {
    ConcatAppend(a, [part]);
    ConcatOne(part);
  }

  /** What C string functions see of a buffer: the bytes before its first NUL. */
  function CString(s: seq<byte>): seq<byte> {
    if s == [] || s[0] == NUL then [] else [s[0]] + CString(s[1..])
  }

  /** Whatever follows the terminating NUL, such as bytes of an older string, is not seen. */
  lemma {:induction false} CStringStopsAtNul(s: seq<byte>, rest: seq<byte>)
    ensures CString(s + [NUL] + rest) == CString(s)
  {
    if s != [] && s[0] != NUL {
      assert (s + [NUL] + rest)[1..] == s[1..] + [NUL] + rest;
      CStringStopsAtNul(s[1..], rest);
    }
  }

  lemma {:induction false} CStringPrefix(s: seq<byte>)
    ensures CString(s) <= s && NUL !in CString(s)
    ensures |CString(s)| < |s| ==> s[|CString(s)|] == NUL
    ensures CString(s) == s <==> NUL !in s
  {
    if s != [] && s[0] != NUL {
      CStringPrefix(s[1..]);
    }
  }

  function CStrings(lines: seq<seq<byte>>): (r: seq<seq<byte>>)
    ensures |r| == |lines|
    ensures forall i :: 0 <= i < |lines| ==> r[i] == CString(lines[i])
  {
    seq(|lines|, i requires 0 <= i < |lines| => CString(lines[i]))
  }

  lemma {:induction false} CStringsClean(lines: seq<seq<byte>>)
    requires forall i :: 0 <= i < |lines| ==> NUL !in lines[i]
    ensures CStrings(lines) == lines
  {
    forall i | 0 <= i < |lines| ensures CString(lines[i]) == lines[i] {
      CStringPrefix(lines[i]);
    }
  }
}

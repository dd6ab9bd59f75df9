// util::Format: a one-pass interpreter for templates with `{}` and `{n}` fields and doubled
// braces. It is proved to agree, on every string, with parsing the whole template first.
module Format {
  datatype Error = MixedNumbering | OutOfRange

  datatype Result = Ok(text: string) | Err(error: Error)

  /** One item of a template: a character to copy, a numbered or an unnumbered field. */
  datatype Piece = Text(c: char) | Auto | Manual(n: nat)

  const INT_MAX: nat := 0x7fff_ffff

  /** isspace and isdigit in the C locale. */
  predicate IsSpace(c: char) {
    c == ' ' || '\t' <= c <= '\r'
  }

  predicate IsDigit(c: char) {
    '0' <= c <= '9'
  }

  function LeadingSpaces(item: string): (n: nat)
    ensures n <= |item|
  {
    if item != "" && IsSpace(item[0]) then 1 + LeadingSpaces(item[1..]) else 0
  }

  function LeadingDigits(item: string): (n: nat)
    ensures n <= |item|
    ensures forall i :: 0 <= i < n ==> IsDigit(item[i])
  {
    if item != "" && IsDigit(item[0]) then 1 + LeadingDigits(item[1..]) else 0
  }

  function DigitValue(c: char): (d: nat)
    requires IsDigit(c)
    ensures d < 10
  {
    c as int - '0' as int
  }

  function Value(digits: string): nat
    requires forall i :: 0 <= i < |digits| ==> IsDigit(digits[i])
  {
    if digits == "" then 0
    else 10 * Value(digits[..|digits| - 1]) + DigitValue(digits[|digits| - 1])
  }

  /** The text between the braces: spaces, then digits or nothing. What follows is ignored. */
  function Field(item: string): Piece {
    var id := item[LeadingSpaces(item)..];
    var n := LeadingDigits(id);
    if n == 0 then Auto else Manual(Value(id[..n]))
  }

  /** The first position of `c`, or the length when there is none. */
  function IndexOf(s: string, c: char): (n: nat)
    ensures n <= |s| && (n < |s| ==> s[n] == c)
    ensures forall i :: 0 <= i < n ==> s[i] != c
  {
    if s == "" || s[0] == c then 0 else 1 + IndexOf(s[1..], c)
  }

  /** The pieces of a format string. Every string is a template: a brace that opens or
      closes nothing stands for itself. */
  function Parse(f: string): seq<Piece>
    decreases |f|
  {
    if f == "" then []
    else if f[0] == '{' then
      if |f| > 1 && f[1] == '{' then [Text('{')] + Parse(f[2..])
      else
        var pos := IndexOf(f[1..], '}');
        if pos < |f| - 1 then [Field(f[1..][..pos])] + Parse(f[pos + 2..])
        else [Text('{')] + Parse(f[1..])
    else if f[0] == '}' then
      [Text('}')] + (if |f| > 1 && f[1] == '}' then Parse(f[2..]) else Parse(f[1..]))
    else [Text(f[0])] + Parse(f[1..])
  }

  /** The argument a field stands for; `auto` is the last automatic index used, or -1. */
  function Index(p: Piece, args: seq<string>, auto: int): Result
    requires !p.Text? && auto >= -1
  {
    if p.Manual? && auto != -1 then Err(MixedNumbering)
    else
      var index := if p.Auto? then auto + 1 else p.n;
      if index >= |args| then Err(OutOfRange) else Ok(args[index])
  }

  /** The pieces evaluated left to right, up to the first error. */
  function Eval(t: seq<Piece>, args: seq<string>, auto: int): Result
    requires auto >= -1
  {
    if t == [] then Ok("")
    else
      var first := if t[0].Text? then Ok([t[0].c]) else Index(t[0], args, auto);
      if first.Err? then first
      else
        Prefixed(first.text, Eval(t[1..], args, if t[0].Auto? then auto + 1 else auto))
  }

  function Prefixed(text: string, r: Result): Result {
    if r.Ok? then Ok(text + r.text) else r
  }

  lemma PrefixedTwice(a: string, b: string, r: Result)
    ensures Prefixed(a, Prefixed(b, r)) == Prefixed(a + b, r)
    ensures Prefixed("", r) == r
  {
    if r.Ok? {
      assert a + (b + r.text) == (a + b) + r.text;
    }
  }

  /** What a call of Format returns. Without arguments the other overload is called, which
      returns the format string as it is. */
  function Formatted(format: string, args: seq<string>): Result {
    if args == [] then Ok(format) else Eval(Parse(format), args, -1)
  }

  /** std::string::operator[] gives NUL at the position just after the end. */
  function At(s: string, i: nat): char
    requires i <= |s|
  {
    if i < |s| then s[i] else '\0'
  }

  /** std::stoi on a run of digits; it throws out_of_range when the value is no int. */
  method Stoi(digits: string) returns (r: Result, index: nat)
    requires digits != "" && forall i :: 0 <= i < |digits| ==> IsDigit(digits[i])
    ensures r.Ok? ==> index == Value(digits) <= INT_MAX
    ensures r.Err? ==> r.error == OutOfRange && Value(digits) > INT_MAX
  {
    index := Value(digits);
    r := if index <= INT_MAX then Ok("") else Err(OutOfRange);
  }

  /** The two scanning loops of FormatItem: where the argument number starts and ends. */
  method ScanId(item: string) returns (start: nat, end: nat)
    ensures start == LeadingSpaces(item)
    ensures end == start + LeadingDigits(item[start..])
  {
    start := 0;
    while start < |item| && IsSpace(item[start])
      invariant start <= |item|
      invariant LeadingSpaces(item) == start + LeadingSpaces(item[start..])
    {
      Suffix(item, start, 1);
      start := start + 1;
    }
    end := start;
    while end < |item| && IsDigit(item[end])
      invariant start <= end <= |item|
      invariant LeadingDigits(item[start..]) == end - start + LeadingDigits(item[end..])
    {
      Suffix(item, end, 1);
      end := end + 1;
    }
  }

  /** FormatItem: the text to append, and the automatic index it updates. */
  method FormatItem(item: string, args: seq<string>, auto: int) returns (r: Result, auto': int)
    requires auto >= -1
    requires |args| <= INT_MAX
    ensures r == Index(Field(item), args, auto)
    ensures r.Ok? ==> auto' == if Field(item).Auto? then auto + 1 else auto
  {
    var start, end := ScanId(item);
    var index := 0;
    auto' := auto;
    if start == end {
      auto' := auto + 1;
      index := auto';
    } else {
      if auto != -1 {
        return Err(MixedNumbering), auto';
      }
      assert item[start..end] == item[start..][..end - start];
      r, index := Stoi(item[start..end]);
      if r.Err? {
        return;
      }
    }
    if index >= |args| {
      return Err(OutOfRange), auto';
    }
    r := Ok(args[index]);
  }

  lemma Suffix(s: string, i: nat, k: nat)
    requires i + k <= |s|
    ensures s[i..][k..] == s[i + k..]
  {
  }

  /** The character at i, or the doubled brace that begins there, is copied as `c`. */
  predicate IsCopied(format: string, i: nat, width: nat, c: char) {
    && 1 <= width && i + width <= |format| && format[i] == c
    && (width == 1 || (width == 2 && format[i + 1] == c && (c == '{' || c == '}')))
    && (c == '{' && width == 1 ==> At(format, i + 1) != '{' && '}' !in format[i + 1..])
    && (c == '}' && width == 1 ==> At(format, i + 1) != '}')
  }

  lemma Copied(format: string, i: nat, width: nat, c: char, ss: string, args: seq<string>, auto: int)
    requires auto >= -1 && IsCopied(format, i, width, c)
    ensures Rest(format, i, ss, args, auto) == Rest(format, i + width, ss + [c], args, auto)
  {
    var f, rest := format[i..], format[i + width..];
    Suffix(format, i, 1);
    Suffix(format, i, width);
    assert Parse(f) == [Text(c)] + Parse(rest);
    PrefixedTwice(ss, [c], Eval(Parse(rest), args, auto));
  }

  /** The field between the braces at i and pos is replaced by its argument, or fails. */
  lemma Replaced(format: string, i: nat, pos: nat, text: Result, auto': int, ss: string, args: seq<string>, auto: int)
    requires i < pos < |format| && format[i] == '{' && At(format, i + 1) != '{' && auto >= -1
    requires pos == i + 1 + IndexOf(format[i + 1..], '}')
    requires text == Index(Field(format[i + 1..pos]), args, auto)
    requires text.Ok? ==> auto' == if Field(format[i + 1..pos]).Auto? then auto + 1 else auto
    ensures text.Err? ==> Rest(format, i, ss, args, auto) == text
    ensures text.Ok? ==> auto' >= -1
    ensures text.Ok? ==> Rest(format, i, ss, args, auto) == Rest(format, pos + 1, ss + text.text, args, auto')
  {
    var f, rest := format[i..], format[pos + 1..];
    Suffix(format, i, 1);
    Suffix(format, i, pos + 1 - i);
    assert f[1..][..pos - i - 1] == format[i + 1..pos];
    var t := Parse(f);
    assert t == [Field(format[i + 1..pos])] + Parse(rest);
    assert t[1..] == Parse(rest);
    if text.Ok? {
      PrefixedTwice(ss, text.text, Eval(t[1..], args, auto'));
    }
  }

  /** What Format returns if it stands at position i, with `ss` written so far. */
  function Rest(format: string, i: nat, ss: string, args: seq<string>, auto: int): Result
    requires i <= |format| && auto >= -1
  {
    Prefixed(ss, Eval(Parse(format[i..]), args, auto))
  }

  /** One round of the loop at an opening brace. */
  method OpenBrace(format: string, i: nat, ss: string, args: seq<string>, auto: int)
    returns (r: Result, i': nat, auto': int)
    requires i < |format| && format[i] == '{' && auto >= -1 && |args| <= INT_MAX
    ensures i < i' <= |format| && auto' >= -1
    ensures r.Err? ==> Rest(format, i, ss, args, auto) == r
    ensures r.Ok? ==> Rest(format, i, ss, args, auto) == Rest(format, i', ss + r.text, args, auto')
  {
    auto' := auto;
    if At(format, i + 1) == '{' {
      Copied(format, i, 2, '{', ss, args, auto);
      return Ok("{"), i + 2, auto';
    }
    var start := i + 1;
    var pos := start + IndexOf(format[start..], '}');
    if pos < |format| {
      r, auto' := FormatItem(format[start..pos], args, auto);
      Replaced(format, i, pos, r, auto', ss, args, auto);
      i' := pos + 1;
      if r.Err? {
        auto' := auto;
      }
    } else {
      Copied(format, i, 1, '{', ss, args, auto);
      r, i' := Ok("{"), i + 1;
    }
  }

  /** The loop of Format, over positions in one string. */
  method Run(format: string, args: seq<string>) returns (r: Result)
    requires 0 < |args| <= INT_MAX
    ensures r == Formatted(format, args)
  {
    var auto := -1;
    var ss := "";
    var i := 0;
    PrefixedTwice("", "", Formatted(format, args));
    assert format[0..] == format;
    while i < |format|
      invariant 0 <= i <= |format| && auto >= -1
      invariant Formatted(format, args) == Rest(format, i, ss, args, auto)
    {
      if format[i] == '{' {
        var text, i', auto' := OpenBrace(format, i, ss, args, auto);
        if text.Err? {
          return text;
        }
        ss := ss + text.text;
        i, auto := i', auto';
      } else if format[i] == '}' {
        var width := if At(format, i + 1) == '}' then 2 else 1;
        Copied(format, i, width, '}', ss, args, auto);
        i := i + width;
        ss := ss + "}";
      } else {
        Copied(format, i, 1, format[i], ss, args, auto);
        ss := ss + [format[i]];
        i := i + 1;
      }
    }
    r := Ok(ss);
  }

  function Digit(d: nat): char
    requires d < 10
  {
    ('0' as int + d) as char
  }

  lemma DigitRoundTrip(d: nat)
    requires d < 10
    ensures IsDigit(Digit(d)) && DigitValue(Digit(d)) == d
  {
  }

  /** The decimal numeral of a number. */
  function Numeral(n: nat): (s: string)
  {
    if n < 10 then [Digit(n)] else Numeral(n / 10) + [Digit(n % 10)]
  }

  lemma ValueSnoc(digits: string, d: nat)
    requires d < 10 && forall i :: 0 <= i < |digits| ==> IsDigit(digits[i])
    ensures IsDigit(Digit(d)) && forall i :: 0 <= i <= |digits| ==> IsDigit((digits + [Digit(d)])[i])
    ensures Value(digits + [Digit(d)]) == 10 * Value(digits) + d
  {
    DigitRoundTrip(d);
    assert (digits + [Digit(d)])[..|digits|] == digits;
  }

  lemma {:induction false} NumeralValue(n: nat)
    ensures Numeral(n) != "" && (forall i :: 0 <= i < |Numeral(n)| ==> IsDigit(Numeral(n)[i]))
    ensures Value(Numeral(n)) == n
  {
    DigitRoundTrip(n % 10);
    if n < 10 {
      ValueSnoc("", n);
      assert Numeral(n) == "" + [Digit(n)];
    } else {
      NumeralValue(n / 10);
      ValueSnoc(Numeral(n / 10), n % 10);
    }
  }

  function PrintPiece(p: Piece): string {
    match p
    case Text(c) => if c == '{' || c == '}' then [c, c] else [c]
    case Auto => "{}"
    case Manual(n) => "{" + Numeral(n) + "}"
  }

  /** A template written out: braces in its text doubled, `{}` and `{n}` for its fields. */
  function Print(t: seq<Piece>): string {
    if t == [] then "" else PrintPiece(t[0]) + Print(t[1..])
  }

  lemma {:induction false} DigitsOnly(s: string)
    requires forall i :: 0 <= i < |s| ==> IsDigit(s[i])
    ensures LeadingDigits(s) == |s|
  {
    if s != "" {
      DigitsOnly(s[1..]);
    }
  }

  lemma FieldOfNumeral(n: nat)
    ensures Field(Numeral(n)) == Manual(n)
  {
    NumeralValue(n);
    DigitsOnly(Numeral(n));
    assert LeadingSpaces(Numeral(n)) == 0;
    assert Numeral(n)[0..] == Numeral(n);
    assert Numeral(n)[..|Numeral(n)|] == Numeral(n);
  }

  lemma {:induction false} IndexOfFirst(s: string, c: char, rest: string)
    requires c !in s
    ensures IndexOf(s + [c] + rest, c) == |s|
  {
    if s != "" {
      assert (s + [c] + rest)[1..] == s[1..] + [c] + rest;
      IndexOfFirst(s[1..], c, rest);
    }
  }

  /** A field is recognised whatever follows its closing brace. */
  lemma ParseField(item: string, rest: string)
    requires '}' !in item && (item != "" ==> item[0] != '{')
    ensures Parse("{" + item + "}" + rest) == [Field(item)] + Parse(rest)
  {
    var f := "{" + item + "}" + rest;
    assert f[1..] == item + "}" + rest;
    IndexOfFirst(item, '}', rest);
    assert f[1..][..|item|] == item;
    assert f[|item| + 2..] == rest;
  }

  /** The number that digits spell, read from the left. */
  function Decimal(digits: string): int {
    if digits == "" then 0
    else (digits[0] as int - 48) * Power(|digits| - 1) + Decimal(digits[1..])
  }

  /** Ten to the power k. */
  function Power(k: nat): nat {
    if k == 0 then 1 else 10 * Power(k - 1)
  }

  lemma {:induction false} DecimalSnoc(digits: string, c: char)
    ensures Decimal(digits + [c]) == 10 * Decimal(digits) + (c as int - 48)
  {
    if digits == "" {
      assert digits + [c] == [c];
      assert Decimal([c]) == (c as int - 48) * Power(0) + Decimal([c][1..]);
    } else {
      var rest := digits[1..];
      assert (digits + [c])[1..] == rest + [c];
      DecimalSnoc(rest, c);
      Shifted(digits[0] as int - 48, Power(|rest|), Decimal(rest), c as int - 48);
    }
  }

  lemma Shifted(d: int, p: int, r: int, e: int)
    ensures d * (10 * p) + (10 * r + e) == 10 * (d * p + r) + e
  {
  }

  lemma {:induction false} ValueIsDecimal(digits: string)
    requires forall i :: 0 <= i < |digits| ==> IsDigit(digits[i])
    ensures Value(digits) == Decimal(digits)
  {
    if digits != "" {
      var n := |digits| - 1;
      ValueIsDecimal(digits[..n]);
      DecimalSnoc(digits[..n], digits[n]);
      assert digits == digits[..n] + [digits[n]];
    }
  }

  lemma {:induction false} LeadingSpacesAre(spaces: string, rest: string)
    requires forall i :: 0 <= i < |spaces| ==> spaces[i] == ' ' || 9 <= spaces[i] as int <= 13
    requires rest != "" ==> rest[0] != ' ' && !(9 <= rest[0] as int <= 13)
    ensures LeadingSpaces(spaces + rest) == |spaces|
  {
    if spaces == "" {
      assert spaces + rest == rest;
    } else {
      assert (spaces + rest)[1..] == spaces[1..] + rest;
      LeadingSpacesAre(spaces[1..], rest);
    }
  }

  lemma {:induction false} LeadingDigitsAre(digits: string, rest: string)
    requires forall i :: 0 <= i < |digits| ==> '0' <= digits[i] <= '9'
    requires rest != "" ==> !('0' <= rest[0] <= '9')
    ensures LeadingDigits(digits + rest) == |digits|
  {
    if digits == "" {
      assert digits + rest == rest;
    } else {
      assert (digits + rest)[1..] == digits[1..] + rest;
      LeadingDigitsAre(digits[1..], rest);
    }
  }

  /** What an item is: white space is skipped, digits make it the field of that decimal number,
      no digits the automatic one, and whatever comes after them is ignored. */
  lemma FieldSpelled(spaces: string, digits: string, rest: string)
    requires forall i :: 0 <= i < |spaces| ==> spaces[i] == ' ' || 9 <= spaces[i] as int <= 13
    requires forall i :: 0 <= i < |digits| ==> '0' <= digits[i] <= '9'
    requires rest != "" ==> !('0' <= rest[0] <= '9')
    requires digits == "" && rest != "" ==> rest[0] != ' ' && !(9 <= rest[0] as int <= 13)
    ensures Decimal(digits) >= 0
    ensures Field(spaces + (digits + rest)) == if digits == "" then Auto else Manual(Decimal(digits))
  {
    var item := spaces + (digits + rest);
    assert digits == "" ==> digits + rest == rest;
    LeadingSpacesAre(spaces, digits + rest);
    assert item[|spaces|..] == digits + rest;
    LeadingDigitsAre(digits, rest);
    assert (digits + rest)[..|digits|] == digits;
    ValueIsDecimal(digits);
  }

  /** Every way a template can begin: a doubled brace is one brace, an opening brace with a
      closing one somewhere after it is a field, and any other character is itself. */
  lemma Grammar(item: string, c: char, rest: string)
    ensures Parse("{{" + rest) == [Text('{')] + Parse(rest)
    ensures Parse("}}" + rest) == [Text('}')] + Parse(rest)
    ensures '}' !in item && (item != "" ==> item[0] != '{') ==>
              Parse("{" + item + "}" + rest) == [Field(item)] + Parse(rest)
    ensures '}' !in rest && (rest != "" ==> rest[0] != '{') ==> Parse("{" + rest) == [Text('{')] + Parse(rest)
    ensures (rest != "" ==> rest[0] != '}') ==> Parse("}" + rest) == [Text('}')] + Parse(rest)
    ensures c != '{' && c != '}' ==> Parse([c] + rest) == [Text(c)] + Parse(rest)
    ensures Parse("") == []
  {
    assert ("{{" + rest)[2..] == rest && ("}}" + rest)[2..] == rest;
    assert ("{" + rest)[1..] == rest && ("}" + rest)[1..] == rest && ([c] + rest)[1..] == rest;
    if '}' !in item && (item != "" ==> item[0] != '{') {
      ParseField(item, rest);
    }
  }

  lemma ParsePiece(p: Piece, rest: string)
    ensures Parse(PrintPiece(p) + rest) == [p] + Parse(rest)
  {
    var f := PrintPiece(p) + rest;
    match p
    case Text(c) =>
      assert f[|PrintPiece(p)|..] == rest;
    case Auto =>
      assert f == "{" + "" + "}" + rest;
      ParseField("", rest);
    case Manual(n) =>
      NumeralValue(n);
      FieldOfNumeral(n);
      ParseField(Numeral(n), rest);
  }

  /** Parsing inverts printing, for every template. */
  lemma {:induction false} ParsePrint(t: seq<Piece>)
    ensures Parse(Print(t)) == t
  {
    if t != [] {
      ParsePrint(t[1..]);
      ParsePiece(t[0], Print(t[1..]));
    }
  }

  /** How many automatic fields come before position i. */
  function AutosBefore(t: seq<Piece>, i: nat): nat
    requires i <= |t|
  {
    if i == 0 then 0 else AutosBefore(t, i - 1) + (if t[i - 1].Auto? then 1 else 0)
  }

  /** The field at position i can be used: it has an argument, and is not a numbered field
      after an unnumbered one. */
  predicate Usable(t: seq<Piece>, args: seq<string>, i: nat)
    requires i < |t|
  {
    && (t[i].Auto? ==> AutosBefore(t, i) < |args|)
    && (t[i].Manual? ==> AutosBefore(t, i) == 0 && t[i].n < |args|)
  }

  /** Every field among the first k pieces can be used. */
  predicate WellUsed(t: seq<Piece>, args: seq<string>, k: nat)
    requires k <= |t|
  {
    forall i :: 0 <= i < k ==> Usable(t, args, i)
  }

  /** What position i of the template contributes: the k-th automatic field is argument k. */
  function Rendered(t: seq<Piece>, args: seq<string>, i: nat): string
    requires i < |t| && Usable(t, args, i)
  {
    match t[i]
    case Text(c) => [c]
    case Auto => args[AutosBefore(t, i)]
    case Manual(n) => args[n]
  }

  function Render(t: seq<Piece>, args: seq<string>, k: nat): string
    requires k <= |t| && WellUsed(t, args, k)
  {
    if k == 0 then "" else Render(t, args, k - 1) + Rendered(t, args, k - 1)
  }

  /** The left-to-right evaluation reaches position k of a template that is well used so far
      with the text of the first k pieces and the count of their automatic fields. */
  lemma {:induction false} EvalPrefix(t: seq<Piece>, args: seq<string>, k: nat)
    requires k <= |t| && WellUsed(t, args, k)
    ensures Eval(t, args, -1) == Prefixed(Render(t, args, k), Eval(t[k..], args, AutosBefore(t, k) - 1))
  {
    if k == 0 {
      PrefixedTwice("", "", Eval(t, args, -1));
      assert t[0..] == t;
    } else {
      EvalPrefix(t, args, k - 1);
      assert Usable(t, args, k - 1);
      EvalStep(t[k - 1..], args, AutosBefore(t, k - 1) - 1);
      assert t[k - 1..][1..] == t[k..];
      PrefixedTwice(Render(t, args, k - 1), Rendered(t, args, k - 1), Eval(t[k..], args, AutosBefore(t, k) - 1));
    }
  }

  lemma EvalStep(t: seq<Piece>, args: seq<string>, auto: int)
    requires t != [] && auto >= -1
    ensures t[0].Text? ==> Eval(t, args, auto) == Prefixed([t[0].c], Eval(t[1..], args, auto))
    ensures t[0].Auto? && auto + 1 < |args| ==>
              Eval(t, args, auto) == Prefixed(args[auto + 1], Eval(t[1..], args, auto + 1))
    ensures t[0].Manual? && auto == -1 && t[0].n < |args| ==>
              Eval(t, args, auto) == Prefixed(args[t[0].n], Eval(t[1..], args, auto))
    ensures t[0].Manual? && auto != -1 ==> Eval(t, args, auto) == Err(MixedNumbering)
    ensures t[0].Auto? && auto + 1 >= |args| ==> Eval(t, args, auto) == Err(OutOfRange)
    ensures t[0].Manual? && auto == -1 && t[0].n >= |args| ==> Eval(t, args, auto) == Err(OutOfRange)
  {
  }

  lemma {:induction false} FirstMisuse(t: seq<Piece>, args: seq<string>, n: nat) returns (k: nat)
    requires n <= |t| && !WellUsed(t, args, n)
    ensures k < n && WellUsed(t, args, k) && !Usable(t, args, k)
  {
    if WellUsed(t, args, n - 1) { k := n - 1; } else { k := FirstMisuse(t, args, n - 1); }
  }

  /** The error of the first field that cannot be used. */
  predicate FailsAt(t: seq<Piece>, args: seq<string>, k: nat, r: Result) {
    && k < |t| && WellUsed(t, args, k) && !Usable(t, args, k)
    && r == Err(if t[k].Manual? && AutosBefore(t, k) > 0 then MixedNumbering else OutOfRange)
  }

  /** Evaluating a template succeeds if and only if it is well used, and then renders it
      position by position; otherwise the first misused field decides the error. */
  lemma EvalIff(t: seq<Piece>, args: seq<string>)
    ensures WellUsed(t, args, |t|) ==> Eval(t, args, -1) == Ok(Render(t, args, |t|))
    ensures !WellUsed(t, args, |t|) ==> exists k :: FailsAt(t, args, k, Eval(t, args, -1))
  {
    if WellUsed(t, args, |t|) {
      EvalPrefix(t, args, |t|);
    } else {
      var k := FirstMisuse(t, args, |t|);
      EvalPrefix(t, args, k);
      EvalStep(t[k..], args, AutosBefore(t, k) - 1);
      assert FailsAt(t, args, k, Eval(t, args, -1));
    }
  }

  /** Format inverts its printer: a template written out and formatted gives what the
      template means, and fails exactly when the template is not well used. */
  lemma FormatPrinted(t: seq<Piece>, args: seq<string>)
    requires args != []
    ensures WellUsed(t, args, |t|) ==> Formatted(Print(t), args) == Ok(Render(t, args, |t|))
    ensures !WellUsed(t, args, |t|) ==> exists k :: FailsAt(t, args, k, Formatted(Print(t), args))
  {
    ParsePrint(t);
    EvalIff(t, args);
    if !WellUsed(t, args, |t|) {
      var k :| FailsAt(t, args, k, Eval(t, args, -1));
      assert FailsAt(t, args, k, Formatted(Print(t), args));
    }
  }

  function Texts(s: string): seq<Piece> {
    seq(|s|, i requires 0 <= i < |s| => Text(s[i]))
  }

  /** Text with its braces doubled is copied verbatim; without arguments, any text is. */
  lemma EscapedText(s: string, args: seq<string>)
    ensures Formatted(s, []) == Ok(s)
    ensures args != [] ==> Formatted(Print(Texts(s)), args) == Ok(s)
  {
    if args == [] {
      return;
    }
    FormatPrinted(Texts(s), args);
    RenderTexts(s, args, |s|);
    assert s[..|s|] == s;
  }

  lemma {:induction false} RenderTexts(s: string, args: seq<string>, k: nat)
    requires k <= |s|
    ensures WellUsed(Texts(s), args, k) && Render(Texts(s), args, k) == s[..k]
  {
    if k > 0 {
      RenderTexts(s, args, k - 1);
      assert s[..k] == s[..k - 1] + [s[k - 1]];
    }
  }

  /** The template with its automatic fields numbered from k on. */
  function Numbered(t: seq<Piece>, k: nat): seq<Piece> {
    if t == [] then []
    else if t[0].Auto? then [Manual(k)] + Numbered(t[1..], k + 1)
    else [t[0]] + Numbered(t[1..], k)
  }

  lemma {:induction false} EvalNumbered(t: seq<Piece>, args: seq<string>, k: nat)
    requires forall i :: 0 <= i < |t| ==> !t[i].Manual?
    ensures Eval(t, args, k - 1) == Eval(Numbered(t, k), args, -1)
  {
    if t != [] {
      var k' := if t[0].Auto? then k + 1 else k;
      EvalNumbered(t[1..], args, k');
      assert Numbered(t, k)[1..] == Numbered(t[1..], k');
      EvalStep(t, args, k - 1);
      EvalStep(Numbered(t, k), args, -1);
    }
  }

  /** Automatic numbering means 0, 1, 2 and so on: same text, same errors. */
  lemma Numbering(t: seq<Piece>, args: seq<string>)
    requires args != []
    requires forall i :: 0 <= i < |t| ==> !t[i].Manual?
    ensures Formatted(Print(t), args) == Formatted(Print(Numbered(t, 0)), args)
  {
    ParsePrint(t);
    ParsePrint(Numbered(t, 0));
    EvalNumbered(t, args, 0);
  }
}

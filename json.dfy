/** JSON values with the encoder that `JSON.stringify` applies and the decoder that
    `JSON.parse` applies. Chat messages carry reply metadata as JSON text
    (Backend/models/chatModel.js) and the chat page decodes it (Frontend/src/page/Chatbox.jsx). */
module Json {
  import opened Wrappers
  import opened Text

  /** A number is kept as `mantissa * 10^exponent`. */
  datatype Value =
    | Null
    | Bool(b: bool)
    | Num(mantissa: int, exponent: int)
    | Str(s: string)
    | Arr(items: seq<Value>)
    | Obj(fields: seq<Field>)

  /** Object members in insertion order, as `JSON.stringify` writes them. */
  datatype Field = Field(key: string, value: Value)

  /** JavaScript truthiness of a decoded value. */
  predicate Truthy(v: Value) {
    match v
    case Null => false
    case Bool(b) => b
    case Num(m, _) => m != 0
    case Str(s) => s != ""
    case Arr(_) => true
    case Obj(_) => true
  }

  /** The value of a member; with repeated keys the last one wins, as in `JSON.parse`. */
  function Lookup(fields: seq<Field>, key: string): Option<Value>
    decreases |fields|
  {
    if |fields| == 0 then None
    else if fields[|fields| - 1].key == key then Some(fields[|fields| - 1].value)
    else Lookup(fields[..|fields| - 1], key)
  }

  /** A member no later member overrides is the one looked up. */
  lemma {:induction false} LookupAt(fields: seq<Field>, i: nat)
    requires i < |fields|
    requires forall j :: i < j < |fields| ==> fields[j].key != fields[i].key
    ensures Lookup(fields, fields[i].key) == Some(fields[i].value)
    decreases |fields|
  {
    if i < |fields| - 1 {
      LookupAt(fields[..|fields| - 1], i);
    }
  }

  /** `v.key` on a decoded value that is not null: only objects have members here. */
  function Member(v: Value, key: string): Option<Value> {
    if v.Obj? then Lookup(v.fields, key) else None
  }

  // ---------------------------------------------------------------- encoding

  function HexDigit(d: nat): char
    requires d < 16
  {
    if d < 10 then ('0' as int + d) as char else ('a' as int + d - 10) as char
  }

  /** `JSON.stringify` escapes for one character of a string. */
  function EscapeChar(c: char): string {
    if c == '"' then "\\\""
    else if c == '\\' then "\\\\"
    else if c as int == 8 then "\\b"
    else if c as int == 12 then "\\f"
    else if c == '\n' then "\\n"
    else if c == '\r' then "\\r"
    else if c == '\t' then "\\t"
    else if (c as int) < 32 then "\\u00" + [HexDigit(c as int / 16), HexDigit(c as int % 16)]
    else [c]
  }

  function Escape(s: string): string
    decreases |s|
  {
    if |s| == 0 then "" else EscapeChar(s[0]) + Escape(s[1..])
  }

  function Quote(s: string): string { "\"" + Escape(s) + "\"" }

  function NumberText(m: int, e: int): string {
    IntToString(m) + (if e == 0 then "" else "e" + IntToString(e))
  }

  function Stringify(v: Value): string
    decreases v
  {
    match v
    case Null => "null"
    case Bool(b) => if b then "true" else "false"
    case Num(m, e) => NumberText(m, e)
    case Str(s) => Quote(s)
    case Arr(items) => "[" + StringifyItems(items) + "]"
    case Obj(fields) => "{" + StringifyFields(fields) + "}"
  }

  function StringifyItems(items: seq<Value>): string
    decreases items
  {
    if |items| == 0 then ""
    else if |items| == 1 then Stringify(items[0])
    else Stringify(items[0]) + "," + StringifyItems(items[1..])
  }

  function StringifyField(f: Field): string
    decreases f, 0
  {
    Quote(f.key) + ":" + Stringify(f.value)
  }

  function StringifyFields(fields: seq<Field>): string
    decreases fields
  {
    if |fields| == 0 then ""
    else if |fields| == 1 then StringifyField(fields[0])
    else StringifyField(fields[0]) + "," + StringifyFields(fields[1..])
  }

  // ---------------------------------------------------------------- decoding

  predicate IsJsonSpace(c: char) { c == ' ' || c == '\t' || c == '\n' || c == '\r' }

  function SkipSpace(s: string): (r: string)
    ensures |r| <= |s|
    decreases |s|
  {
    if |s| > 0 && IsJsonSpace(s[0]) then SkipSpace(s[1..]) else s
  }

  predicate IsHex(c: char) { IsDigit(c) || 'a' <= c <= 'f' || 'A' <= c <= 'F' }

  function HexValue(c: char): nat
    requires IsHex(c)
  {
    if IsDigit(c) then c as int - '0' as int
    else if 'a' <= c <= 'f' then c as int - 'a' as int + 10
    else c as int - 'A' as int + 10
  }

  /** Prefixes `c` to a decoded string. */
  function Cons(c: char, r: Option<(string, string)>): Option<(string, string)> {
    match r
    case None => None
    case Some((t, rest)) => Some(([c] + t, rest))
  }

  /** Decodes the body of a string literal that follows its opening quote, up to and
      including the closing quote. Escapes of UTF-16 surrogate halves are refused. */
  function ParseString(s: string): (r: Option<(string, string)>)
    ensures r.Some? ==> |r.value.1| < |s|
    decreases |s|
  {
    if |s| == 0 then None
    else if s[0] == '"' then Some(("", s[1..]))
    else if s[0] == '\\' then
      if |s| < 2 then None
      else if s[1] == '"' || s[1] == '\\' || s[1] == '/' then Cons(s[1], ParseString(s[2..]))
      else if s[1] == 'b' then Cons(8 as char, ParseString(s[2..]))
      else if s[1] == 'f' then Cons(12 as char, ParseString(s[2..]))
      else if s[1] == 'n' then Cons('\n', ParseString(s[2..]))
      else if s[1] == 'r' then Cons('\r', ParseString(s[2..]))
      else if s[1] == 't' then Cons('\t', ParseString(s[2..]))
      else if s[1] == 'u' && |s| >= 6 && IsHex(s[2]) && IsHex(s[3]) && IsHex(s[4]) && IsHex(s[5]) then
        var code := 4096 * HexValue(s[2]) + 256 * HexValue(s[3]) + 16 * HexValue(s[4]) + HexValue(s[5]);
        if 0xD800 <= code < 0xE000 then None else Cons(code as char, ParseString(s[6..]))
      else None
    else if (s[0] as int) < 32 then None
    else Cons(s[0], ParseString(s[1..]))
  }

  /** Number of leading decimal digits. */
  function DigitRun(s: string): (n: nat)
    ensures n <= |s| && AllDigits(s[..n])
    decreases |s|
  {
    if |s| > 0 && IsDigit(s[0]) then 1 + DigitRun(s[1..]) else 0
  }

  /** Length of the integer part of a number: a single `0`, or a run of digits. */
  function IntPart(a: string): (n: nat)
    ensures n <= |a| && AllDigits(a[..n])
  {
    var run := DigitRun(a);
    if run > 0 && a[0] == '0' then 1 else run
  }

  /** Number of fraction digits after a `.`; `Some(0)` when there is no fraction and
      `None` for a `.` without digits. */
  function FracPart(b: string): (r: Option<nat>)
    ensures r == Some(0) ==> !(|b| > 0 && b[0] == '.')
    ensures r.Some? && r.value > 0 ==> |b| > r.value && b[0] == '.' && AllDigits(b[1..1 + r.value])
  {
    if |b| > 0 && b[0] == '.' then
      var run := DigitRun(b[1..]);
      if run == 0 then None else (assert b[1..][..run] == b[1..1 + run]; Some(run))
    else Some(0)
  }

  /** The exponent `[eE][+-]?[0-9]+` and what follows it; `Some((0, c))` when there is
      none. */
  function ExpPart(c: string): (r: Option<(int, string)>)
    ensures r.Some? ==> |r.value.1| <= |c|
  {
    if |c| > 0 && (c[0] == 'e' || c[0] == 'E') then
      var d := c[1..];
      var signed := |d| > 0 && (d[0] == '-' || d[0] == '+');
      var d2 := if signed then d[1..] else d;
      var run := DigitRun(d2);
      if run == 0 then None
      else
        var value: int := DigitsValue(d2[..run]);
        Some((if signed && d[0] == '-' then -value else value, d2[run..]))
    else Some((0, c))
  }

  /** A JSON number `-? (0 | [1-9][0-9]*) (. [0-9]+)? ([eE] [+-]? [0-9]+)?`. */
  function ParseNumber(s: string): (r: Option<(Value, string)>)
    ensures r.Some? ==> |r.value.1| < |s|
  {
    var neg := |s| > 0 && s[0] == '-';
    var a := if neg then s[1..] else s;
    var intLen := IntPart(a);
    if intLen == 0 then None else NumberTail(neg, a[..intLen], a[intLen..])
  }

  /** The fraction and exponent of a number whose sign and integer digits are read. */
  function NumberTail(neg: bool, intDigits: string, b: string): (r: Option<(Value, string)>)
    requires AllDigits(intDigits)
    ensures r.Some? ==> |r.value.1| <= |b|
  {
    match FracPart(b)
    case None => None
    case Some(fracLen) =>
      var c := if fracLen > 0 then b[1 + fracLen..] else b;
      match ExpPart(c)
      case None => None
      case Some((ex, rest)) =>
        var frac := if fracLen > 0 then b[1..1 + fracLen] else "";
        var digits := intDigits + frac;
        assert AllDigits(digits);
        var value: int := DigitsValue(digits);
        Some((Num(if neg then -value else value, ex - fracLen), rest))
  }

  function ParseValue(s: string): (r: Option<(Value, string)>)
    ensures r.Some? ==> |r.value.1| < |s|
    decreases |s|, 1
  {
    var t := SkipSpace(s);
    if |t| == 0 then None
    else if t[0] == 'n' then (if StartsWith(t, "null") then Some((Null, t[4..])) else None)
    else if t[0] == 't' then (if StartsWith(t, "true") then Some((Bool(true), t[4..])) else None)
    else if t[0] == 'f' then (if StartsWith(t, "false") then Some((Bool(false), t[5..])) else None)
    else if t[0] == '"' then
      match ParseString(t[1..])
      case None => None
      case Some((str, rest)) => Some((Str(str), rest))
    else if t[0] == '[' then ParseArray(t[1..])
    else if t[0] == '{' then ParseObject(t[1..])
    else if t[0] == '-' || IsDigit(t[0]) then ParseNumber(t)
    else None
  }

  /** The rest of an array after `[`. */
  function ParseArray(s: string): (r: Option<(Value, string)>)
    ensures r.Some? ==> |r.value.1| < |s|
    decreases |s|, 3
  {
    var t := SkipSpace(s);
    if |t| > 0 && t[0] == ']' then Some((Arr([]), t[1..]))
    else
      match ParseItems(s)
      case None => None
      case Some((items, rest)) => Some((Arr(items), rest))
  }

  /** One or more elements separated by `,` and closed by `]`. */
  function ParseItems(s: string): (r: Option<(seq<Value>, string)>)
    ensures r.Some? ==> |r.value.1| < |s|
    decreases |s|, 2
  {
    match ParseValue(s)
    case None => None
    case Some((v, rest)) =>
      var t := SkipSpace(rest);
      if |t| == 0 then None
      else if t[0] == ',' then
        match ParseItems(t[1..])
        case None => None
        case Some((vs, rest2)) => Some(([v] + vs, rest2))
      else if t[0] == ']' then Some(([v], t[1..]))
      else None
  }

  /** The rest of an object after `{`. */
  function ParseObject(s: string): (r: Option<(Value, string)>)
    ensures r.Some? ==> |r.value.1| < |s|
    decreases |s|, 4
  {
    var t := SkipSpace(s);
    if |t| > 0 && t[0] == '}' then Some((Obj([]), t[1..]))
    else
      match ParseMembers(s)
      case None => None
      case Some((fields, rest)) => Some((Obj(fields), rest))
  }

  /** One `"key": value` member. */
  function ParseMember(s: string): (r: Option<(Field, string)>)
    ensures r.Some? ==> |r.value.1| < |s|
    decreases |s|, 2
  {
    var t := SkipSpace(s);
    if |t| == 0 || t[0] != '"' then None
    else
      match ParseString(t[1..])
      case None => None
      case Some((key, rest)) =>
        var t2 := SkipSpace(rest);
        if |t2| == 0 || t2[0] != ':' then None
        else
          match ParseValue(t2[1..])
          case None => None
          case Some((v, rest3)) => Some((Field(key, v), rest3))
  }

  /** One or more members separated by `,` and closed by `}`. */
  function ParseMembers(s: string): (r: Option<(seq<Field>, string)>)
    ensures r.Some? ==> |r.value.1| < |s|
    decreases |s|, 3
  {
    match ParseMember(s)
    case None => None
    case Some((f, rest)) =>
      var t := SkipSpace(rest);
      if |t| == 0 then None
      else if t[0] == ',' then
        match ParseMembers(t[1..])
        case None => None
        case Some((fs, rest2)) => Some(([f] + fs, rest2))
      else if t[0] == '}' then Some(([f], t[1..]))
      else None
  }

  /** `JSON.parse(text)`: one value, optionally surrounded by white space; `None` stands
      for the `SyntaxError` it throws. */
  function Parse(text: string): Option<Value> {
    match ParseValue(text)
    case None => None
    case Some((v, rest)) => if SkipSpace(rest) == "" then Some(v) else None
  }

  // ---------------------------------------------------------------- round trip

  /** What may follow an encoded value inside a larger encoding. */
  predicate Delimited(rest: string) {
    rest == "" || rest[0] == ',' || rest[0] == ']' || rest[0] == '}'
  }

  lemma SkipSpaceNoop(s: string)
    requires s == "" || !IsJsonSpace(s[0])
    ensures SkipSpace(s) == s
  {}

  lemma {:induction false} DigitRunOf(d: string, rest: string)
    requires AllDigits(d)
    requires rest == "" || !IsDigit(rest[0])
    ensures DigitRun(d + rest) == |d|
    decreases |d|
  {
    if |d| > 0 {
      assert (d + rest)[1..] == d[1..] + rest;
      DigitRunOf(d[1..], rest);
    } else {
      assert d + rest == rest;
    }
  }

  /** Reading back `IntToString(m)` followed by `rest`. */
  lemma NumberPrefix(m: int, rest: string, s: string)
    requires s == IntToString(m) + rest
    requires rest == "" || !IsDigit(rest[0])
    ensures var neg := |s| > 0 && s[0] == '-';
            var a := if neg then s[1..] else s;
            neg == (m < 0) && a == NatToString(if m < 0 then -m else m) + rest
  {
    var n: nat := if m < 0 then -m else m;
    NatToStringDigits(n);
    var d := NatToString(n) + rest;
    if m < 0 {
      assert s == "-" + d;
      assert s[1..] == d;
    } else {
      assert s == d && s[0] == d[0];
    }
  }

  /** The integer part of `NatToString(n) + rest` is exactly the rendered digits. */
  lemma IntPartOf(n: nat, rest: string)
    requires rest == "" || !IsDigit(rest[0])
    ensures IntPart(NatToString(n) + rest) == |NatToString(n)|
    ensures (NatToString(n) + rest)[..|NatToString(n)|] == NatToString(n)
  {
    NatToStringDigits(n);
    DigitRunOf(NatToString(n), rest);
  }

  lemma ExpPartNone(rest: string)
    requires Delimited(rest)
    ensures ExpPart(rest) == Some((0, rest))
  {}

  lemma ExpPartOf(e: int, rest: string)
    requires Delimited(rest)
    ensures ExpPart("e" + IntToString(e) + rest) == Some((e, rest))
  {
    if e < 0 {
      ExpPartOfNegative(-e, rest);
    } else {
      ExpPartOfNatural(e, rest);
    }
  }

  lemma ExpPartOfNegative(m: nat, rest: string)
    requires m > 0 && Delimited(rest)
    ensures ExpPart("e" + IntToString(-(m as int)) + rest) == Some((-(m as int), rest))
  {
    NatToStringDigits(m);
    var x := NatToString(m);
    assert IntToString(-(m as int)) == "-" + x;
    assert "e" + ("-" + x) + rest == "e-" + (x + rest);
    ExpPartNegative(x, rest);
  }

  lemma ExpPartOfNatural(m: nat, rest: string)
    requires Delimited(rest)
    ensures ExpPart("e" + IntToString(m) + rest) == Some((m, rest))
  {
    NatToStringDigits(m);
    var x := NatToString(m);
    assert IntToString(m) == x;
    assert "e" + x + rest == "e" + (x + rest);
    ExpPartPositive(x, rest);
  }

  /** An exponent `e`, digits, then a delimiter. */
  lemma ExpPartPositive(digits: string, rest: string)
    requires |digits| > 0 && AllDigits(digits) && Delimited(rest)
    ensures ExpPart("e" + (digits + rest)) == Some((DigitsValue(digits), rest))
  {
    var d := digits + rest;
    DigitRunOf(digits, rest);
    assert d[..|digits|] == digits && d[|digits|..] == rest;
    ExpPartPlain(d, digits, rest);
  }

  /** How `ExpPart` reads an exponent without a sign. */
  lemma ExpPartPlain(d: string, digits: string, rest: string)
    requires DigitRun(d) == |digits| > 0 && AllDigits(digits)
    requires d[..|digits|] == digits && d[|digits|..] == rest
    ensures ExpPart("e" + d) == Some((DigitsValue(digits), rest))
  {
    var c := "e" + d;
    assert c[0] == 'e';
    assert c[1..] == d;
    assert IsDigit(d[0]);
  }

  /** An exponent `e-`, digits, then a delimiter. */
  lemma ExpPartNegative(digits: string, rest: string)
    requires |digits| > 0 && AllDigits(digits) && Delimited(rest)
    ensures ExpPart("e-" + (digits + rest)) == Some((-(DigitsValue(digits) as int), rest))
  {
    var d := digits + rest;
    DigitRunOf(digits, rest);
    assert d[..|digits|] == digits && d[|digits|..] == rest;
    ExpPartMinus(d, digits, rest);
  }

  /** How `ExpPart` reads an exponent with a minus sign. */
  lemma ExpPartMinus(d: string, digits: string, rest: string)
    requires DigitRun(d) == |digits| > 0 && AllDigits(digits)
    requires d[..|digits|] == digits && d[|digits|..] == rest
    ensures ExpPart("e-" + d) == Some((-(DigitsValue(digits) as int), rest))
  {
    var c := "e-" + d;
    assert c[0] == 'e';
    assert c[1..] == "-" + d;
    assert c[1..][1..] == d;
  }

  lemma NumberTailRoundTrip(neg: bool, digits: string, e: int, rest: string)
    requires AllDigits(digits)
    requires Delimited(rest)
    ensures var tail := (if e == 0 then "" else "e" + IntToString(e)) + rest;
            var value: int := DigitsValue(digits);
            NumberTail(neg, digits, tail) == Some((Num(if neg then -value else value, e), rest))
  {
    var tail := (if e == 0 then "" else "e" + IntToString(e)) + rest;
    if e == 0 {
      assert tail == rest;
      ExpPartNone(rest);
    } else {
      assert tail == "e" + IntToString(e) + rest;
      ExpPartOf(e, rest);
    }
    FracNone(tail);
    NumberTailFrom(neg, digits, tail, e, rest);
  }

  lemma FracNone(b: string)
    requires b == "" || b[0] != '.'
    ensures FracPart(b) == Some(0)
  {}

  lemma NumberTailFrom(neg: bool, digits: string, tail: string, e: int, rest: string)
    requires AllDigits(digits) && FracPart(tail) == Some(0) && ExpPart(tail) == Some((e, rest))
    ensures var value: int := DigitsValue(digits);
            NumberTail(neg, digits, tail) == Some((Num(if neg then -value else value, e), rest))
  {
    assert digits + "" == digits;
  }

  lemma ParseNumberRoundTrip(m: int, e: int, rest: string)
    requires Delimited(rest)
    ensures ParseNumber(NumberText(m, e) + rest) == Some((Num(m, e), rest))
  {
    var s := NumberText(m, e) + rest;
    var tail := (if e == 0 then "" else "e" + IntToString(e)) + rest;
    assert s == IntToString(m) + tail;
    NumberPrefix(m, tail, s);
    var n: nat := if m < 0 then -m else m;
    var digits := NatToString(n);
    IntPartOf(n, tail);
    NatToStringDigits(n);
    ParseNumberFrom(s, m < 0, digits, tail);
    NumberTailRoundTrip(m < 0, digits, e, rest);
  }

  /** How `ParseNumber` splits a sign, the integer digits and the tail. */
  lemma ParseNumberFrom(s: string, neg: bool, digits: string, tail: string)
    requires neg == (|s| > 0 && s[0] == '-')
    requires (if neg then s[1..] else s) == digits + tail
    requires AllDigits(digits) && IntPart(digits + tail) == |digits| > 0
    requires (digits + tail)[..|digits|] == digits
    ensures ParseNumber(s) == NumberTail(neg, digits, tail)
  {
    assert (digits + tail)[|digits|..] == tail;
  }

  /** Decoding the escape of one character yields that character. */
  lemma ParseEscapeChar(c: char, tail: string)
    ensures ParseString(EscapeChar(c) + tail) == Cons(c, ParseString(tail))
  {
    var t := EscapeChar(c) + tail;
    if c == '"' || c == '\\' || c as int == 8 || c as int == 12 || c == '\n' || c == '\r' || c == '\t' {
      SimpleEscape(c, tail);
    } else if (c as int) < 32 {
      UnicodeEscape(c, tail);
    } else {
      assert t[0] == c && t[1..] == tail;
    }
  }

  lemma SimpleEscape(c: char, tail: string)
    requires c == '"' || c == '\\' || c as int == 8 || c as int == 12 || c == '\n' || c == '\r' || c == '\t'
    ensures ParseString(EscapeChar(c) + tail) == Cons(c, ParseString(tail))
  {
    var t := EscapeChar(c) + tail;
    assert |EscapeChar(c)| == 2 && t[0] == '\\';
    assert t[2..] == tail;
  }

  lemma UnicodeEscape(c: char, tail: string)
    requires (c as int) < 32 && c as int != 8 && c as int != 12 && c != '\n' && c != '\r' && c != '\t'
    ensures ParseString(EscapeChar(c) + tail) == Cons(c, ParseString(tail))
  {
    var hi, lo := c as int / 16, c as int % 16;
    var t := EscapeChar(c) + tail;
    assert EscapeChar(c) == "\\u00" + [HexDigit(hi), HexDigit(lo)];
    assert t[0] == '\\' && t[1] == 'u' && t[2] == '0' && t[3] == '0';
    assert t[4] == HexDigit(hi) && t[5] == HexDigit(lo);
    assert HexValue(t[4]) == hi && HexValue(t[5]) == lo;
    assert t[6..] == tail;
    assert (16 * hi + lo) as char == c;
  }

  lemma {:induction false} ParseStringRoundTrip(s: string, rest: string)
    ensures ParseString(Escape(s) + "\"" + rest) == Some((s, rest))
    decreases |s|
  {
    if |s| == 0 {
      assert Escape(s) + "\"" + rest == "\"" + rest;
    } else {
      var tail := Escape(s[1..]) + "\"" + rest;
      ParseStringRoundTrip(s[1..], rest);
      assert Escape(s) + "\"" + rest == EscapeChar(s[0]) + tail;
      ParseEscapeChar(s[0], tail);
      assert s == [s[0]] + s[1..];
    }
  }

  /** The first character of every encoding: a letter of a literal, a quote, a bracket,
      a brace, a minus sign or a digit. */
  lemma StringifyStart(v: Value)
    ensures |Stringify(v)| > 0
    ensures var c := Stringify(v)[0];
            c == 'n' || c == 't' || c == 'f' || c == '"' || c == '[' || c == '{' || c == '-' || IsDigit(c)
  {
    if v.Num? {
      var n: nat := if v.mantissa < 0 then -v.mantissa else v.mantissa;
      NatToStringDigits(n);
      assert Stringify(v) == IntToString(v.mantissa) + (if v.exponent == 0 then "" else "e" + IntToString(v.exponent));
    }
  }

  lemma {:induction false} ParseValueRoundTrip(v: Value, rest: string)
    requires Delimited(rest)
    ensures ParseValue(Stringify(v) + rest) == Some((v, rest))
    decreases v, 1
  {
    match v
    case Null => LiteralRoundTrip(v, rest);
    case Bool(_) => LiteralRoundTrip(v, rest);
    case Num(m, e) => NumberValueRoundTrip(m, e, rest);
    case Str(str) => StringValueRoundTrip(str, rest);
    case Arr(_) => ArrayValueRoundTrip(v, rest);
    case Obj(_) => ObjectValueRoundTrip(v, rest);
  }

  lemma NumberValueRoundTrip(m: int, e: int, rest: string)
    requires Delimited(rest)
    ensures ParseValue(Stringify(Num(m, e)) + rest) == Some((Num(m, e), rest))
  {
    var s := NumberText(m, e) + rest;
    NumberStart(m, e);
    assert s[0] == NumberText(m, e)[0];
    ValueAtNumber(s);
    ParseNumberRoundTrip(m, e, rest);
  }

  /** A text starting with a minus sign or a digit is read as a number. */
  lemma ValueAtNumber(s: string)
    requires |s| > 0 && (s[0] == '-' || IsDigit(s[0]))
    ensures ParseValue(s) == ParseNumber(s)
  {
    SkipSpaceNoop(s);
    var c := s[0];
    assert c != 'n' && c != 't' && c != 'f' && c != '"' && c != '[' && c != '{';
  }

  lemma StringValueRoundTrip(str: string, rest: string)
    ensures ParseValue(Stringify(Str(str)) + rest) == Some((Str(str), rest))
  {
    var s := Stringify(Str(str)) + rest;
    assert s == "\"" + (Escape(str) + "\"" + rest);
    assert s[1..] == Escape(str) + "\"" + rest;
    SkipSpaceNoop(s);
    ParseStringRoundTrip(str, rest);
  }

  lemma {:induction false} ArrayValueRoundTrip(v: Value, rest: string)
    requires v.Arr? && Delimited(rest)
    ensures ParseValue(Stringify(v) + rest) == Some((v, rest))
    decreases v, 0
  {
    var s := Stringify(v) + rest;
    assert s == "[" + (StringifyItems(v.items) + "]" + rest);
    assert s[1..] == StringifyItems(v.items) + "]" + rest;
    SkipSpaceNoop(s);
    ParseArrayRoundTrip(v.items, rest);
  }

  lemma {:induction false} ObjectValueRoundTrip(v: Value, rest: string)
    requires v.Obj? && Delimited(rest)
    ensures ParseValue(Stringify(v) + rest) == Some((v, rest))
    decreases v, 0
  {
    var s := Stringify(v) + rest;
    assert s == "{" + (StringifyFields(v.fields) + "}" + rest);
    assert s[1..] == StringifyFields(v.fields) + "}" + rest;
    SkipSpaceNoop(s);
    ParseObjectRoundTrip(v.fields, rest);
  }

  lemma LiteralRoundTrip(v: Value, rest: string)
    requires v.Null? || v.Bool?
    ensures ParseValue(Stringify(v) + rest) == Some((v, rest))
  {
    var s := Stringify(v) + rest;
    SkipSpaceNoop(s);
    if v.Null? || v.b { assert s[..4] == Stringify(v) && s[4..] == rest; }
    else { assert s[..5] == Stringify(v) && s[5..] == rest; }
  }

  lemma {:induction false} ParseArrayRoundTrip(items: seq<Value>, rest: string)
    requires Delimited(rest)
    ensures ParseArray(StringifyItems(items) + "]" + rest) == Some((Arr(items), rest))
    decreases items, 3
  {
    var s := StringifyItems(items) + "]" + rest;
    if |items| == 0 {
      assert s == "]" + rest;
    } else {
      ParseItemsRoundTrip(items, rest);
      ItemsStart(items);
      var c := s[0];
      assert c != ']' && !IsJsonSpace(c);
      SkipSpaceNoop(s);
    }
  }

  /** A non-empty element list starts with the first character of its first value. */
  lemma ItemsStart(items: seq<Value>)
    requires |items| > 0
    ensures |StringifyItems(items)| > 0 && StringifyItems(items)[0] == Stringify(items[0])[0]
    ensures var c := StringifyItems(items)[0]; c != ']' && !IsJsonSpace(c)
  {
    var first := Stringify(items[0]);
    ValueStartNotClosing(items[0]);
    if |items| > 1 {
      var t := "," + StringifyItems(items[1..]);
      assert StringifyItems(items) == first + t;
      assert (first + t)[0] == first[0];
    }
  }

  /** No value starts with `]` or white space. */
  lemma ValueStartNotClosing(v: Value)
    ensures |Stringify(v)| > 0 && Stringify(v)[0] != ']' && !IsJsonSpace(Stringify(v)[0])
  {
    StringifyStart(v);
  }

  lemma {:induction false} ParseObjectRoundTrip(fields: seq<Field>, rest: string)
    requires Delimited(rest)
    ensures ParseObject(StringifyFields(fields) + "}" + rest) == Some((Obj(fields), rest))
    decreases fields, 4
  {
    var s := StringifyFields(fields) + "}" + rest;
    if |fields| == 0 {
      assert s == "}" + rest;
    } else {
      ParseMembersRoundTrip(fields, rest);
      FieldsStart(fields);
      SkipSpaceNoop(s);
    }
  }

  lemma FieldsStart(fields: seq<Field>)
    requires |fields| > 0
    ensures |StringifyFields(fields)| > 0 && StringifyFields(fields)[0] == '"'
  {
    FieldStart(fields[0]);
    if |fields| > 1 {
      assert StringifyFields(fields) == StringifyField(fields[0]) + ("," + StringifyFields(fields[1..]));
    }
  }

  lemma FieldStart(f: Field)
    ensures |StringifyField(f)| > 0 && StringifyField(f)[0] == '"'
  {
    assert StringifyField(f) == "\"" + (Escape(f.key) + "\"" + ":" + Stringify(f.value));
  }

  lemma {:induction false} ParseItemsRoundTrip(items: seq<Value>, rest: string)
    requires |items| > 0
    requires Delimited(rest)
    ensures ParseItems(StringifyItems(items) + "]" + rest) == Some((items, rest))
    decreases items, 2
  {
    if |items| == 1 {
      SingleItemRoundTrip(items, rest);
    } else {
      var tail := StringifyItems(items[1..]) + "]" + rest;
      ItemsCons(items, rest);
      ParseValueRoundTrip(items[0], "," + tail);
      ParseItemsRoundTrip(items[1..], rest);
      ItemsNext(items[0], tail, items[1..], rest);
      assert [items[0]] + items[1..] == items;
    }
  }

  /** A closed list of two or more elements: the first value, a comma and the others. */
  lemma ItemsCons(items: seq<Value>, rest: string)
    requires |items| > 1
    ensures StringifyItems(items) + "]" + rest == Stringify(items[0]) + ("," + (StringifyItems(items[1..]) + "]" + rest))
  {
    var a, b := Stringify(items[0]), StringifyItems(items[1..]);
    assert StringifyItems(items) == a + "," + b;
    CommaAssoc(a, b, "]", rest);
  }

  lemma CommaAssoc(a: string, b: string, close: string, rest: string)
    ensures a + "," + b + close + rest == a + ("," + (b + close + rest))
  {
  }

  /** The last element of an array. */
  lemma {:induction false} SingleItemRoundTrip(items: seq<Value>, rest: string)
    requires |items| == 1
    requires Delimited(rest)
    ensures ParseItems(StringifyItems(items) + "]" + rest) == Some((items, rest))
    decreases items, 1
  {
    assert StringifyItems(items) + "]" + rest == Stringify(items[0]) + ("]" + rest);
    ParseValueRoundTrip(items[0], "]" + rest);
    SkipSpaceNoop("]" + rest);
    assert ("]" + rest)[1..] == rest;
    assert [items[0]] == items;
  }

  lemma ItemsNext(v: Value, tail: string, vs: seq<Value>, rest: string)
    requires ParseValue(Stringify(v) + ("," + tail)) == Some((v, "," + tail))
    requires ParseItems(tail) == Some((vs, rest))
    ensures ParseItems(Stringify(v) + ("," + tail)) == Some(([v] + vs, rest))
  {
    SkipSpaceNoop("," + tail);
    assert ("," + tail)[1..] == tail;
  }

  lemma NumberStart(m: int, e: int)
    ensures |NumberText(m, e)| > 0 && (NumberText(m, e)[0] == '-' || IsDigit(NumberText(m, e)[0]))
  {
    var n: nat := if m < 0 then -m else m;
    NatToStringDigits(n);
  }

  lemma MemberShape(f: Field, after: string)
    ensures StringifyField(f) + after == "\"" + (Escape(f.key) + "\"" + (":" + (Stringify(f.value) + after)))
  {}

  lemma {:induction false} ParseMemberRoundTrip(f: Field, after: string)
    requires Delimited(after)
    ensures ParseMember(StringifyField(f) + after) == Some((f, after))
    decreases f, 1
  {
    var w := Stringify(f.value) + after;
    var t2 := ":" + w;
    var s := StringifyField(f) + after;
    MemberShape(f, after);
    assert s[0] == '"' && s[1..] == Escape(f.key) + "\"" + t2;
    SkipSpaceNoop(s);
    ParseStringRoundTrip(f.key, t2);
    SkipSpaceNoop(t2);
    assert t2[1..] == w;
    ParseValueRoundTrip(f.value, after);
  }

  lemma {:induction false} ParseMembersRoundTrip(fields: seq<Field>, rest: string)
    requires |fields| > 0
    requires Delimited(rest)
    ensures ParseMembers(StringifyFields(fields) + "}" + rest) == Some((fields, rest))
    decreases fields, 3
  {
    var f := fields[0];
    if |fields| == 1 {
      SingleMemberRoundTrip(fields, rest);
    } else {
      var tail := StringifyFields(fields[1..]) + "}" + rest;
      FieldsCons(fields, rest);
      ParseMemberRoundTrip(f, "," + tail);
      ParseMembersRoundTrip(fields[1..], rest);
      MembersNext(f, tail, fields[1..], rest);
      assert [f] + fields[1..] == fields;
    }
  }

  /** A closed list of two or more members: the first member, a comma and the others. */
  lemma FieldsCons(fields: seq<Field>, rest: string)
    requires |fields| > 1
    ensures StringifyFields(fields) + "}" + rest == StringifyField(fields[0]) + ("," + (StringifyFields(fields[1..]) + "}" + rest))
  {
    var a, b := StringifyField(fields[0]), StringifyFields(fields[1..]);
    assert StringifyFields(fields) == a + "," + b;
    CommaAssoc(a, b, "}", rest);
  }

  /** The last member of an object. */
  lemma {:induction false} SingleMemberRoundTrip(fields: seq<Field>, rest: string)
    requires |fields| == 1
    requires Delimited(rest)
    ensures ParseMembers(StringifyFields(fields) + "}" + rest) == Some((fields, rest))
    decreases fields, 2
  {
    var f := fields[0];
    assert StringifyFields(fields) + "}" + rest == StringifyField(f) + ("}" + rest);
    ParseMemberRoundTrip(f, "}" + rest);
    MembersLast(f, rest);
    assert [f] == fields;
  }

  lemma MembersLast(f: Field, rest: string)
    requires ParseMember(StringifyField(f) + ("}" + rest)) == Some((f, "}" + rest))
    ensures ParseMembers(StringifyField(f) + ("}" + rest)) == Some(([f], rest))
  {
    SkipSpaceNoop("}" + rest);
    assert ("}" + rest)[1..] == rest;
  }

  lemma MembersNext(f: Field, tail: string, fs: seq<Field>, rest: string)
    requires ParseMember(StringifyField(f) + ("," + tail)) == Some((f, "," + tail))
    requires ParseMembers(tail) == Some((fs, rest))
    ensures ParseMembers(StringifyField(f) + ("," + tail)) == Some(([f] + fs, rest))
  {
    SkipSpaceNoop("," + tail);
    assert ("," + tail)[1..] == tail;
  }

  /** `JSON.parse(JSON.stringify(v))` gives `v` back. */
  lemma RoundTrip(v: Value)
    ensures Parse(Stringify(v)) == Some(v)
  {
    ParseValueRoundTrip(v, "");
    assert Stringify(v) + "" == Stringify(v);
  }
}

/** Character classes and string operations shared by the JavaScript and SQL code of the
    system. Characters are Unicode scalar values; case mapping and white space are the
    ASCII ones. */
module Text {
  import opened Wrappers

  /** White space as JavaScript's `\s` and `String.prototype.trim` see it, restricted to
      ASCII: space, tab, line feed, carriage return, vertical tab, form feed. */
  predicate IsSpace(c: char) {
    c == ' ' || c == '\t' || c == '\n' || c == '\r' || c as int == 11 || c as int == 12
  }

  predicate IsDigit(c: char) { '0' <= c <= '9' }
  predicate IsUpper(c: char) { 'A' <= c <= 'Z' }
  predicate IsLower(c: char) { 'a' <= c <= 'z' }
  predicate IsLetter(c: char) { IsUpper(c) || IsLower(c) }

  /** `\w` of a regular expression: `[A-Za-z0-9_]`. */
  predicate IsWordChar(c: char) { IsLetter(c) || IsDigit(c) || c == '_' }

  function LowerChar(c: char): char {
    if IsUpper(c) then (c as int + 32) as char else c
  }

  function ToLower(s: string): string {
    seq(|s|, i requires 0 <= i < |s| => LowerChar(s[i]))
  }

  lemma ToLowerLength(s: string)
    ensures |ToLower(s)| == |s|
    ensures forall i :: 0 <= i < |s| ==> ToLower(s)[i] == LowerChar(s[i])
  {}

  /** Lower-casing a lower-cased string changes nothing. */
  lemma ToLowerIdempotent(s: string)
    ensures ToLower(ToLower(s)) == ToLower(s)
  {
    var t := ToLower(s);
    assert forall i :: 0 <= i < |t| ==> !IsUpper(t[i]);
  }

  lemma ToLowerAppend(a: string, b: string)
    ensures ToLower(a + b) == ToLower(a) + ToLower(b)
  {}

  predicate AllSpace(s: string) { forall i :: 0 <= i < |s| ==> IsSpace(s[i]) }

  predicate StartsWith(s: string, p: string) { |p| <= |s| && s[..|p|] == p }

  predicate EndsWith(s: string, p: string) { |p| <= |s| && s[|s| - |p|..] == p }

  /** `p` occurs in `s` at index `i`. */
  predicate OccursAt(s: string, i: nat, p: string) {
    i + |p| <= |s| && s[i..i + |p|] == p
  }

  /** The code units a character takes in UTF-16: two above U+FFFF (a surrogate pair),
      one otherwise. */
  function Utf16Units(c: char): nat { if c as int > 0xFFFF then 2 else 1 }

  /** `String.prototype.length`, which counts UTF-16 code units, not characters. */
  function Utf16Length(s: string): (n: nat)
    ensures |s| <= n <= 2 * |s|
  {
    if s == [] then 0 else Utf16Units(s[0]) + Utf16Length(s[1..])
  }

  /** On text within the Basic Multilingual Plane the two lengths agree. */
  lemma {:induction false} Utf16LengthBmp(s: string)
    requires forall i :: 0 <= i < |s| ==> s[i] as int <= 0xFFFF
    ensures Utf16Length(s) == |s|
  {
    if s != [] {
      Utf16LengthBmp(s[1..]);
    }
  }

  /** Every character above U+FFFF counts twice. */
  lemma {:induction false} Utf16LengthAstral(s: string)
    requires forall i :: 0 <= i < |s| ==> s[i] as int > 0xFFFF
    ensures Utf16Length(s) == 2 * |s|
  {
    if s != [] {
      Utf16LengthAstral(s[1..]);
    }
  }

  /** `String.prototype.includes`: the empty string is contained in every string. */
  predicate Contains(s: string, p: string)
    decreases |s|
  {
    StartsWith(s, p) || (|s| > 0 && Contains(s[1..], p))
  }

  lemma {:induction false} OccursContains(s: string, i: nat, p: string)
    requires OccursAt(s, i, p)
    ensures Contains(s, p)
    decreases i
  {
    if i > 0 {
      assert s[1..][i - 1..i - 1 + |p|] == s[i..i + |p|];
      OccursContains(s[1..], i - 1, p);
    }
  }

  lemma {:induction false} ContainsOccurs(s: string, p: string) returns (i: nat)
    requires Contains(s, p)
    ensures OccursAt(s, i, p)
    decreases |s|
  {
    if StartsWith(s, p) {
      i := 0;
    } else {
      var j := ContainsOccurs(s[1..], p);
      assert s[1..][j..j + |p|] == s[j + 1..j + 1 + |p|];
      i := j + 1;
    }
  }

  /** `Contains` holds exactly when the pattern occurs at some index. */
  lemma ContainsIff(s: string, p: string)
    ensures Contains(s, p) <==> exists i: nat :: OccursAt(s, i, p)
  {
    if Contains(s, p) {
      var i := ContainsOccurs(s, p);
    }
    forall i: nat | OccursAt(s, i, p) ensures Contains(s, p) {
      OccursContains(s, i, p);
    }
  }

  /** JavaScript `s.split(sep)` with a one-character separator: "" gives [""]. */
  function Split(s: string, sep: char): (parts: seq<string>)
    ensures |parts| >= 1
    decreases |s|
  {
    if |s| == 0 then [""]
    else
      var rest := Split(s[1..], sep);
      if s[0] == sep then [""] + rest else [[s[0]] + rest[0]] + rest[1..]
  }

  /** `parts.join(sep)`. */
  function Join(parts: seq<string>, sep: string): string
    decreases |parts|
  {
    if |parts| == 0 then ""
    else if |parts| == 1 then parts[0]
    else parts[0] + sep + Join(parts[1..], sep)
  }

  /** Splitting and joining with the same separator gives the string back, and no part
      contains the separator. */
  lemma {:induction false} SplitJoin(s: string, sep: char)
    ensures Join(Split(s, sep), [sep]) == s
    ensures forall k :: 0 <= k < |Split(s, sep)| ==> sep !in Split(s, sep)[k]
    decreases |s|
  {
    if |s| > 0 {
      SplitJoin(s[1..], sep);
      var rest := Split(s[1..], sep);
      if s[0] == sep {
        assert Split(s, sep) == [""] + rest;
        assert Join([""] + rest, [sep]) == "" + [sep] + Join(rest, [sep]);
        assert s == [s[0]] + s[1..];
      } else {
        var parts := Split(s, sep);
        assert parts == [[s[0]] + rest[0]] + rest[1..];
        if |rest| == 1 {
          assert Join(parts, [sep]) == [s[0]] + rest[0];
        } else {
          assert parts[1..] == rest[1..];
          assert Join(rest, [sep]) == rest[0] + [sep] + Join(rest[1..], [sep]);
          assert Join(parts, [sep]) == [s[0]] + rest[0] + [sep] + Join(rest[1..], [sep]);
        }
        assert s == [s[0]] + s[1..];
        forall k | 0 <= k < |parts| ensures sep !in parts[k] {
          if k == 0 { assert parts[0] == [s[0]] + rest[0]; } else { assert parts[k] == rest[k]; }
        }
      }
    }
  }

  /** A prefix without the separator joins the first part. */
  lemma {:induction false} SplitPrefix(a: string, rest: string, sep: char)
    requires sep !in a
    ensures Split(a + rest, sep) == [a + Split(rest, sep)[0]] + Split(rest, sep)[1..]
    decreases |a|
  {
    if |a| > 0 {
      SplitPrefix(a[1..], rest, sep);
      var S := Split(rest, sep);
      assert (a + rest)[1..] == a[1..] + rest;
      assert (a + rest)[0] == a[0] && a[0] != sep;
      var R := Split(a[1..] + rest, sep);
      assert R[0] == a[1..] + S[0] && R[1..] == S[1..];
      assert Split(a + rest, sep) == [[a[0]] + R[0]] + R[1..];
      assert [a[0]] + (a[1..] + S[0]) == a + S[0];
    } else {
      var S := Split(rest, sep);
      assert a + rest == rest && a + S[0] == S[0];
      assert S == [S[0]] + S[1..];
    }
  }

  /** Joining parts that do not contain the separator and splitting again gives the parts
      back. */
  lemma {:induction false} JoinSplit(parts: seq<string>, sep: char)
    requires |parts| >= 1
    requires forall k :: 0 <= k < |parts| ==> sep !in parts[k]
    ensures Split(Join(parts, [sep]), sep) == parts
    decreases |parts|
  {
    if |parts| == 1 {
      SplitPrefix(parts[0], "", sep);
      assert parts[0] + "" == parts[0];
    } else {
      var tail := Join(parts[1..], [sep]);
      JoinSplit(parts[1..], sep);
      assert Join(parts, [sep]) == parts[0] + ([sep] + tail);
      SplitPrefix(parts[0], [sep] + tail, sep);
      assert ([sep] + tail)[1..] == tail;
      var T := Split([sep] + tail, sep);
      assert T == [""] + Split(tail, sep);
      assert T[0] == "" && T[1..] == parts[1..];
      assert parts[0] + T[0] == parts[0];
      assert parts == [parts[0]] + parts[1..];
    }
  }

  function TrimStart(s: string): string
    decreases |s|
  {
    if |s| > 0 && IsSpace(s[0]) then TrimStart(s[1..]) else s
  }

  function TrimEnd(s: string): string
    decreases |s|
  {
    if |s| > 0 && IsSpace(s[|s| - 1]) then TrimEnd(s[..|s| - 1]) else s
  }

  /** `String.prototype.trim`. */
  function Trim(s: string): string { TrimEnd(TrimStart(s)) }

  lemma {:induction false} TrimStartShape(s: string)
    ensures |TrimStart(s)| <= |s| && TrimStart(s) == s[|s| - |TrimStart(s)|..]
    ensures AllSpace(s[..|s| - |TrimStart(s)|])
    ensures TrimStart(s) == "" || !IsSpace(TrimStart(s)[0])
    decreases |s|
  {
    if |s| > 0 && IsSpace(s[0]) {
      TrimStartShape(s[1..]);
      var k := |s| - |TrimStart(s)|;
      assert s[1..][k - 1..] == s[k..];
      assert s[..k] == [s[0]] + s[1..][..k - 1];
    }
  }

  lemma {:induction false} TrimEndShape(s: string)
    ensures |TrimEnd(s)| <= |s| && TrimEnd(s) == s[..|TrimEnd(s)|]
    ensures AllSpace(s[|TrimEnd(s)|..])
    ensures TrimEnd(s) == "" || !IsSpace(TrimEnd(s)[|TrimEnd(s)| - 1])
    decreases |s|
  {
    if |s| > 0 && IsSpace(s[|s| - 1]) {
      var t := s[..|s| - 1];
      TrimEndShape(t);
      var k := |TrimEnd(t)|;
      assert t[..k] == s[..k];
      assert s[k..] == t[k..] + [s[|s| - 1]];
    }
  }

  /** The trimmed string is the middle of the input with only white space cut from either
      end, and it neither starts nor ends with white space. */
  lemma TrimShape(s: string) returns (i: nat, j: nat)
    ensures i <= j <= |s| && Trim(s) == s[i..j] && AllSpace(s[..i]) && AllSpace(s[j..])
    ensures Trim(s) == "" || (!IsSpace(Trim(s)[0]) && !IsSpace(Trim(s)[|Trim(s)| - 1]))
  {
    TrimStartShape(s);
    i := |s| - |TrimStart(s)|;
    var t := s[i..];
    TrimEndShape(t);
    var k := |TrimEnd(t)|;
    j := i + k;
    assert t[..k] == s[i..j];
    assert t[k..] == s[j..];
    if Trim(s) != "" {
      assert Trim(s)[0] == TrimStart(s)[0];
    }
  }

  /** A string with no white space at either end is its own trim. */
  lemma TrimNoop(s: string)
    requires s == "" || (!IsSpace(s[0]) && !IsSpace(s[|s| - 1]))
    ensures Trim(s) == s
  {}

  /** Trimming twice is trimming once. */
  lemma TrimIdempotent(s: string)
    ensures Trim(Trim(s)) == Trim(s)
  {
    var i, j := TrimShape(s);
    TrimNoop(Trim(s));
  }

  function DigitChar(d: nat): char
    requires d < 10
  {
    ('0' as int + d) as char
  }

  /** Decimal rendering of a natural number, as `String(n)` prints it. */
  function NatToString(n: nat): string
    decreases n
  {
    if n < 10 then [DigitChar(n)] else NatToString(n / 10) + [DigitChar(n % 10)]
  }

  function Pow10(k: nat): nat {
    if k == 0 then 1 else 10 * Pow10(k - 1)
  }

  /** A number with `k` decimal digits renders as `k` characters. */
  lemma {:induction false} NatToStringLength(n: nat, k: nat)
    requires k >= 1 && Pow10(k - 1) <= n < Pow10(k)
    ensures |NatToString(n)| == k
  {
    if k > 1 {
      assert Pow10(k - 1) == 10 * Pow10(k - 2);
      assert n >= 10;
      NatToStringLength(n / 10, k - 1);
    }
  }

  /** `String(i)` for an integer. */
  function IntToString(i: int): string {
    if i < 0 then "-" + NatToString(-i) else NatToString(i)
  }

  predicate AllDigits(s: string) { forall i :: 0 <= i < |s| ==> IsDigit(s[i]) }

  /** The number a string of decimal digits denotes (most significant digit first). */
  function DigitsValue(s: string): nat
    requires AllDigits(s)
    decreases |s|
  {
    if |s| == 0 then 0 else 10 * DigitsValue(s[..|s| - 1]) + (s[|s| - 1] as int - '0' as int)
  }

  /** `NatToString` renders digits only, without a leading zero, and reading them back
      gives the number. */
  lemma {:induction false} NatToStringDigits(n: nat)
    ensures |NatToString(n)| > 0 && AllDigits(NatToString(n))
    ensures NatToString(n)[0] != '0' || n == 0
    ensures DigitsValue(NatToString(n)) == n
    decreases n
  {
    if n >= 10 {
      NatToStringDigits(n / 10);
      var s := NatToString(n);
      assert s[..|s| - 1] == NatToString(n / 10);
    }
  }

  /** Two-digit rendering with a leading zero, `String(n).padStart(2, '0')` for n < 100. */
  function PadTwo(n: nat): string
    requires n < 100
  {
    if n < 10 then "0" + NatToString(n) else NatToString(n)
  }

  /** Left-to-right leftmost replacement over a string, the way a global regular
      expression replace scans its input: `m(s, i)` reports a match of length `len > 0`
      at index `i` together with its replacement text; scanning continues after a match,
      or one character further when there is none. */
  datatype Match = Match(len: nat, replacement: string)

  function Rewrite(s: string, i: nat, m: (string, nat) -> Option<Match>): string
    requires i <= |s|
    decreases |s| - i
  {
    if i == |s| then ""
    else
      var r := m(s, i);
      if r.Some? && 0 < r.value.len <= |s| - i then r.value.replacement + Rewrite(s, i + r.value.len, m)
      else [s[i]] + Rewrite(s, i + 1, m)
  }

  predicate MatchesAt(s: string, i: nat, m: (string, nat) -> Option<Match>)
    requires i <= |s|
  {
    var r := m(s, i); r.Some? && 0 < r.value.len <= |s| - i
  }

  /** Where nothing matches from index `i` on, the rewrite copies the rest of the input. */
  lemma {:induction false} RewriteNoMatch(s: string, i: nat, m: (string, nat) -> Option<Match>)
    requires i <= |s|
    requires forall j :: i <= j < |s| ==> !MatchesAt(s, j, m)
    ensures Rewrite(s, i, m) == s[i..]
    decreases |s| - i
  {
    if i < |s| {
      assert !MatchesAt(s, i, m);
      RewriteNoMatch(s, i + 1, m);
      assert s[i..] == [s[i]] + s[i + 1..];
    }
  }

  /** The rewrite of a concatenation whose left part has no match from `i` on and whose
      right part starts at `k`. */
  lemma {:induction false} RewriteSkip(s: string, i: nat, k: nat, m: (string, nat) -> Option<Match>)
    requires i <= k <= |s|
    requires forall j :: i <= j < k ==> !MatchesAt(s, j, m)
    ensures Rewrite(s, i, m) == s[i..k] + Rewrite(s, k, m)
    decreases k - i
  {
    if i < k {
      RewriteCopy(s, i, m);
      RewriteSkip(s, i + 1, k, m);
      assert s[i..k] == [s[i]] + s[i + 1..k];
    }
  }

  /** Where nothing matches, the rewrite copies one character. */
  lemma RewriteCopy(s: string, i: nat, m: (string, nat) -> Option<Match>)
    requires i < |s| && !MatchesAt(s, i, m)
    ensures Rewrite(s, i, m) == [s[i]] + Rewrite(s, i + 1, m)
  {}

  /** At a match the rewrite emits the replacement and resumes after the match. */
  lemma RewriteAt(s: string, i: nat, m: (string, nat) -> Option<Match>)
    requires i < |s| && MatchesAt(s, i, m)
    ensures Rewrite(s, i, m) == m(s, i).value.replacement + Rewrite(s, i + m(s, i).value.len, m)
  {}

  /** A matcher that reads only forward from its position rewrites a suffix the same way
      whether or not the text before it is present. */
  lemma {:induction false} RewriteSuffix(s: string, d: nat, j: nat, m: (string, nat) -> Option<Match>)
    requires d <= j <= |s|
    requires forall k :: d <= k <= |s| ==> m(s, k) == m(s[d..], k - d)
    ensures Rewrite(s, j, m) == Rewrite(s[d..], j - d, m)
    decreases |s| - j
  {
    var t := s[d..];
    if j < |s| {
      assert m(s, j) == m(t, j - d);
      assert t[j - d] == s[j];
      if MatchesAt(s, j, m) {
        RewriteSuffix(s, d, j + m(s, j).value.len, m);
      } else {
        RewriteSuffix(s, d, j + 1, m);
      }
    }
  }

  /** A text whose first `d` characters hold no match, for a matcher that reads only
      forward from `d`: those characters are copied and the rest is rewritten alone. */
  lemma PieceSkipped(s: string, d: nat, m: (string, nat) -> Option<Match>)
    requires d <= |s|
    requires forall k :: d <= k <= |s| ==> m(s, k) == m(s[d..], k - d)
    requires forall j :: 0 <= j < d ==> !MatchesAt(s, j, m)
    ensures Rewrite(s, 0, m) == s[..d] + Rewrite(s[d..], 0, m)
  {
    RewriteSkip(s, 0, d, m);
    RewriteSuffix(s, d, d, m);
    assert s[0..d] == s[..d];
  }

  /** A text that starts with a match of length `d`, for a matcher that reads only
      forward from `d`: the replacement, then the rest rewritten alone. */
  lemma PieceMatched(s: string, d: nat, m: (string, nat) -> Option<Match>)
    requires 0 < d <= |s|
    requires forall k :: d <= k <= |s| ==> m(s, k) == m(s[d..], k - d)
    requires MatchesAt(s, 0, m) && m(s, 0).value.len == d
    ensures Rewrite(s, 0, m) == m(s, 0).value.replacement + Rewrite(s[d..], 0, m)
  {
    RewriteAt(s, 0, m);
    RewriteSuffix(s, d, d, m);
  }

  /** The first match, at `k`, is replaced and everything before it is copied. */
  lemma RewriteFirst(s: string, k: nat, m: (string, nat) -> Option<Match>)
    requires k < |s| && MatchesAt(s, k, m)
    requires forall j :: 0 <= j < k ==> !MatchesAt(s, j, m)
    ensures Rewrite(s, 0, m) == s[..k] + m(s, k).value.replacement + Rewrite(s, k + m(s, k).value.len, m)
  {
    RewriteSkip(s, 0, k, m);
    RewriteAt(s, k, m);
    assert s[0..k] == s[..k];
  }

  /** A regular-expression word boundary `\b` at index `j` (between `s[j - 1]` and `s[j]`),
      with the ASCII word characters JavaScript uses. */
  predicate Boundary(s: string, j: nat)
    requires j <= |s|
  {
    (j > 0 && IsWordChar(s[j - 1])) != (j < |s| && IsWordChar(s[j]))
  }

  /** Number of white-space characters from index `j` on. */
  function SpacesFrom(s: string, j: nat): (n: nat)
    requires j <= |s|
    ensures j + n <= |s| && (j + n == |s| || !IsSpace(s[j + n]))
    ensures forall k :: j <= k < j + n ==> IsSpace(s[k])
    decreases |s| - j
  {
    if j < |s| && IsSpace(s[j]) then 1 + SpacesFrom(s, j + 1) else 0
  }

  /** Number of decimal digits from index `j` on. */
  function DigitsFrom(s: string, j: nat): (n: nat)
    requires j <= |s|
    ensures j + n <= |s| && (j + n == |s| || !IsDigit(s[j + n]))
    ensures AllDigits(s[j..j + n])
    decreases |s| - j
  {
    if j < |s| && IsDigit(s[j]) then
      var n := DigitsFrom(s, j + 1);
      assert s[j..j + 1 + n] == [s[j]] + s[j + 1..j + 1 + n];
      1 + n
    else 0
  }

  /** Number of word characters (`\w`, ASCII) from index `j` on. */
  function WordCharsFrom(s: string, j: nat): (n: nat)
    requires j <= |s|
    ensures j + n <= |s| && (j + n == |s| || !IsWordChar(s[j + n]))
    ensures forall k :: j <= k < j + n ==> IsWordChar(s[k])
    decreases |s| - j
  {
    if j < |s| && IsWordChar(s[j]) then 1 + WordCharsFrom(s, j + 1) else 0
  }

  /** The word run counted from a position depends only on the text after it. */
  lemma {:induction false} WordCharsFromSuffix(s: string, d: nat, j: nat)
    requires d <= j <= |s|
    ensures WordCharsFrom(s, j) == WordCharsFrom(s[d..], j - d)
    decreases |s| - j
  {
    if j < |s| {
      assert s[d..][j - d] == s[j];
      WordCharsFromSuffix(s, d, j + 1);
    }
  }

  /** A run of `n` word characters ended by the text's end or a non-word character is
      exactly the run counted from its start. */
  lemma {:induction false} WordRunExact(s: string, j: nat, n: nat)
    requires j + n <= |s|
    requires forall k :: j <= k < j + n ==> IsWordChar(s[k])
    requires j + n == |s| || !IsWordChar(s[j + n])
    ensures WordCharsFrom(s, j) == n
    decreases n
  {
    if n > 0 {
      WordRunExact(s, j + 1, n - 1);
    }
  }

  /** Literal `OccursAt` test used by plain-text replacements. */
  function LiteralMatch(p: string, r: string): (string, nat) -> Option<Match> {
    (s: string, i: nat) => if |p| > 0 && OccursAt(s, i, p) then Some(Match(|p|, r)) else None
  }

  /** Replace every occurrence of a non-empty literal, left to right (JavaScript
      `s.replace(/literal/g, r)`). */
  function ReplaceAll(s: string, p: string, r: string): string {
    Rewrite(s, 0, LiteralMatch(p, r))
  }

  /** A text that starts with the pattern has that occurrence replaced, and the rest is
      rewritten as if it stood alone. */
  lemma ReplaceAllAfterPrefix(p: string, r: string, rest: string)
    requires |p| > 0
    ensures ReplaceAll(p + rest, p, r) == r + ReplaceAll(rest, p, r)
  {
    var s := p + rest;
    var m := LiteralMatch(p, r);
    assert s[..|p|] == p;
    assert MatchesAt(s, 0, m);
    RewriteAt(s, 0, m);
    forall k | |p| <= k <= |s| ensures m(s, k) == m(s[|p|..], k - |p|) {
      if k + |p| <= |s| {
        assert s[k..k + |p|] == s[|p|..][k - |p|..k - |p| + |p|];
      }
    }
    RewriteSuffix(s, |p|, |p|, m);
    assert s[|p|..] == rest;
  }

  /** The literal matcher reads only forward from its position. */
  lemma LiteralMatchForward(s: string, d: nat, p: string, r: string)
    requires d <= |s|
    ensures forall k :: d <= k <= |s| ==> LiteralMatch(p, r)(s, k) == LiteralMatch(p, r)(s[d..], k - d)
  {
    forall k | d <= k <= |s| ensures LiteralMatch(p, r)(s, k) == LiteralMatch(p, r)(s[d..], k - d) {
      if k + |p| <= |s| {
        assert s[k..k + |p|] == s[d..][k - d..k - d + |p|];
      }
    }
  }

  /** A string with no occurrence of the pattern is left unchanged. */
  lemma ReplaceAllAbsent(s: string, p: string, r: string)
    requires !Contains(s, p)
    ensures ReplaceAll(s, p, r) == s
  {
    ContainsIff(s, p);
    forall j | 0 <= j < |s| ensures !MatchesAt(s, j, LiteralMatch(p, r)) {
      assert !OccursAt(s, j, p);
    }
    RewriteNoMatch(s, 0, LiteralMatch(p, r));
  }
}

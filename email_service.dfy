/** The e-mail service: rendering of `{{ key }}` templates, templated sending, and the
    `email_queue` table with its queue, process and clean operations. The mail transport,
    the template table's contents and the footer of the mail configuration are
    parameters. */
module EmailService {
  import opened Wrappers
  import Seqs
  import opened Text

  /* ================= Template rendering ================= */

  /** `value || ''`: an absent or empty value renders as the empty string. */
  function OrEmpty(value: Option<string>): (r: string)
    ensures value.Some? ==> r == value.value
    ensures value.None? ==> r == ""
  {
    value.GetOr("")
  }

  /** Length of the match of `{{\s*key\s*}}` at index `i`, if any: the two white-space
      runs are taken greedily, as the regular-expression engine does first. */
  function PlaceholderLen(s: string, i: nat, key: string): (n: Option<nat>)
    requires i <= |s|
    ensures n.Some? ==> 4 + |key| <= n.value && i + n.value <= |s|
  {
    if Twice(s, i, '{') then
      var j := i + 2 + Blanks(s, i + 2);
      if OccursAt(s, j, key) then
        var k := j + |key| + Blanks(s, j + |key|);
        if Twice(s, k, '}') then Some(k + 2 - i) else None
      else None
    else None
  }

  /** Number of white-space characters from index `j` on (the greedy `\s*`). */
  function Blanks(s: string, j: nat): (n: nat)
    requires j <= |s|
    ensures j + n <= |s|
    decreases |s| - j
  {
    if j < |s| && IsSpace(s[j]) then 1 + Blanks(s, j + 1) else 0
  }

  lemma {:induction false} BlanksSpan(s: string, j: nat)
    requires j <= |s|
    ensures AllSpace(s[j..j + Blanks(s, j)])
    ensures j + Blanks(s, j) == |s| || !IsSpace(s[j + Blanks(s, j)])
    decreases |s| - j
  {
    if j < |s| && IsSpace(s[j]) {
      BlanksSpan(s, j + 1);
      assert s[j..j + Blanks(s, j)] == [s[j]] + s[j + 1..j + 1 + Blanks(s, j + 1)];
    }
  }

  /** The character `c` at `i` and `i + 1`. */
  predicate Twice(s: string, i: nat, c: char) {
    i + 2 <= |s| && s[i] == c && s[i + 1] == c
  }

  /** The replacement `String.prototype.replace` builds from a string replacement for a
      pattern without capture groups: `$$` gives `$`, `$&` the matched text, `` $` `` the
      text before the match and `$'` the text after it; any other `$` stands for itself. */
  function Expand(v: string, before: string, matched: string, after: string): string
    decreases |v|
  {
    if |v| == 0 then ""
    else if v[0] == '$' && |v| >= 2 && v[1] == '$' then "$" + Expand(v[2..], before, matched, after)
    else if v[0] == '$' && |v| >= 2 && v[1] == '&' then matched + Expand(v[2..], before, matched, after)
    else if v[0] == '$' && |v| >= 2 && v[1] == '`' then before + Expand(v[2..], before, matched, after)
    else if v[0] == '$' && |v| >= 2 && v[1] == '\'' then after + Expand(v[2..], before, matched, after)
    else [v[0]] + Expand(v[1..], before, matched, after)
  }

  /** The value holds a `` $` `` pattern, the only one that reads the text before the
      match. */
  predicate UsesBefore(v: string)
    decreases |v|
  {
    if |v| < 2 then false
    else if v[0] == '$' && v[1] == '`' then true
    else if v[0] == '$' && (v[1] == '$' || v[1] == '&' || v[1] == '\'') then UsesBefore(v[2..])
    else UsesBefore(v[1..])
  }

  /** A value without `$` is inserted as it is. */
  lemma {:induction false} ExpandLiteral(v: string, before: string, matched: string, after: string)
    requires forall k :: 0 <= k < |v| ==> v[k] != '$'
    ensures Expand(v, before, matched, after) == v
    decreases |v|
  {
    if |v| > 0 {
      assert v[0] != '$';
      ExpandLiteral(v[1..], before, matched, after);
      assert v == [v[0]] + v[1..];
    }
  }

  /** `$$` collapses to one `$`, and `$&` inserts the matched text. */
  lemma ExpandPatterns(before: string, matched: string, after: string)
    ensures Expand("A$$B", before, matched, after) == "A$B"
    ensures Expand("$&", before, matched, after) == matched
    ensures Expand("$'", before, matched, after) == after
    ensures Expand("$`", before, matched, after) == before
  {
    assert "A$$B"[1..] == "$$B" && "$$B"[2..] == "B" && "B"[1..] == "";
    assert "$&"[2..] == "" && "$'"[2..] == "" && "$`"[2..] == "";
  }

  /** Without `` $` `` the expansion does not depend on the text before the match. */
  lemma {:induction false} ExpandBeforeIrrelevant(v: string, b1: string, b2: string, matched: string, after: string)
    requires !UsesBefore(v)
    ensures Expand(v, b1, matched, after) == Expand(v, b2, matched, after)
    decreases |v|
  {
    if |v| >= 2 && v[0] == '$' && (v[1] == '$' || v[1] == '&' || v[1] == '\'') {
      ExpandBeforeIrrelevant(v[2..], b1, b2, matched, after);
    } else if |v| >= 2 {
      ExpandBeforeIrrelevant(v[1..], b1, b2, matched, after);
    } else if |v| == 1 {
      assert Expand(v, b1, matched, after) == [v[0]] + Expand(v[1..], b1, matched, after);
      assert Expand(v, b2, matched, after) == [v[0]] + Expand(v[1..], b2, matched, after);
    }
  }

  /** The match of the placeholder pattern at `i`, replaced by the expansion of
      `value || ''`. */
  function Placeholder(key: string, value: Option<string>): (string, nat) -> Option<Match> {
    (s: string, i: nat) =>
      if i <= |s| && PlaceholderLen(s, i, key).Some? then
        var n := PlaceholderLen(s, i, key).value;
        Some(Match(n, Expand(OrEmpty(value), s[..i], s[i..i + n], s[i + n..])))
      else None
  }

  /** `rendered.replace(new RegExp('{{\\s*' + key + '\\s*}}', 'g'), value || '')`. */
  function ReplaceKey(s: string, key: string, value: Option<string>): string {
    Rewrite(s, 0, Placeholder(key, value))
  }

  /** The placeholder text for `key` with the given white space inside the braces. */
  function PlaceholderText(sp1: string, key: string, sp2: string): string {
    "{{" + sp1 + key + sp2 + "}}"
  }

  /** A key the greedy reading handles exactly as the regular expression does: it does not
      start with white space. */
  predicate PlainKey(key: string) { key == "" || !IsSpace(key[0]) }

  /** Applies the replacements in the order of the variables' entries. */
  function Substitute(t: string, vars: seq<(string, Option<string>)>): string
    decreases |vars|
  {
    if vars == [] then t else Substitute(ReplaceKey(t, vars[0].0, vars[0].1), vars[1..])
  }

  /** `renderTemplate`: every entry substituted in turn, then the footer appended once. */
  function RenderTemplate(t: string, vars: seq<(string, Option<string>)>, footer: string): (r: string)
    ensures |r| == |Substitute(t, vars)| + |footer|
    ensures r[..|r| - |footer|] == Substitute(t, vars) && EndsWith(r, footer)
  {
    var body := Substitute(t, vars);
    assert (body + footer)[..|body|] == body;
    assert (body + footer)[|body|..] == footer;
    body + footer
  }

  /** A white-space run of exactly `n` characters at `j`, followed by a non-space or the
      end, is what `SpacesFrom` counts. */
  lemma {:induction false} SpacesExactly(s: string, j: nat, n: nat)
    requires j + n <= |s| && AllSpace(s[j..j + n])
    requires j + n == |s| || !IsSpace(s[j + n])
    ensures Blanks(s, j) == n
    decreases n
  {
    if n > 0 {
      assert IsSpace(s[j..j + n][0]);
      assert s[j + 1..j + n] == s[j..j + n][1..];
      SpacesExactly(s, j + 1, n - 1);
    }
  }

  /** Every placeholder for a plain key is matched in full and replaced by the expansion
      of the value, or of the empty string when the value is falsy: a value without `$`
      as it is, and a value with `$` patterns as `String.prototype.replace` expands them. */
  lemma PlaceholderRecognised(s: string, i: nat, key: string, value: Option<string>, sp1: string, sp2: string)
    requires PlainKey(key) && AllSpace(sp1) && AllSpace(sp2)
    requires OccursAt(s, i, PlaceholderText(sp1, key, sp2))
    ensures var n := |PlaceholderText(sp1, key, sp2)|;
      Placeholder(key, value)(s, i) == Some(Match(n, Expand(OrEmpty(value), s[..i], PlaceholderText(sp1, key, sp2), s[i + n..])))
  {
    PlaceholderLength(s, i, key, sp1, sp2);
  }

  lemma PlaceholderLength(s: string, i: nat, key: string, sp1: string, sp2: string)
    requires PlainKey(key) && AllSpace(sp1) && AllSpace(sp2)
    requires OccursAt(s, i, PlaceholderText(sp1, key, sp2))
    ensures PlaceholderLen(s, i, key) == Some(|PlaceholderText(sp1, key, sp2)|)
  {
    PlaceholderParts(s, i, key, sp1, sp2);
    PlaceholderFound(s, i, key, |sp1|, |sp2|);
  }

  /** The pieces of a placeholder occurring at `i`. */
  lemma PlaceholderParts(s: string, i: nat, key: string, sp1: string, sp2: string)
    requires OccursAt(s, i, PlaceholderText(sp1, key, sp2))
    ensures Twice(s, i, '{') && Twice(s, i + 2 + |sp1| + |key| + |sp2|, '}')
    ensures s[i + 2..i + 2 + |sp1|] == sp1
    ensures OccursAt(s, i + 2 + |sp1|, key)
    ensures s[i + 2 + |sp1| + |key|..i + 2 + |sp1| + |key| + |sp2|] == sp2
  {
    var p := PlaceholderText(sp1, key, sp2);
    var a := i + 2 + |sp1|;
    var b := a + |key|;
    var c := b + |sp2|;
    var q := s[i..c + 2];
    assert q == p;
    var x := ['{', '{'] + sp1;
    var y := x + key;
    var z := y + sp2;
    assert p == z + ['}', '}'];
    assert s[i] == q[0] == '{' && s[i + 1] == q[1] == '{';
    assert s[c] == q[c - i] == '}' && s[c + 1] == q[c + 1 - i] == '}';
    assert sp1 == s[i + 2..a] by {
      forall k | 0 <= k < |sp1| ensures s[i + 2 + k] == sp1[k] { assert s[i + 2 + k] == q[2 + k] == x[2 + k]; }
    }
    assert key == s[a..b] by {
      forall k | 0 <= k < |key| ensures s[a + k] == key[k] { assert s[a + k] == q[a - i + k] == y[|x| + k]; }
    }
    assert sp2 == s[b..c] by {
      forall k | 0 <= k < |sp2| ensures s[b + k] == sp2[k] { assert s[b + k] == q[b - i + k] == z[|y| + k]; }
    }
  }

  /** The greedy reading finds a placeholder made of white-space runs of `n1` and `n2`
      characters. */
  lemma PlaceholderFound(s: string, i: nat, key: string, n1: nat, n2: nat)
    requires PlainKey(key)
    requires Twice(s, i, '{') && Twice(s, i + 2 + n1 + |key| + n2, '}')
    requires AllSpace(s[i + 2..i + 2 + n1]) && OccursAt(s, i + 2 + n1, key)
    requires AllSpace(s[i + 2 + n1 + |key|..i + 2 + n1 + |key| + n2])
    ensures PlaceholderLen(s, i, key) == Some(n1 + |key| + n2 + 4)
  {
    var a := i + 2 + n1;
    var b := a + |key|;
    var c := b + n2;
    if key == "" {
      assert s[i + 2..c] == s[i + 2..a] + s[b..c];
      SpacesExactly(s, i + 2, n1 + n2);
      assert s[c..c] == [];
      SpacesExactly(s, c, 0);
    } else {
      assert s[a] == s[a..b][0] == key[0];
      SpacesExactly(s, i + 2, n1);
      SpacesExactly(s, b, n2);
    }
  }

  /** Conversely, whatever is replaced is a placeholder for the key. */
  lemma PlaceholderShape(s: string, i: nat, key: string)
    requires i <= |s| && PlaceholderLen(s, i, key).Some?
    ensures exists sp1, sp2 :: (AllSpace(sp1) && AllSpace(sp2) &&
      OccursAt(s, i, PlaceholderText(sp1, key, sp2)) && PlaceholderLen(s, i, key).value == |PlaceholderText(sp1, key, sp2)|)
  {
    var a := i + 2 + Blanks(s, i + 2);
    var c := a + |key| + Blanks(s, a + |key|);
    assert Twice(s, i, '{') && OccursAt(s, a, key);
    PlaceholderUnfold(s, i, key, a, c);
    var sp1, sp2 := ShapeAt(s, i, key, a, c);
  }

  /** The two runs of white space of a placeholder found at `i`. */
  lemma ShapeAt(s: string, i: nat, key: string, a: nat, c: nat) returns (sp1: string, sp2: string)
    requires i <= |s| && Twice(s, i, '{') && a == i + 2 + Blanks(s, i + 2) && OccursAt(s, a, key)
    requires c == a + |key| + Blanks(s, a + |key|) && Twice(s, c, '}')
    ensures AllSpace(sp1) && AllSpace(sp2) && OccursAt(s, i, PlaceholderText(sp1, key, sp2))
    ensures c + 2 - i == |PlaceholderText(sp1, key, sp2)|
  {
    var b := a + |key|;
    sp1, sp2 := s[i + 2..a], s[b..c];
    assert |sp1| == a - i - 2 && |sp2| == c - b;
    BlanksSpan(s, i + 2);
    BlanksSpan(s, b);
    Assembled(s, i, key, sp1, sp2);
    PlaceholderTextLength(sp1, key, sp2);
  }

  lemma PlaceholderTextLength(sp1: string, key: string, sp2: string)
    ensures |PlaceholderText(sp1, key, sp2)| == |sp1| + |key| + |sp2| + 4
  {}

  lemma Assembled(s: string, i: nat, key: string, sp1: string, sp2: string)
    requires Twice(s, i, '{') && i + 2 + |sp1| + |key| + |sp2| + 2 <= |s|
    requires s[i + 2..i + 2 + |sp1|] == sp1 && OccursAt(s, i + 2 + |sp1|, key)
    requires s[i + 2 + |sp1| + |key|..i + 2 + |sp1| + |key| + |sp2|] == sp2
    requires Twice(s, i + 2 + |sp1| + |key| + |sp2|, '}')
    ensures OccursAt(s, i, PlaceholderText(sp1, key, sp2))
  {
    var p := PlaceholderText(sp1, key, sp2);
    var a := i + 2 + |sp1|;
    var b := a + |key|;
    var c := b + |sp2|;
    var x := ['{', '{'] + sp1;
    var y := x + key;
    var z := y + sp2;
    assert p == z + ['}', '}'];
    forall k | 0 <= k < |p| ensures s[i + k] == p[k] {
      if k < 2 {
      } else if k < a - i {
        assert s[i + k] == s[i + 2..a][k - 2];
      } else if k < b - i {
        assert s[i + k] == s[a..b][k - (a - i)];
      } else if k < c - i {
        assert s[i + k] == s[b..c][k - (b - i)];
      }
    }
    assert s[i..i + |p|] == p;
  }

  /** The matcher reads only forward from its position. */
  lemma OccursAfterDrop(s: string, d: nat, j: nat, p: string)
    requires d <= j <= |s|
    ensures OccursAt(s, j, p) == OccursAt(s[d..], j - d, p)
  {
    if j + |p| <= |s| {
      assert s[d..][j - d..j - d + |p|] == s[j..j + |p|];
    }
  }

  lemma {:induction false} SpacesAfterDrop(s: string, d: nat, j: nat)
    requires d <= j <= |s|
    ensures Blanks(s, j) == Blanks(s[d..], j - d)
    decreases |s| - j
  {
    if j < |s| {
      assert s[d..][j - d] == s[j];
      SpacesAfterDrop(s, d, j + 1);
    }
  }

  lemma PlaceholderAfterDrop(s: string, d: nat, j: nat, key: string)
    requires d <= j <= |s|
    ensures PlaceholderLen(s, j, key) == PlaceholderLen(s[d..], j - d, key)
  {
    var t := s[d..];
    var e := j - d;
    TwiceAfterDrop(s, d, j, '{');
    if Twice(s, j, '{') {
      SpacesAfterDrop(s, d, j + 2);
      var a := j + 2 + Blanks(s, j + 2);
      OccursAfterDrop(s, d, a, key);
      if OccursAt(s, a, key) {
        KeyAfterDrop(s, d, j, key, a);
      } else {
        PlaceholderNoKey(s, j, key, a);
        PlaceholderNoKey(t, e, key, a - d);
      }
    } else {
      PlaceholderNoOpen(s, j, key);
      PlaceholderNoOpen(t, e, key);
    }
  }

  /** `PlaceholderAfterDrop` once the opening braces and the key are found. */
  lemma KeyAfterDrop(s: string, d: nat, j: nat, key: string, a: nat)
    requires d <= j <= |s| && Twice(s, j, '{') && a == j + 2 + Blanks(s, j + 2) && OccursAt(s, a, key)
    requires Twice(s[d..], j - d, '{') && a - d == j - d + 2 + Blanks(s[d..], j - d + 2) && OccursAt(s[d..], a - d, key)
    ensures PlaceholderLen(s, j, key) == PlaceholderLen(s[d..], j - d, key)
  {
    SpacesAfterDrop(s, d, a + |key|);
    var c := a + |key| + Blanks(s, a + |key|);
    TwiceAfterDrop(s, d, c, '}');
    PlaceholderUnfold(s, j, key, a, c);
    PlaceholderUnfold(s[d..], j - d, key, a - d, c - d);
  }

  lemma TwiceAfterDrop(s: string, d: nat, j: nat, c: char)
    requires d <= j <= |s|
    ensures Twice(s, j, c) == Twice(s[d..], j - d, c)
  {
  }

  /** `PlaceholderLen` once both braces' positions are known. */
  lemma PlaceholderUnfold(s: string, i: nat, key: string, a: nat, c: nat)
    requires i <= |s| && Twice(s, i, '{') && a == i + 2 + Blanks(s, i + 2) && OccursAt(s, a, key)
    requires c == a + |key| + Blanks(s, a + |key|)
    ensures PlaceholderLen(s, i, key) == if Twice(s, c, '}') then Some(c + 2 - i) else None
  {
  }

  lemma PlaceholderNoKey(s: string, i: nat, key: string, a: nat)
    requires i <= |s| && Twice(s, i, '{') && a == i + 2 + Blanks(s, i + 2) && !OccursAt(s, a, key)
    ensures PlaceholderLen(s, i, key).None?
  {
  }

  lemma PlaceholderNoOpen(s: string, i: nat, key: string)
    requires i <= |s| && !Twice(s, i, '{')
    ensures PlaceholderLen(s, i, key).None?
  {
  }

  lemma RewriteAfterDrop(s: string, d: nat, j: nat, key: string, value: Option<string>)
    requires d <= j <= |s| && !UsesBefore(OrEmpty(value))
    ensures Rewrite(s, j, Placeholder(key, value)) == Rewrite(s[d..], j - d, Placeholder(key, value))
  {
    var m := Placeholder(key, value);
    forall k | d <= k <= |s| ensures m(s, k) == m(s[d..], k - d) {
      MatchAfterDrop(s, d, k, key, value);
    }
    RewriteSuffix(s, d, j, m);
  }

  /** The matcher gives the same match on a suffix, for a value without `` $` ``. */
  lemma MatchAfterDrop(s: string, d: nat, k: nat, key: string, value: Option<string>)
    requires d <= k <= |s| && !UsesBefore(OrEmpty(value))
    ensures Placeholder(key, value)(s, k) == Placeholder(key, value)(s[d..], k - d)
  {
    PlaceholderAfterDrop(s, d, k, key);
    var t := s[d..];
    PlaceholderApplied(s, k, key, value);
    PlaceholderApplied(t, k - d, key, value);
    if PlaceholderLen(s, k, key).Some? {
      ExpandAfterDrop(s, d, k, PlaceholderLen(s, k, key).value, OrEmpty(value));
    }
  }

  /** A replacement without `` $` `` expands alike on a suffix holding the match. */
  lemma ExpandAfterDrop(s: string, d: nat, k: nat, n: nat, v: string)
    requires d <= k && k + n <= |s| && !UsesBefore(v)
    ensures Expand(v, s[..k], s[k..k + n], s[k + n..]) ==
      Expand(v, s[d..][..k - d], s[d..][k - d..k - d + n], s[d..][k - d + n..])
  {
    var t := s[d..];
    assert t[k - d..k - d + n] == s[k..k + n];
    assert t[k - d + n..] == s[k + n..];
    ExpandBeforeIrrelevant(v, s[..k], t[..k - d], s[k..k + n], s[k + n..]);
  }

  /** The matcher's result at a position, in terms of `PlaceholderLen`. */
  lemma PlaceholderApplied(s: string, i: nat, key: string, value: Option<string>)
    requires i <= |s|
    ensures PlaceholderLen(s, i, key).None? ==> Placeholder(key, value)(s, i).None?
    ensures PlaceholderLen(s, i, key).Some? ==>
      var n := PlaceholderLen(s, i, key).value;
      i + n <= |s| &&
      Placeholder(key, value)(s, i) == Some(Match(n, Expand(OrEmpty(value), s[..i], s[i..i + n], s[i + n..])))
  {
  }

  /** A placeholder at the front is replaced by the expanded value and the rest is
      rendered on its own, for a value without `` $` `` (whose expansion would copy the
      text before each later placeholder). */
  lemma ReplaceAtPlaceholder(y: string, key: string, value: Option<string>, sp1: string, sp2: string)
    requires PlainKey(key) && AllSpace(sp1) && AllSpace(sp2) && !UsesBefore(OrEmpty(value))
    ensures ReplaceKey(PlaceholderText(sp1, key, sp2) + y, key, value) ==
      Expand(OrEmpty(value), "", PlaceholderText(sp1, key, sp2), y) + ReplaceKey(y, key, value)
  {
    var p := PlaceholderText(sp1, key, sp2);
    var s := p + y;
    var m := Placeholder(key, value);
    assert s[0..|p|] == p;
    PlaceholderRecognised(s, 0, key, value, sp1, sp2);
    assert s[..0] == "" && s[|p|..] == y;
    assert m(s, 0) == Some(Match(|p|, Expand(OrEmpty(value), "", p, y)));
    PlaceholderTextLength(sp1, key, sp2);
    RewriteAt(s, 0, m);
    RewriteAfterDrop(s, |p|, |p|, key, value);
  }

  /** Text in which no placeholder for the key starts is copied unchanged. */
  lemma ReplaceSkipsText(x: string, y: string, key: string, value: Option<string>)
    requires !UsesBefore(OrEmpty(value))
    requires forall j :: 0 <= j < |x| ==> PlaceholderLen(x + y, j, key).None?
    ensures ReplaceKey(x + y, key, value) == x + ReplaceKey(y, key, value)
  {
    var s := x + y;
    var m := Placeholder(key, value);
    forall j | 0 <= j < |x| ensures !MatchesAt(s, j, m) {}
    RewriteSkip(s, 0, |x|, m);
    RewriteAfterDrop(s, |x|, |x|, key, value);
    assert s[0..|x|] == x && s[|x|..] == y;
  }

  predicate HasPlaceholder(t: string, key: string) {
    exists j :: 0 <= j <= |t| && PlaceholderLen(t, j, key).Some?
  }

  /** Placeholders whose key has no entry are left untouched: a template with no
      placeholder for any of the keys renders to itself. */
  lemma {:induction false} UnmatchedUntouched(t: string, vars: seq<(string, Option<string>)>)
    requires forall n :: 0 <= n < |vars| ==> !HasPlaceholder(t, vars[n].0)
    ensures Substitute(t, vars) == t
    decreases |vars|
  {
    if vars != [] {
      var key := vars[0].0;
      assert !HasPlaceholder(t, key);
      forall j | 0 <= j < |t| ensures !MatchesAt(t, j, Placeholder(key, vars[0].1)) {}
      RewriteNoMatch(t, 0, Placeholder(key, vars[0].1));
      assert forall n :: 0 <= n < |vars[1..]| ==> vars[1..][n] == vars[n + 1];
      UnmatchedUntouched(t, vars[1..]);
    }
  }

  /** A template without `{{` renders to itself followed by the footer. */
  lemma PlainTemplate(t: string, vars: seq<(string, Option<string>)>, footer: string)
    requires !Contains(t, "{{")
    ensures RenderTemplate(t, vars, footer) == t + footer
  {
    ContainsIff(t, "{{");
    forall n | 0 <= n < |vars| ensures !HasPlaceholder(t, vars[n].0) {
      forall j | 0 <= j <= |t| ensures PlaceholderLen(t, j, vars[n].0).None? {
        if j + 1 < |t| { assert !OccursAt(t, j, "{{"); assert t[j..j + 2] == [t[j], t[j + 1]]; }
      }
    }
    UnmatchedUntouched(t, vars);
  }

  /* ================= Templated sending ================= */

  datatype EmailTemplate = EmailTemplate(name: string, subject: string, body: string, active: bool)

  /** `getEmailTemplate`: the first active template with that name. */
  function TemplateNamed(templates: seq<EmailTemplate>, name: string): (r: Option<EmailTemplate>)
    ensures r.Some? ==> r.value in templates && r.value.name == name && r.value.active
    ensures r.None? <==> forall i :: 0 <= i < |templates| ==> !(templates[i].name == name && templates[i].active)
  {
    if templates == [] then None
    else if templates[0].name == name && templates[0].active then Some(templates[0])
    else TemplateNamed(templates[1..], name)
  }

  /** The message handed to the mail transport. */
  datatype Outgoing = Outgoing(to: string, subject: string, html: string)

  function NotFound(name: string): string { "Email template '" + name + "' not found" }

  /** `sendTemplatedEmail` as written: both the subject and the body go through
      `renderTemplate`, so both end with the footer. */
  function SendTemplatedEmail(templates: seq<EmailTemplate>, to: string, name: string,
                              vars: seq<(string, Option<string>)>, footer: string): (r: Result<Outgoing, string>)
    ensures TemplateNamed(templates, name).None? <==> r.Err?
    ensures r.Err? ==> r.error == NotFound(name)
    ensures r.Ok? ==> (r.value.to == to &&
      r.value.html == RenderTemplate(TemplateNamed(templates, name).value.body, vars, footer) &&
      EndsWith(r.value.subject, footer))
  {
    match TemplateNamed(templates, name)
    case None => Err(NotFound(name))
    case Some(t) => Ok(Outgoing(to, RenderTemplate(t.subject, vars, footer), RenderTemplate(t.body, vars, footer)))
  }

  /** The footer, an HTML block, is appended to the subject line too: a plain subject
      "Welcome" goes out as "Welcome" followed by the footer. */
  lemma SubjectCarriesFooter(templates: seq<EmailTemplate>, to: string, name: string, footer: string)
    requires TemplateNamed(templates, name).Some? && !Contains(TemplateNamed(templates, name).value.subject, "{{")
    ensures SendTemplatedEmail(templates, to, name, [], footer).value.subject ==
      TemplateNamed(templates, name).value.subject + footer
  {
    PlainTemplate(TemplateNamed(templates, name).value.subject, [], footer);
  }

  /** The evidently intended sending: only the body receives the footer. */
  function SendTemplatedEmailIntended(templates: seq<EmailTemplate>, to: string, name: string,
                                      vars: seq<(string, Option<string>)>, footer: string): (r: Result<Outgoing, string>)
    ensures TemplateNamed(templates, name).None? <==> r.Err?
    ensures r.Err? ==> r.error == NotFound(name)
    ensures r.Ok? ==> (r.value.to == to &&
      r.value.html == RenderTemplate(TemplateNamed(templates, name).value.body, vars, footer))
  {
    match TemplateNamed(templates, name)
    case None => Err(NotFound(name))
    case Some(t) => Ok(Outgoing(to, Substitute(t.subject, vars), RenderTemplate(t.body, vars, footer)))
  }

  /** With the intended sending a subject without placeholders goes out verbatim. */
  lemma IntendedSubjectVerbatim(templates: seq<EmailTemplate>, to: string, name: string,
                                vars: seq<(string, Option<string>)>, footer: string)
    requires TemplateNamed(templates, name).Some? && !Contains(TemplateNamed(templates, name).value.subject, "{{")
    ensures SendTemplatedEmailIntended(templates, to, name, vars, footer).value.subject ==
      TemplateNamed(templates, name).value.subject
  {
    var t := TemplateNamed(templates, name).value.subject;
    PlainTemplate(t, vars, "");
    assert t + "" == t;
    assert RenderTemplate(t, vars, "") == Substitute(t, vars) + "";
  }

  /* ================= The e-mail queue ================= */

  datatype QueuedEmail = QueuedEmail(
    id: int, to: string, subject: string, body: string, templateName: Option<string>,
    status: string, scheduledAt: int, attempts: int, maxAttempts: int,
    errorMessage: Option<string>, sentAt: Option<int>, createdAt: int)

  const DayMs: int := 24 * 60 * 60 * 1000

  /** The rows `processEmailQueue` selects: pending, due and with attempts left. */
  predicate Due(e: QueuedEmail, now: int) {
    e.status == "pending" && e.scheduledAt <= now && e.attempts < e.maxAttempts
  }

  function DueAt(now: int): QueuedEmail -> bool {
    (e: QueuedEmail) => Due(e, now)
  }

  function ScheduledFirst(): (QueuedEmail, QueuedEmail) -> bool {
    (a: QueuedEmail, b: QueuedEmail) => a.scheduledAt <= b.scheduledAt
  }

  lemma ScheduledFirstTotal()
    ensures Seqs.TotalPreorder(ScheduledFirst())
  {}

  function DueRows(queue: seq<QueuedEmail>, now: int): seq<QueuedEmail> {
    Seqs.Sort(Seqs.Filter(queue, DueAt(now)), ScheduledFirst())
  }

  /** `SELECT TOP (@limit) ... ORDER BY scheduled_at ASC`. */
  function Selection(queue: seq<QueuedEmail>, now: int, limit: nat): seq<QueuedEmail> {
    var due := DueRows(queue, now);
    if limit < |due| then due[..limit] else due
  }

  /** The due rows, each as often as in the table, in order of schedule. */
  lemma DueRowsSpec(queue: seq<QueuedEmail>, now: int)
    ensures multiset(DueRows(queue, now)) == multiset(Seqs.Filter(queue, DueAt(now)))
    ensures forall e :: e in DueRows(queue, now) <==> e in queue && Due(e, now)
    ensures Seqs.Sorted(DueRows(queue, now), ScheduledFirst())
  {
    var f := Seqs.Filter(queue, DueAt(now));
    var due := DueRows(queue, now);
    Seqs.SortPermutation(f, ScheduledFirst());
    ScheduledFirstTotal();
    Seqs.SortSorted(f, ScheduledFirst());
    forall e ensures e in due <==> e in f {
      assert e in due <==> e in multiset(due);
    }
  }

  /** The selection holds only due rows of the queue, at most `limit` of them, in order of
      schedule, and no due row left out is scheduled before a selected one. */
  lemma SelectionSpec(queue: seq<QueuedEmail>, now: int, limit: nat)
    ensures forall e :: e in Selection(queue, now, limit) ==> e in queue && Due(e, now)
    ensures |Selection(queue, now, limit)| <= limit
    ensures |Selection(queue, now, limit)| == limit || forall e :: e in queue && Due(e, now) ==> e in Selection(queue, now, limit)
    ensures Seqs.Sorted(Selection(queue, now, limit), ScheduledFirst())
    ensures forall e, x :: e in queue && Due(e, now) && e !in Selection(queue, now, limit) && x in Selection(queue, now, limit) ==>
      x.scheduledAt <= e.scheduledAt
  {
    var due := DueRows(queue, now);
    var sel := Selection(queue, now, limit);
    DueRowsSpec(queue, now);
    assert forall e :: e in sel ==> e in due;
    forall e, x | e in queue && Due(e, now) && e !in sel && x in sel ensures x.scheduledAt <= e.scheduledAt {
      var j :| 0 <= j < |due| && due[j] == e;
      var i :| 0 <= i < |sel| && sel[i] == x;
      assert j >= |sel|;
      assert ScheduledFirst()(due[i], due[j]);
    }
  }

  /** The new state of a row after one send attempt: `None` is a successful send, and
      `Some(message)` a failure with its error message. */
  function AfterAttempt(e: QueuedEmail, outcome: Option<string>, now: int): (r: QueuedEmail)
    ensures r.id == e.id && r.scheduledAt == e.scheduledAt && r.maxAttempts == e.maxAttempts
    ensures outcome.None? ==> r == e.(status := "sent", sentAt := Some(now))
    ensures outcome.Some? ==> (r.attempts == e.attempts + 1 && r.errorMessage == outcome &&
      (r.status == "failed" <==> e.attempts + 1 >= e.maxAttempts || e.status == "failed"))
    ensures outcome.Some? ==> (e.attempts + 1 < e.maxAttempts ==> r.status == e.status)
  {
    match outcome
    case None => e.(status := "sent", sentAt := Some(now))
    case Some(message) =>
      e.(attempts := e.attempts + 1, errorMessage := Some(message),
         status := if e.attempts + 1 >= e.maxAttempts then "failed" else e.status)
  }

  /** A due row leaves the pending state for good on success, and after its last allowed
      failure; until then it stays pending with one attempt more. */
  lemma AttemptOutcome(e: QueuedEmail, outcome: Option<string>, now: int, later: int)
    requires Due(e, now)
    ensures outcome.None? ==> AfterAttempt(e, outcome, now).status == "sent" && !Due(AfterAttempt(e, outcome, now), later)
    ensures outcome.Some? && e.attempts + 1 >= e.maxAttempts ==>
      AfterAttempt(e, outcome, now).status == "failed" && !Due(AfterAttempt(e, outcome, now), later)
    ensures outcome.Some? && e.attempts + 1 < e.maxAttempts ==>
      AfterAttempt(e, outcome, now).status == "pending" && (Due(AfterAttempt(e, outcome, now), later) <==> e.scheduledAt <= later)
  {}

  /** `UPDATE email_queue ... WHERE id = @id`. */
  function UpdateById(queue: seq<QueuedEmail>, id: int, outcome: Option<string>, now: int): (r: seq<QueuedEmail>)
    ensures |r| == |queue|
    ensures forall k :: 0 <= k < |r| ==> r[k] == if queue[k].id == id then AfterAttempt(queue[k], outcome, now) else queue[k]
  {
    seq(|queue|, k requires 0 <= k < |queue| => if queue[k].id == id then AfterAttempt(queue[k], outcome, now) else queue[k])
  }

  /** The queue after the first `n` selected rows were attempted, the `i`-th with outcome
      `outcome(i)`. */
  function Applied(queue: seq<QueuedEmail>, sel: seq<QueuedEmail>, outcome: nat -> Option<string>, now: int, n: nat): (r: seq<QueuedEmail>)
    requires n <= |sel|
    ensures |r| == |queue|
    ensures forall k :: 0 <= k < |r| ==> r[k].id == queue[k].id
  {
    if n == 0 then queue else UpdateById(Applied(queue, sel, outcome, now, n - 1), sel[n - 1].id, outcome(n - 1), now)
  }

  /** Position of the first of the first `n` selected rows with that id. */
  function Position(sel: seq<QueuedEmail>, id: int, n: nat): (r: Option<nat>)
    requires n <= |sel|
    ensures r.Some? ==> r.value < n && sel[r.value].id == id
    ensures r.None? <==> forall j :: 0 <= j < n ==> sel[j].id != id
  {
    if n == 0 then None
    else if Position(sel, id, n - 1).Some? then Position(sel, id, n - 1)
    else if sel[n - 1].id == id then Some(n - 1)
    else None
  }

  ghost predicate DistinctIds(rows: seq<QueuedEmail>) {
    forall i, j :: 0 <= i < |rows| && 0 <= j < |rows| && i != j ==> rows[i].id != rows[j].id
  }

  /** With distinct selected ids, each selected row is attempted exactly once and every
      other row is left as it was. */
  lemma {:induction false} AppliedEffect(queue: seq<QueuedEmail>, sel: seq<QueuedEmail>, outcome: nat -> Option<string>, now: int, n: nat)
    requires n <= |sel| && DistinctIds(sel)
    ensures forall k :: 0 <= k < |queue| ==> (Applied(queue, sel, outcome, now, n)[k] ==
      match Position(sel, queue[k].id, n)
      case None => queue[k]
      case Some(j) => AfterAttempt(queue[k], outcome(j), now))
  {
    if n > 0 {
      AppliedEffect(queue, sel, outcome, now, n - 1);
      forall k | 0 <= k < |queue| && queue[k].id == sel[n - 1].id ensures Position(sel, queue[k].id, n - 1).None? {
        forall j | 0 <= j < n - 1 ensures sel[j].id != queue[k].id {}
      }
    }
  }

  /** Attempts change no id, so the ids stay unique and below the next one. */
  lemma AppliedKeepsIds(queue: seq<QueuedEmail>, sel: seq<QueuedEmail>, outcome: nat -> Option<string>, now: int, n: nat, nextId: int)
    requires n <= |sel| && UniqueIds(queue) && forall k :: 0 <= k < |queue| ==> queue[k].id < nextId
    ensures UniqueIds(Applied(queue, sel, outcome, now, n))
    ensures forall k :: 0 <= k < |queue| ==> Applied(queue, sel, outcome, now, n)[k].id < nextId
  {
    var r := Applied(queue, sel, outcome, now, n);
    assert forall k :: 0 <= k < |r| ==> r[k].id == queue[k].id;
  }

  ghost predicate UniqueIds(rows: seq<QueuedEmail>) {
    forall i, j :: 0 <= i < |rows| && 0 <= j < |rows| && rows[i].id == rows[j].id ==> i == j
  }

  /** Rows of a table with unique ids are selected at most once each. */
  lemma SelectionDistinct(queue: seq<QueuedEmail>, now: int, limit: nat)
    requires UniqueIds(queue)
    ensures DistinctIds(Selection(queue, now, limit))
  {
    var f := Seqs.Filter(queue, DueAt(now));
    var due := DueRows(queue, now);
    var sel := Selection(queue, now, limit);
    assert Seqs.Distinct(queue);
    Seqs.FilterDistinct(queue, DueAt(now));
    DueRowsSpec(queue, now);
    Seqs.DistinctPermutation(f, due);
    forall i, j | 0 <= i < |sel| && 0 <= j < |sel| && i != j ensures sel[i].id != sel[j].id {
      assert sel[i] == due[i] && sel[j] == due[j] && due[i] != due[j];
      assert due[i] in queue && due[j] in queue;
      var a :| 0 <= a < |queue| && queue[a] == due[i];
      var b :| 0 <= b < |queue| && queue[b] == due[j];
    }
  }

  /** `queueEmail`: a pending row with no attempts, due at `scheduledAt || now`. */
  function NewEmail(id: int, to: string, subject: string, body: string, templateName: Option<string>,
                    scheduledAt: Option<int>, now: int, maxAttempts: int): (e: QueuedEmail)
    ensures e.status == "pending" && e.attempts == 0 && e.errorMessage.None? && e.sentAt.None?
    ensures e.scheduledAt == scheduledAt.GetOr(now) && e.createdAt == now
  {
    QueuedEmail(id, to, subject, body, templateName, "pending", scheduledAt.GetOr(now), 0, maxAttempts, None, None, now)
  }

  /** A queued e-mail is due from its scheduled time on, as long as it may be attempted
      at all. */
  lemma NewEmailDue(id: int, to: string, subject: string, body: string, templateName: Option<string>,
                    scheduledAt: Option<int>, now: int, maxAttempts: int, t: int)
    ensures Due(NewEmail(id, to, subject, body, templateName, scheduledAt, now, maxAttempts), t) <==>
      scheduledAt.GetOr(now) <= t && 0 < maxAttempts
  {}

  function Kept(cutoff: int): QueuedEmail -> bool {
    (e: QueuedEmail) => !Stale(e, cutoff)
  }

  /** `cleanEmailQueue`'s condition. */
  predicate Stale(e: QueuedEmail, cutoff: int) {
    (e.status == "sent" || e.status == "failed") && e.createdAt < cutoff
  }

  function Cleaned(queue: seq<QueuedEmail>, daysOld: int, now: int): (r: seq<QueuedEmail>)
    ensures forall e :: e in r <==> e in queue && !Stale(e, now - daysOld * DayMs)
    ensures |r| <= |queue|
  {
    Seqs.Filter(queue, Kept(now - daysOld * DayMs))
  }

  /** The `email_queue` table. */
  class EmailQueue {
    var queue: seq<QueuedEmail>
    var nextId: int
    /** The table's default for `max_attempts`. */
    const defaultMaxAttempts: int

    ghost predicate Valid()
      reads this
    {
      UniqueIds(queue) && forall k :: 0 <= k < |queue| ==> queue[k].id < nextId
    }

    constructor (maxAttempts: int)
      ensures Valid() && queue == [] && defaultMaxAttempts == maxAttempts
    {
      queue := [];
      nextId := 1;
      defaultMaxAttempts := maxAttempts;
    }

    /** `queueEmail`. */
    method QueueEmail(to: string, subject: string, body: string, templateName: Option<string>, scheduledAt: Option<int>, now: int)
      returns (e: QueuedEmail)
      requires Valid()
      modifies this
      ensures Valid()
      ensures e == NewEmail(old(nextId), to, subject, body, templateName, scheduledAt, now, defaultMaxAttempts)
      ensures queue == old(queue) + [e] && nextId == old(nextId) + 1
    {
      e := NewEmail(nextId, to, subject, body, templateName, scheduledAt, now, defaultMaxAttempts);
      queue := queue + [e];
      nextId := nextId + 1;
    }

    /** `processEmailQueue`: the selected rows are attempted in order; `outcome(i)` is the
        transport's answer to the `i`-th send. */
    method ProcessEmailQueue(limit: nat, outcome: nat -> Option<string>, now: int) returns (processed: nat)
      requires Valid()
      modifies this
      ensures Valid() && nextId == old(nextId)
      ensures processed == |Selection(old(queue), now, limit)|
      ensures queue == Applied(old(queue), Selection(old(queue), now, limit), outcome, now, processed)
      ensures forall k :: 0 <= k < |queue| ==> (queue[k] ==
        match Position(Selection(old(queue), now, limit), old(queue)[k].id, processed)
        case None => old(queue)[k]
        case Some(j) => AfterAttempt(old(queue)[k], outcome(j), now))
    {
      var emails := Selection(queue, now, limit);
      ghost var start := queue;
      AttemptAll(emails, outcome, now);
      processed := |emails|;
      SelectionDistinct(start, now, limit);
      AppliedEffect(start, emails, outcome, now, processed);
      AppliedKeepsIds(start, emails, outcome, now, processed, nextId);
    }

    /** The loop of `processEmailQueue`: each row of `emails` in turn is sent and its
        queue row updated. */
    method AttemptAll(emails: seq<QueuedEmail>, outcome: nat -> Option<string>, now: int)
      modifies this
      ensures queue == Applied(old(queue), emails, outcome, now, |emails|) && nextId == old(nextId)
    {
      ghost var start := queue;
      var i := 0;
      while i < |emails|
        invariant 0 <= i <= |emails|
        invariant queue == Applied(start, emails, outcome, now, i)
        invariant nextId == old(nextId)
      {
        queue := UpdateById(queue, emails[i].id, outcome(i), now);
        i := i + 1;
      }
    }

    /** `cleanEmailQueue`: sent and failed rows created more than `daysOld` days ago are
        deleted. */
    method CleanEmailQueue(daysOld: int, now: int) returns (deleted: nat)
      requires Valid()
      modifies this
      ensures Valid() && nextId == old(nextId)
      ensures queue == Cleaned(old(queue), daysOld, now)
      ensures deleted == |old(queue)| - |queue|
    {
      var before := queue;
      queue := Cleaned(queue, daysOld, now);
      deleted := |before| - |queue|;
      CleanedKeepsIds(before, daysOld, now, nextId);
    }
  }

  lemma CleanedKeepsIds(queue: seq<QueuedEmail>, daysOld: int, now: int, nextId: int)
    requires UniqueIds(queue) && forall k :: 0 <= k < |queue| ==> queue[k].id < nextId
    ensures UniqueIds(Cleaned(queue, daysOld, now))
    ensures forall k :: 0 <= k < |Cleaned(queue, daysOld, now)| ==> Cleaned(queue, daysOld, now)[k].id < nextId
  {
    var r := Cleaned(queue, daysOld, now);
    Seqs.FilterDistinct(queue, Kept(now - daysOld * DayMs));
    forall i, j | 0 <= i < |r| && 0 <= j < |r| && r[i].id == r[j].id ensures i == j {
      assert r[i] in queue && r[j] in queue;
      var a :| 0 <= a < |queue| && queue[a] == r[i];
      var b :| 0 <= b < |queue| && queue[b] == r[j];
    }
    forall k | 0 <= k < |r| ensures r[k].id < nextId {
      assert r[k] in queue;
    }
  }

  /** Pending rows are never cleaned away. */
  lemma CleanKeepsPending(queue: seq<QueuedEmail>, daysOld: int, now: int)
    ensures forall e :: e in queue && e.status == "pending" ==> e in Cleaned(queue, daysOld, now)
  {}
}

/** Automatic content moderation: active rules are checked in order against a post or a
    comment, and the first violation decides what happens to it. */
module Moderation {
  import opened Wrappers
  import opened Text
  import Seqs
  import JsObjects

  /** A row of `content_moderation_rules`, in the order the active rules are read
      (`severity DESC, created_at ASC`). */
  datatype Rule = Rule(id: int, name: string, ruleType: string, pattern: string, action: string, severity: int)

  datatype Violation = Violation(ruleId: int, ruleName: string, ruleType: string, action: string, severity: int, matched: string)

  /** The object `checkContent` returns. */
  datatype Outcome = Outcome(hasViolations: bool, violations: seq<Violation>, action: string, severity: Option<int>)

  /** The regular-expression engine behind a `regex` rule: the first match of
      `content.match(new RegExp(pattern, 'gi'))`, or `None` when there is no match or the
      pattern does not compile (the error is logged and the rule passes). */
  type RegexEngine = (string, string) -> Option<string>

  // ------------------------------------------------------------------ keyword rules

  /** The keywords of a rule: its pattern split on `,`, each trimmed and lower-cased. */
  function Keywords(pattern: string): seq<string> {
    var parts := Split(pattern, ',');
    seq(|parts|, k requires 0 <= k < |parts| => ToLower(Trim(parts[k])))
  }

  /** Index of the first keyword, from `i` on, that occurs in `content`. */
  function FirstContained(content: string, ks: seq<string>, i: nat): (r: Option<nat>)
    requires i <= |ks|
    ensures r.Some? ==> i <= r.value < |ks| && Contains(content, ks[r.value])
    ensures r.Some? ==> forall k :: i <= k < r.value ==> !Contains(content, ks[k])
    ensures r.None? ==> forall k :: i <= k < |ks| ==> !Contains(content, ks[k])
    decreases |ks| - i
  {
    if i == |ks| then None
    else if Contains(content, ks[i]) then Some(i)
    else FirstContained(content, ks, i + 1)
  }

  /** `checkKeywordRule`: the first keyword the (already lower-cased) content contains. */
  function CheckKeywordRule(contentLower: string, rule: Rule): (r: Option<string>)
    ensures r.Some? ==> r.value in Keywords(rule.pattern) && Contains(contentLower, r.value)
    ensures r.Some? ==> exists j :: (0 <= j < |Keywords(rule.pattern)| && r.value == Keywords(rule.pattern)[j]
                                   && forall k :: 0 <= k < j ==> !Contains(contentLower, Keywords(rule.pattern)[k]))
    ensures r.None? <==> forall k :: 0 <= k < |Keywords(rule.pattern)| ==> !Contains(contentLower, Keywords(rule.pattern)[k])
  {
    var ks := Keywords(rule.pattern);
    match FirstContained(contentLower, ks, 0)
    case Some(j) => Some(ks[j])
    case None => None
  }

  /** A blank keyword, such as the one a trailing comma leaves, is contained in every
      content: a rule whose first keyword is blank matches everything. */
  lemma {:induction false} BlankKeywordMatchesAll(content: string, rule: Rule)
    requires |Keywords(rule.pattern)| > 0 && Keywords(rule.pattern)[0] == ""
    ensures CheckKeywordRule(content, rule) == Some("")
  {
    assert StartsWith(content, "");
    assert Contains(content, "");
  }

  // ------------------------------------------------------------------ spam rules

  /** Length of the run of non-white-space characters at the start of `s`. */
  function NonSpaceRun(s: string): (n: nat)
    ensures n <= |s|
    ensures forall k :: 0 <= k < n ==> !IsSpace(s[k])
    ensures n == |s| || IsSpace(s[n])
    decreases |s|
  {
    if |s| > 0 && !IsSpace(s[0]) then 1 + NonSpaceRun(s[1..]) else 0
  }

  /** Length of a match of `https?:\/\/[^\s]+` at index `i` (greedy), 0 for none. */
  function UrlAt(s: string, i: nat): (n: nat)
    requires i <= |s|
    ensures i + n <= |s|
    ensures n > 0 ==> StartsWith(s[i..], "http://") || StartsWith(s[i..], "https://")
  {
    var t := s[i..];
    var scheme := if StartsWith(t, "https://") then 8 else if StartsWith(t, "http://") then 7 else 0;
    if scheme == 0 then 0
    else
      var run := NonSpaceRun(t[scheme..]);
      if run == 0 then 0 else scheme + run
  }

  /** Number of matches of the global URL expression from index `i` on. */
  function UrlCount(s: string, i: nat): (n: nat)
    requires i <= |s|
    ensures n <= |s| - i
    decreases |s| - i
  {
    if i == |s| then 0
    else
      var n := UrlAt(s, i);
      if n > 0 then 1 + UrlCount(s, i + n) else UrlCount(s, i + 1)
  }

  /** The words of `content.split(/\s+/)`, without the empty strings that leading or
      trailing white space adds (they are too short to be counted). */
  function Words(s: string): (ws: seq<string>)
    ensures forall k :: 0 <= k < |ws| ==> |ws[k]| > 0
    decreases |s|
  {
    if |s| == 0 then []
    else if IsSpace(s[0]) then Words(s[1..])
    else
      var n := NonSpaceRun(s);
      [s[..n]] + Words(s[n..])
  }

  /** `word.length > 3`, in UTF-16 code units. */
  predicate Long(w: string) { Utf16Length(w) > 3 }

  /** The properties every plain object inherits from `Object.prototype` that are longer
      than three characters. For such a word `wordCount[word] || 0` is the inherited
      value, not 0: a function, so the count becomes the string
      `"function …() { [native code] }1"` (and a longer string at each further
      occurrence), which `count > 5` compares as `NaN`; for `__proto__` the assignment is
      ignored and no own key appears. Either way the word is never reported. */
  const ObjectPrototypeNames: set<string> := {
    "constructor", "__defineGetter__", "__defineSetter__", "hasOwnProperty",
    "__lookupGetter__", "__lookupSetter__", "isPrototypeOf", "propertyIsEnumerable",
    "toString", "valueOf", "__proto__", "toLocaleString" }

  /** The words `checkSpamRule` counts with a number: long words that do not name an
      inherited property. */
  predicate Counted(w: string) { Long(w) && w !in ObjectPrototypeNames }

  /** Occurrences of `w` in `ws`. */
  function Occurrences(ws: seq<string>, w: string): nat
    decreases |ws|
  {
    if |ws| == 0 then 0
    else Occurrences(ws[..|ws| - 1], w) + (if ws[|ws| - 1] == w then 1 else 0)
  }

  /** The numerically counted keys of the word-count object in insertion order: each
      word `counted` accepts, once, at its first occurrence. */
  function Keys(ws: seq<string>, counted: string -> bool): (ks: seq<string>)
    ensures forall w :: w in ks <==> counted(w) && w in ws
    decreases |ws|
  {
    if |ws| == 0 then []
    else
      var ks := Keys(ws[..|ws| - 1], counted);
      var w := ws[|ws| - 1];
      assert ws == ws[..|ws| - 1] + [w];
      if counted(w) && w !in ks then ks + [w] else ks
  }

  /** The word counts after the loop: every counted word with its number of
      occurrences. */
  function CountMap(ws: seq<string>, counted: string -> bool): map<string, nat> {
    map w | w in Keys(ws, counted) :: Occurrences(ws, w)
  }

  /** The first entry, from index `j` on, whose count is above 5. */
  function FirstRepeated(order: seq<string>, counts: map<string, nat>, j: nat): (r: Option<string>)
    requires j <= |order|
    ensures r.Some? ==> r.value in counts && counts[r.value] > 5 && r.value in order[j..]
    ensures r.Some? ==> exists i :: (j <= i < |order| && order[i] == r.value
                                   && forall k :: j <= k < i ==> !(order[k] in counts && counts[order[k]] > 5))
    ensures r.None? ==> forall k :: j <= k < |order| ==> !(order[k] in counts && counts[order[k]] > 5)
    decreases |order| - j
  {
    if j == |order| then None
    else if order[j] in counts && counts[order[j]] > 5 then Some(order[j])
    else FirstRepeated(order, counts, j + 1)
  }

  function CapsCount(s: string): nat { Seqs.Count(s, IsUpper) }

  function LetterCount(s: string): nat { Seqs.Count(s, IsLetter) }

  /** The caps test `caps / letters > 0.5` over more than ten letters, in integers. */
  predicate TooManyCaps(s: string) { LetterCount(s) > 10 && 2 * CapsCount(s) > LetterCount(s) }

  function RepeatedMessage(w: string, count: nat): string {
    "\"" + w + "\" repeated " + NatToString(count) + " times"
  }

  /** The three spam tests in order, with the words `counted` accepts entering the
      repetition test: more than three URLs, then a word repeated more than five times
      (the first in enumeration order), then excessive capitals. */
  function SpamCheckBy(content: string, counted: string -> bool): (r: Option<string>)
    ensures UrlCount(content, 0) > 3 ==> r == Some(NatToString(UrlCount(content, 0)) + " URLs found")
  {
    var urls := UrlCount(content, 0);
    if urls > 3 then Some(NatToString(urls) + " URLs found")
    else
      var ws := Words(content);
      var counts := CountMap(ws, counted);
      var order := JsObjects.KeyOrder(Keys(ws, counted));
      match FirstRepeated(order, counts, 0)
      case Some(w) => Some(RepeatedMessage(w, counts[w]))
      case None => if TooManyCaps(content) then Some("Excessive caps usage") else None
  }

  /** `checkSpamRule` as written: words naming an inherited property never count. */
  function SpamCheck(content: string): (r: Option<string>)
    ensures UrlCount(content, 0) > 3 ==> r == Some(NatToString(UrlCount(content, 0)) + " URLs found")
  {
    SpamCheckBy(content, Counted)
  }

  /** `checkSpamRule` as evidently intended: every word longer than three characters is
      counted, as a `Map` would count it. */
  function SpamCheckIntended(content: string): (r: Option<string>)
    ensures UrlCount(content, 0) > 3 ==> r == Some(NatToString(UrlCount(content, 0)) + " URLs found")
  {
    SpamCheckBy(content, Long)
  }

  /** Content passes the spam tests exactly when it has at most three URLs, no counted
      word occurs more than five times and capitals are not in excess. */
  lemma SpamCheckByPasses(content: string, counted: string -> bool)
    ensures SpamCheckBy(content, counted).None? <==>
      UrlCount(content, 0) <= 3
      && (forall w :: counted(w) && w in Words(content) ==> Occurrences(Words(content), w) <= 5)
      && !TooManyCaps(content)
  {
    var ws := Words(content);
    JsObjects.KeyOrderCovers(Keys(ws, counted));
    assert forall w :: counted(w) && w in ws ==> w in CountMap(ws, counted);
  }

  /** As written, content passes the spam rule exactly when it has at most three URLs, no
      long word other than an inherited property name occurs more than five times and
      capitals are not in excess. */
  lemma SpamCheckPasses(content: string)
    ensures SpamCheck(content).None? <==>
      UrlCount(content, 0) <= 3
      && (forall w :: Long(w) && w !in ObjectPrototypeNames && w in Words(content) ==> Occurrences(Words(content), w) <= 5)
      && !TooManyCaps(content)
  {
    SpamCheckByPasses(content, Counted);
  }

  /** As intended, content passes exactly when it has at most three URLs, no long word
      occurs more than five times and capitals are not in excess. */
  lemma SpamCheckIntendedPasses(content: string)
    ensures SpamCheckIntended(content).None? <==>
      UrlCount(content, 0) <= 3
      && (forall w :: Long(w) && w in Words(content) ==> Occurrences(Words(content), w) <= 5)
      && !TooManyCaps(content)
  {
    SpamCheckByPasses(content, Long);
  }

  /** The discrepancy: content whose only excess is an inherited property name written
      more than five times (`constructor` six times, say) passes the rule as written and
      is flagged as intended. */
  lemma PrototypeWordPasses(content: string, w: string)
    requires w in ObjectPrototypeNames && Occurrences(Words(content), w) > 5
    requires UrlCount(content, 0) <= 3 && !TooManyCaps(content)
    requires forall v :: Counted(v) && v in Words(content) ==> Occurrences(Words(content), v) <= 5
    ensures SpamCheck(content).None?
    ensures SpamCheckIntended(content).Some?
  {
    var ws := Words(content);
    SpamCheckPasses(content);
    assert SpamCheck(content).None?;
    assert w in ws by {
      if w !in ws {
        OccurrencesAbsent(ws, w);
      }
    }
    assert Long(w) by { PrototypeNamesLong(w); }
    SpamCheckIntendedPasses(content);
  }

  /** Two characters above U+FFFF, such as two emoji, are four code units: long enough
      to be counted. */
  lemma {:induction false} AstralWordLong(w: string)
    requires |w| == 2 && w[0] as int > 0xFFFF && w[1] as int > 0xFFFF
    ensures Long(w)
  {
    Utf16LengthAstral(w);
  }

  /** Every inherited property name is long enough to be counted. */
  lemma PrototypeNamesLong(w: string)
    requires w in ObjectPrototypeNames
    ensures Long(w)
  {}

  lemma OccurrencesSnoc(ws: seq<string>, w: string, v: string)
    ensures Occurrences(ws + [w], v) == Occurrences(ws, v) + (if w == v then 1 else 0)
  {
    assert (ws + [w])[..|ws|] == ws;
  }

  lemma KeysSnoc(ws: seq<string>, w: string, counted: string -> bool)
    ensures Keys(ws + [w], counted) == if counted(w) && w !in Keys(ws, counted) then Keys(ws, counted) + [w] else Keys(ws, counted)
  {
    assert (ws + [w])[..|ws|] == ws;
  }

  /** `wordCount[word] = (wordCount[word] || 0) + 1` for a counted word; other words
      leave the numeric counts as they are. */
  function Bump(counts: map<string, nat>, w: string, counted: string -> bool): map<string, nat> {
    if !counted(w) then counts
    else if w in counts then counts[w := counts[w] + 1]
    else counts[w := 1]
  }

  /** One step of the counting loop. */
  lemma CountMapSnoc(ws: seq<string>, w: string, counted: string -> bool)
    ensures CountMap(ws + [w], counted) == Bump(CountMap(ws, counted), w, counted)
  {
    var m, b := CountMap(ws + [w], counted), Bump(CountMap(ws, counted), w, counted);
    CountMapSnocKeys(ws, w, counted);
    forall v | v in m ensures m[v] == b[v] {
      CountMapSnocValue(ws, w, v, counted);
    }
  }

  lemma CountMapSnocKeys(ws: seq<string>, w: string, counted: string -> bool)
    ensures CountMap(ws + [w], counted).Keys == Bump(CountMap(ws, counted), w, counted).Keys
  {
    KeysSnoc(ws, w, counted);
  }

  lemma CountMapSnocValue(ws: seq<string>, w: string, v: string, counted: string -> bool)
    requires v in CountMap(ws + [w], counted) && v in Bump(CountMap(ws, counted), w, counted)
    ensures CountMap(ws + [w], counted)[v] == Bump(CountMap(ws, counted), w, counted)[v]
  {
    OccurrencesSnoc(ws, w, v);
    if v == w && w !in Keys(ws, counted) {
      assert w !in ws;
      OccurrencesAbsent(ws, w);
    }
  }

  lemma {:induction false} OccurrencesAbsent(ws: seq<string>, w: string)
    requires w !in ws
    ensures Occurrences(ws, w) == 0
    decreases |ws|
  {
    if |ws| > 0 {
      assert ws[..|ws| - 1] <= ws;
      OccurrencesAbsent(ws[..|ws| - 1], w);
    }
  }

  /** The counting loop of `checkSpamRule`: `wordCount[word] = (wordCount[word] || 0) + 1`
      for every word longer than three characters, where only the words not naming an
      inherited property end with a numeric count. */
  method CountWords(ws: seq<string>) returns (counts: map<string, nat>, keys: seq<string>)
    ensures counts == CountMap(ws, Counted) && keys == Keys(ws, Counted)
  {
    counts, keys := map[], [];
    var i := 0;
    while i < |ws|
      invariant Tallied(ws, i, counts, keys)
    {
      var w := ws[i];
      ghost var before, keysBefore := counts, keys;
      if Long(w) && w !in ObjectPrototypeNames {
        if w in counts {
          counts := counts[w := counts[w] + 1];
        } else {
          counts := counts[w := 1];
          keys := keys + [w];
        }
      }
      CountStep(ws, i, before, keysBefore, counts, keys);
      i := i + 1;
    }
    assert ws[..|ws|] == ws;
  }

  /** `counts` and `keys` are the tally of the first `i` words. */
  ghost predicate Tallied(ws: seq<string>, i: nat, counts: map<string, nat>, keys: seq<string>) {
    i <= |ws| && counts == CountMap(ws[..i], Counted) && keys == Keys(ws[..i], Counted)
  }

  /** The counting loop's body takes the tally of `ws[..i]` to that of `ws[..i + 1]`. */
  lemma CountStep(ws: seq<string>, i: nat, counts: map<string, nat>, keys: seq<string>,
      counts': map<string, nat>, keys': seq<string>)
    requires i < |ws| && Tallied(ws, i, counts, keys)
    requires counts' == Bump(counts, ws[i], Counted)
    requires keys' == (if Counted(ws[i]) && ws[i] !in counts then keys + [ws[i]] else keys)
    ensures Tallied(ws, i + 1, counts', keys')
  {
    assert ws[..i + 1] == ws[..i] + [ws[i]];
    KeysSnoc(ws[..i], ws[i], Counted);
    CountMapSnoc(ws[..i], ws[i], Counted);
  }

  /** The search over `Object.entries(wordCount)` for a count above 5. */
  method FindRepeated(order: seq<string>, counts: map<string, nat>) returns (r: Option<string>)
    ensures r == FirstRepeated(order, counts, 0)
  {
    var j := 0;
    while j < |order|
      invariant 0 <= j <= |order|
      invariant FirstRepeated(order, counts, 0) == FirstRepeated(order, counts, j)
    {
      var w := order[j];
      if w in counts && counts[w] > 5 {
        return Some(w);
      }
      j := j + 1;
    }
    return None;
  }

  /** `checkSpamRule`. */
  method CheckSpamRule(content: string) returns (r: Option<string>)
    ensures r == SpamCheck(content)
  {
    var urls := UrlCount(content, 0);
    if urls > 3 {
      return Some(NatToString(urls) + " URLs found");
    }
    var counts, keys := CountWords(Words(content));
    var repeated := FindRepeated(JsObjects.KeyOrder(keys), counts);
    if repeated.Some? {
      r := Some(RepeatedMessage(repeated.value, counts[repeated.value]));
    } else if TooManyCaps(content) {
      r := Some("Excessive caps usage");
    } else {
      r := None;
    }
  }

  // ------------------------------------------------------------------ rule evaluation

  predicate IsCheckedType(t: string) { t == "keyword" || t == "regex" || t == "spam" }

  /** `checkRule`: keyword rules see the lower-cased content, regex and spam rules the
      content as written; `ai_filter` and every other type never match. */
  function CheckRule(content: string, rule: Rule, regex: RegexEngine): (r: Option<string>)
    ensures !IsCheckedType(rule.ruleType) ==> r.None?
    ensures rule.ruleType == "keyword" ==> r == CheckKeywordRule(ToLower(content), rule)
    ensures rule.ruleType == "spam" ==> r == SpamCheck(content)
  {
    match rule.ruleType
    case "keyword" => CheckKeywordRule(ToLower(content), rule)
    case "regex" => regex(rule.pattern, content)
    case "spam" => SpamCheck(content)
    case _ => None
  }

  method CheckRuleMethod(content: string, rule: Rule, regex: RegexEngine) returns (r: Option<string>)
    ensures r == CheckRule(content, rule, regex)
  {
    if rule.ruleType == "keyword" {
      r := CheckKeywordRule(ToLower(content), rule);
    } else if rule.ruleType == "regex" {
      r := regex(rule.pattern, content);
    } else if rule.ruleType == "spam" {
      r := CheckSpamRule(content);
    } else {
      r := None;
    }
  }

  function ViolationOf(rule: Rule, matched: string): Violation {
    Violation(rule.id, rule.name, rule.ruleType, rule.action, rule.severity, matched)
  }

  /** The violations `checkContent` records: one per matching rule, in rule order,
      stopping after the first matching `auto_remove` rule. */
  function Evaluate(content: string, rules: seq<Rule>, regex: RegexEngine): seq<Violation>
    decreases |rules|
  {
    if |rules| == 0 then []
    else
      match CheckRule(content, rules[0], regex)
      case None => Evaluate(content, rules[1..], regex)
      case Some(m) =>
        [ViolationOf(rules[0], m)] + (if rules[0].action == "auto_remove" then [] else Evaluate(content, rules[1..], regex))
  }

  /** Every matching rule, with no early stop: the reference for `Evaluate`. */
  function Collect(content: string, rules: seq<Rule>, regex: RegexEngine): seq<Violation>
    decreases |rules|
  {
    if |rules| == 0 then []
    else
      Found(content, rules[0], regex) + Collect(content, rules[1..], regex)
  }

  /** The violation one rule records when it matches. */
  function Found(content: string, rule: Rule, regex: RegexEngine): seq<Violation> {
    match CheckRule(content, rule, regex)
    case None => []
    case Some(m) => [ViolationOf(rule, m)]
  }

  predicate RemovesAt(content: string, rules: seq<Rule>, regex: RegexEngine, k: nat)
    requires k < |rules|
  {
    CheckRule(content, rules[k], regex).Some? && rules[k].action == "auto_remove"
  }

  /** With `j` the first matching `auto_remove` rule (or the end), the recorded violations
      are exactly those of every matching rule up to and including `j`. */
  lemma {:induction false} EvaluateStopsAtRemoval(content: string, rules: seq<Rule>, regex: RegexEngine, j: nat)
    requires j <= |rules|
    requires forall k :: 0 <= k < j ==> !RemovesAt(content, rules, regex, k)
    requires j < |rules| ==> RemovesAt(content, rules, regex, j)
    ensures Evaluate(content, rules, regex) == Collect(content, rules[..if j < |rules| then j + 1 else j], regex)
    decreases |rules|
  {
    var end := if j < |rules| then j + 1 else j;
    if |rules| > 0 {
      var tail := rules[1..];
      CollectPrefix(content, rules, regex, end);
      if j == 0 {
        assert tail[..0] == [];
        assert RemovesAt(content, rules, regex, 0);
      } else {
        assert !RemovesAt(content, rules, regex, 0);
        forall k | 0 <= k < j - 1 ensures !RemovesAt(content, tail, regex, k) {
          assert !RemovesAt(content, rules, regex, k + 1);
        }
        if j < |rules| { assert RemovesAt(content, rules, regex, j); }
        EvaluateStopsAtRemoval(content, tail, regex, j - 1);
      }
    }
  }

  /** Collecting over a non-empty prefix: the first rule's violation, then the rest. */
  lemma CollectPrefix(content: string, rules: seq<Rule>, regex: RegexEngine, end: nat)
    requires 0 < end <= |rules|
    ensures Collect(content, rules[..end], regex) == Found(content, rules[0], regex) + Collect(content, rules[1..][..end - 1], regex)
  {
    assert rules[..end][0] == rules[0];
    assert rules[..end][1..] == rules[1..][..end - 1];
  }

  /** `checkContent`'s summary: the first violation's action and severity, or `approve`
      with no severity. */
  function Summarize(vs: seq<Violation>): (o: Outcome)
    ensures o.violations == vs && o.hasViolations == (|vs| > 0)
    ensures |vs| > 0 ==> o.action == vs[0].action && o.severity == Some(vs[0].severity)
    ensures |vs| == 0 ==> o.action == "approve" && o.severity.None?
  {
    if |vs| > 0 then Outcome(true, vs, vs[0].action, Some(vs[0].severity))
    else Outcome(false, vs, "approve", None)
  }

  /** Content is approved exactly when no active rule matches it. */
  lemma {:induction false} ApproveIffNoMatch(content: string, rules: seq<Rule>, regex: RegexEngine)
    ensures Evaluate(content, rules, regex) == [] <==> forall k :: 0 <= k < |rules| ==> CheckRule(content, rules[k], regex).None?
    decreases |rules|
  {
    if |rules| > 0 {
      ApproveIffNoMatch(content, rules[1..], regex);
      assert forall k :: 1 <= k < |rules| ==> rules[k] == rules[1..][k - 1];
    }
  }

  /** Rules of types other than keyword, regex and spam (`ai_filter` among them) never
      produce a violation. */
  lemma UncheckedRulesApprove(content: string, rules: seq<Rule>, regex: RegexEngine)
    requires forall k :: 0 <= k < |rules| ==> !IsCheckedType(rules[k].ruleType)
    ensures Summarize(Evaluate(content, rules, regex)) == Outcome(false, [], "approve", None)
  {
    ApproveIffNoMatch(content, rules, regex);
  }

  /** The rules before `i` have been checked and found `violations`, none of them removing. */
  ghost predicate Scanned(content: string, rules: seq<Rule>, regex: RegexEngine, i: nat, violations: seq<Violation>) {
    i <= |rules| && Evaluate(content, rules, regex) == violations + Evaluate(content, rules[i..], regex)
  }

  /** Checking rule `i`: no match moves on; a match is recorded, and ends the scan when the
      rule's action is `auto_remove`. */
  lemma ScanStep(content: string, rules: seq<Rule>, regex: RegexEngine, i: nat, violations: seq<Violation>)
    requires i < |rules| && Scanned(content, rules, regex, i, violations)
    ensures CheckRule(content, rules[i], regex).None? ==> Scanned(content, rules, regex, i + 1, violations)
    ensures CheckRule(content, rules[i], regex).Some? && rules[i].action != "auto_remove" ==>
      Scanned(content, rules, regex, i + 1, violations + [ViolationOf(rules[i], CheckRule(content, rules[i], regex).value)])
    ensures CheckRule(content, rules[i], regex).Some? && rules[i].action == "auto_remove" ==>
      Evaluate(content, rules, regex) == violations + [ViolationOf(rules[i], CheckRule(content, rules[i], regex).value)]
  {
    assert rules[i..][0] == rules[i] && rules[i..][1..] == rules[i + 1..];
  }

  /** Every rule checked: the violations are all of them. */
  lemma ScanDone(content: string, rules: seq<Rule>, regex: RegexEngine, violations: seq<Violation>)
    requires Scanned(content, rules, regex, |rules|, violations)
    ensures Evaluate(content, rules, regex) == violations
  {
    assert rules[|rules|..] == [];
  }

  /** `checkContent`: the loop over the rules with its early `break`. */
  method CheckContent(content: string, rules: seq<Rule>, regex: RegexEngine) returns (result: Outcome)
    ensures result == Summarize(Evaluate(content, rules, regex))
  {
    var violations: seq<Violation> := [];
    var i := 0;
    if |rules| == 0 {
      return Summarize([]);
    }
    assert rules[0..] == rules;
    while i < |rules|
      invariant Scanned(content, rules, regex, i, violations)
    {
      var rule := rules[i];
      var violated := CheckRuleMethod(content, rule, regex);
      ScanStep(content, rules, regex, i, violations);
      if violated.Some? {
        violations := violations + [ViolationOf(rule, violated.value)];
        if rule.action == "auto_remove" {
          break;
        }
      }
      i := i + 1;
    }
    if i == |rules| {
      ScanDone(content, rules, regex, violations);
    }
    result := Summarize(violations);
  }

  // ------------------------------------------------------------------ decisions

  /** What moderation does besides answering: the audit row, the removal of the content,
      a report for manual review, or a notification to the author. */
  datatype Effect =
    | LogAction(action: string, notes: seq<Violation>)
    | RemoveTarget(reason: string)
    | FlagTarget(reason: string)
    | WarnAuthor(message: string)

  datatype Decision = Decision(approved: bool, action: string, reason: Option<string>, effects: seq<Effect>)

  /** `moderatePost`: removal for `auto_remove`, a report for `flag`, a warning for
      `warn_user`; any other outcome approves. */
  function ModeratePost(o: Outcome): (d: Decision)
    requires o.hasViolations == (|o.violations| > 0)
    ensures !d.approved <==> o.hasViolations && o.action == "auto_remove"
    ensures !o.hasViolations ==> d == Decision(true, "approved", None, [])
    ensures o.hasViolations ==> |d.effects| >= 1 && d.effects[0] == LogAction(o.action, o.violations)
    ensures d.action == "removed" ==> |d.effects| == 2 && d.effects[1] == RemoveTarget("Automatic moderation: " + o.violations[0].ruleName)
    ensures d.action in {"removed", "flagged", "warned"} ==> d.reason == Some(o.violations[0].ruleName)
  {
    if !o.hasViolations then Decision(true, "approved", None, [])
    else
      var name := o.violations[0].ruleName;
      var log := LogAction(o.action, o.violations);
      if o.action == "auto_remove" then Decision(false, "removed", Some(name), [log, RemoveTarget("Automatic moderation: " + name)])
      else if o.action == "flag" then Decision(true, "flagged", Some(name), [log, FlagTarget(name)])
      else if o.action == "warn_user" then Decision(true, "warned", Some(name), [log, WarnAuthor("Your content was flagged: " + name)])
      else Decision(true, "approved", None, [log])
  }

  /** `moderateComment`: removal for `auto_remove` and a report for `flag`; a
      `warn_user` outcome, and every other, approves the comment. */
  function ModerateComment(o: Outcome): (d: Decision)
    requires o.hasViolations == (|o.violations| > 0)
    ensures !d.approved <==> o.hasViolations && o.action == "auto_remove"
    ensures d.action == "approved" <==> !(o.hasViolations && (o.action == "auto_remove" || o.action == "flag"))
    ensures !o.hasViolations ==> d.effects == []
    ensures o.hasViolations ==> |d.effects| >= 1 && d.effects[0] == LogAction(o.action, o.violations)
    ensures forall k :: 0 <= k < |d.effects| ==> !d.effects[k].WarnAuthor?
  {
    if !o.hasViolations then Decision(true, "approved", None, [])
    else
      var name := o.violations[0].ruleName;
      var log := LogAction(o.action, o.violations);
      if o.action == "auto_remove" then Decision(false, "removed", Some(name), [log, RemoveTarget("Automatic moderation: " + name)])
      else if o.action == "flag" then Decision(true, "flagged", None, [log, FlagTarget(name)])
      else Decision(true, "approved", None, [log])
  }

  /** Whatever the rules are, a post is refused exactly when the first violation comes
      from an `auto_remove` rule. */
  lemma PostRefusedIffFirstRemoves(content: string, rules: seq<Rule>, regex: RegexEngine)
    ensures var vs := Evaluate(content, rules, regex);
            !ModeratePost(Summarize(vs)).approved <==> |vs| > 0 && vs[0].action == "auto_remove"
  {}

  // ------------------------------------------------------------------ rate of posting

  /** A post or comment row as `detectSpam` counts it. */
  datatype Authored = Authored(userId: int, createdAt: int)

  datatype SpamReport = SpamReport(isSpam: bool, count: nat, threshold: int)

  predicate Recent(a: Authored, userId: int, since: int) { a.userId == userId && a.createdAt > since }

  /** `detectSpam`: the user's rows of the chosen table created in the last
      `windowMinutes` minutes, compared with the threshold. */
  function DetectSpam(posts: seq<Authored>, comments: seq<Authored>, userId: int, contentType: string,
                      now: int, windowMinutes: int, threshold: int): (r: SpamReport)
    ensures r.isSpam <==> r.count >= threshold
    ensures r.threshold == threshold
    ensures r.count == |Seqs.Filter(if contentType == "post" then posts else comments,
                                    a => Recent(a, userId, now - windowMinutes * 60000))|
  {
    var table := if contentType == "post" then posts else comments;
    var count := Seqs.Count(table, a => Recent(a, userId, now - windowMinutes * 60000));
    SpamReport(count >= threshold, count, threshold)
  }
}

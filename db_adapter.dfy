/** The PostgreSQL side of the database adapter: SQL Server style queries with named
    `@param` placeholders are rewritten to positional `$n` placeholders, and a few
    SQL Server constructs to their PostgreSQL forms. */
module DbAdapter {
  import opened Wrappers
  import opened Text
  import Seqs
  import JsObjects

  datatype SqlValue = SqlNull | SqlInt(i: int) | SqlText(s: string) | SqlBool(b: bool)

  /** The `{ query, values }` pair handed to the PostgreSQL pool. */
  datatype Converted = Converted(query: string, values: seq<SqlValue>)

  /** A plain object of parameters: its keys in the order they were first assigned, and
      their current values. */
  datatype Inputs = Inputs(keys: seq<string>, vals: map<string, SqlValue>)

  predicate WellFormed(inp: Inputs) {
    Seqs.Distinct(inp.keys) && inp.vals.Keys == set k | k in inp.keys
  }

  /** `Object.entries(inputs)`. */
  function Entries(inp: Inputs): (es: seq<(string, SqlValue)>)
    requires WellFormed(inp)
    ensures |es| == |inp.keys|
  {
    var order := JsObjects.KeyOrder(inp.keys);
    JsObjects.KeyOrderPermutation(inp.keys);
    assert forall k :: 0 <= k < |order| ==> order[k] in multiset(inp.keys);
    seq(|order|, k requires 0 <= k < |order| => (order[k], inp.vals[order[k]]))
  }

  // ------------------------------------------------------------------ parameters

  /** `@key\b` occurs at index `i`. */
  predicate ParamAt(s: string, i: nat, key: string) {
    OccursAt(s, i, "@" + key) && Boundary(s, i + 1 + |key|)
  }

  /** `new RegExp('@' + key + '\\b', 'g')` with the replacement `$n`. */
  function ParamMatcher(key: string, n: nat): (string, nat) -> Option<Match> {
    (s: string, i: nat) => if ParamAt(s, i, key) then Some(Match(1 + |key|, "$" + NatToString(n))) else None
  }

  function ReplaceParam(s: string, key: string, n: nat): string {
    Rewrite(s, 0, ParamMatcher(key, n))
  }

  /** The query after the parameter loop has handled `entries`: the i-th entry (from 1)
      replaces its placeholders with `$i`. */
  function Bind(query: string, entries: seq<(string, SqlValue)>): string
    decreases |entries|
  {
    if |entries| == 0 then query
    else ReplaceParam(Bind(query, entries[..|entries| - 1]), entries[|entries| - 1].0, |entries|)
  }

  function Values(entries: seq<(string, SqlValue)>): seq<SqlValue> {
    seq(|entries|, k requires 0 <= k < |entries| => entries[k].1)
  }

  /** The first whole-word placeholder is replaced by `$n`, and the text before it is
      kept. */
  lemma FirstParamReplaced(s: string, key: string, n: nat, k: nat)
    requires k < |s| && ParamAt(s, k, key)
    requires forall j :: 0 <= j < k ==> !ParamAt(s, j, key)
    ensures ReplaceParam(s, key, n) == s[..k] + ("$" + NatToString(n)) + Rewrite(s, k + 1 + |key|, ParamMatcher(key, n))
  {
    var m := ParamMatcher(key, n);
    NoParamNoMatch(s, key, n, k);
    ParamMatches(s, key, n, k);
    RewriteFirst(s, k, m);
  }

  lemma NoParamNoMatch(s: string, key: string, n: nat, k: nat)
    requires k <= |s|
    requires forall j :: 0 <= j < k ==> !ParamAt(s, j, key)
    ensures forall j :: 0 <= j < k ==> !MatchesAt(s, j, ParamMatcher(key, n))
  {}

  lemma ParamMatches(s: string, key: string, n: nat, k: nat)
    requires k < |s| && ParamAt(s, k, key)
    ensures MatchesAt(s, k, ParamMatcher(key, n))
    ensures ParamMatcher(key, n)(s, k).value == Match(1 + |key|, "$" + NatToString(n))
  {}

  /** A query without a whole-word placeholder for `key` is left as it is. */
  lemma AbsentParamUnchanged(s: string, key: string, n: nat)
    requires forall j :: 0 <= j < |s| ==> !ParamAt(s, j, key)
    ensures ReplaceParam(s, key, n) == s
  {
    var m := ParamMatcher(key, n);
    forall j | 0 <= j < |s| ensures !MatchesAt(s, j, m) {}
    RewriteNoMatch(s, 0, m);
  }

  /** Word boundaries keep a placeholder from matching inside a longer one: binding
      `user` rewrites `@user` and leaves `@userId` alone. */
  lemma LongerNameUntouched()
    ensures ReplaceParam("@userId=@user", "user", 2) == "@userId=$2"
  {
    var s := "@userId=@user";
    var m := ParamMatcher("user", 2);
    assert !Boundary(s, 5);
    forall j | 0 <= j < 8 ensures !ParamAt(s, j, "user") {
      if j > 0 { assert s[j] != '@'; }
    }
    assert s[8..13] == "@user";
    assert ParamAt(s, 8, "user");
    FirstParamReplaced(s, "user", 2, 8);
    assert NatToString(2) == "2";
    assert s[..8] == "@userId=";
  }

  // ------------------------------------------------------------------ dialect

  /** `GETDATE()` in any letter case. */
  predicate GetdateAt(s: string, i: nat) {
    i + 9 <= |s| && ToLower(s[i..i + 9]) == "getdate()"
  }

  function GetdateMatcher(): (string, nat) -> Option<Match> {
    (s: string, i: nat) => if GetdateAt(s, i) then Some(Match(9, "NOW()")) else None
  }

  /** A match of `\bTOP\s+(\d+)\b` (any case) at index `i`: its length and the digits. */
  function TopAt(s: string, i: nat): (r: Option<(nat, string)>)
    requires i <= |s|
    ensures r.Some? ==> 0 < r.value.0 <= |s| - i && |r.value.1| > 0 && AllDigits(r.value.1)
  {
    if !(i + 3 <= |s| && Boundary(s, i) && ToLower(s[i..i + 3]) == "top") then None
    else
      var ws := SpacesFrom(s, i + 3);
      if ws == 0 then None
      else
        var d := DigitsFrom(s, i + 3 + ws);
        if d == 0 || !Boundary(s, i + 3 + ws + d) then None
        else Some((3 + ws + d, s[i + 3 + ws..i + 3 + ws + d]))
  }

  function TopMatcher(): (string, nat) -> Option<Match> {
    (s: string, i: nat) => if i <= |s| && TopAt(s, i).Some? then Some(Match(TopAt(s, i).value.0, "")) else None
  }

  /** Length of a match of `\bIDENTITY\s*\(\s*\d+\s*,\s*\d+\s*\)` (any case) at `i`. */
  function IdentityAt(s: string, i: nat): (n: nat)
    requires i <= |s|
    ensures n <= |s| - i
  {
    if !(i + 8 <= |s| && Boundary(s, i) && ToLower(s[i..i + 8]) == "identity") then 0
    else
      var p := i + 8 + SpacesFrom(s, i + 8);
      if p == |s| || s[p] != '(' then 0
      else
        var p1 := p + 1 + SpacesFrom(s, p + 1);
        var d1 := DigitsFrom(s, p1);
        var p2 := p1 + d1 + SpacesFrom(s, p1 + d1);
        if d1 == 0 || p2 == |s| || s[p2] != ',' then 0
        else
          var p3 := p2 + 1 + SpacesFrom(s, p2 + 1);
          var d2 := DigitsFrom(s, p3);
          var p4 := p3 + d2 + SpacesFrom(s, p3 + d2);
          if d2 == 0 || p4 == |s| || s[p4] != ')' then 0 else p4 + 1 - i
  }

  function IdentityMatcher(): (string, nat) -> Option<Match> {
    (s: string, i: nat) => if i <= |s| && IdentityAt(s, i) > 0 then Some(Match(IdentityAt(s, i), "SERIAL")) else None
  }

  /** The three dialect replacements, applied one after the other. */
  function Dialect(s: string): string {
    Rewrite(Rewrite(Rewrite(s, 0, GetdateMatcher()), 0, TopMatcher()), 0, IdentityMatcher())
  }

  /** `query.match(/\bTOP\s+(\d+)\b/i)`: the digits of the first match from `i` on. */
  function FirstTop(s: string, i: nat): (r: Option<string>)
    requires i <= |s|
    ensures r.Some? ==> |r.value| > 0 && AllDigits(r.value)
    decreases |s| - i
  {
    if i == |s| then None
    else match TopAt(s, i)
      case Some((_, digits)) => Some(digits)
      case None => FirstTop(s, i + 1)
  }

  /** `GETDATE()` becomes `NOW()` whatever its letter case. */
  lemma GetdateBecomesNow(s: string)
    requires ToLower(s) == "getdate()"
    ensures Rewrite(s, 0, GetdateMatcher()) == "NOW()"
  {
    assert s[0..9] == s;
    RewriteAt(s, 0, GetdateMatcher());
  }

  // ------------------------------------------------------------------ conversion

  /** `convertQueryToPostgreSQL(query, inputs)` for the entries of `inputs`. */
  function Convert(query: string, entries: seq<(string, SqlValue)>): (r: Converted)
    ensures |entries| == 0 ==> r == Converted(query, [])
    ensures |r.values| == |entries| && forall k :: 0 <= k < |entries| ==> r.values[k] == entries[k].1
    ensures |entries| > 0 && FirstTop(query, 0).None? ==> r.query == Dialect(Bind(query, entries))
    ensures |entries| > 0 && FirstTop(query, 0).Some? ==>
      r.query == if Contains(Dialect(Bind(query, entries)), "LIMIT") then Dialect(Bind(query, entries))
                 else Dialect(Bind(query, entries)) + " LIMIT " + FirstTop(query, 0).value
  {
    if |entries| == 0 then Converted(query, [])
    else
      var pg := Dialect(Bind(query, entries));
      var top := FirstTop(query, 0);
      Converted(if top.Some? && !Contains(pg, "LIMIT") then pg + " LIMIT " + top.value else pg, Values(entries))
  }

  /** Only the placeholders bind: a query that has none of the keys' placeholders keeps
      its text up to the dialect rewrites. */
  lemma {:induction false} BindWithoutPlaceholders(query: string, entries: seq<(string, SqlValue)>)
    requires forall e, j :: 0 <= e < |entries| && 0 <= j < |query| ==> !ParamAt(query, j, entries[e].0)
    ensures Bind(query, entries) == query
    decreases |entries|
  {
    if |entries| > 0 {
      var init := entries[..|entries| - 1];
      forall e, j | 0 <= e < |init| && 0 <= j < |query| ensures !ParamAt(query, j, init[e].0) {
        assert init[e] == entries[e];
      }
      BindWithoutPlaceholders(query, init);
      AbsentParamUnchanged(query, entries[|entries| - 1].0, |entries|);
    }
  }

  /** The parameter loop of `convertQueryToPostgreSQL` followed by the dialect rewrites. */
  method ConvertQueryToPostgreSQL(query: string, entries: seq<(string, SqlValue)>) returns (r: Converted)
    ensures r == Convert(query, entries)
  {
    if |entries| == 0 {
      return Converted(query, []);
    }
    var pgQuery := query;
    var values: seq<SqlValue> := [];
    var paramIndex := 1;
    while paramIndex <= |entries|
      invariant 1 <= paramIndex <= |entries| + 1
      invariant pgQuery == Bind(query, entries[..paramIndex - 1])
      invariant values == Values(entries[..paramIndex - 1])
    {
      var (key, value) := entries[paramIndex - 1];
      assert entries[..paramIndex][..paramIndex - 1] == entries[..paramIndex - 1];
      pgQuery := ReplaceParam(pgQuery, key, paramIndex);
      values := values + [value];
      paramIndex := paramIndex + 1;
    }
    assert entries[..|entries|] == entries;
    pgQuery := Dialect(pgQuery);
    var topMatch := FirstTop(query, 0);
    if topMatch.Some? && !Contains(pgQuery, "LIMIT") {
      pgQuery := pgQuery + " LIMIT " + topMatch.value;
    }
    r := Converted(pgQuery, values);
  }

  /** `PostgreSQLRequest`: collects named inputs, then converts the query it is given. */
  class PostgreSQLRequest {
    var names: seq<string>
    var inputs: map<string, SqlValue>

    ghost predicate Valid() reads this {
      WellFormed(Inputs(names, inputs))
    }

    constructor ()
      ensures Valid() && names == [] && inputs == map[]
    {
      names := [];
      inputs := map[];
    }

    /** `input(name, type, value)`: records the value (the last one per name wins) and
        returns the request itself for chaining. */
    method Input(name: string, value: SqlValue) returns (self: PostgreSQLRequest)
      requires Valid()
      modifies this
      ensures Valid() && self == this
      ensures inputs == old(inputs)[name := value]
      ensures names == if name in old(inputs) then old(names) else old(names) + [name]
    {
      if name !in inputs {
        names := names + [name];
      }
      inputs := inputs[name := value];
      self := this;
    }

    /** `query(sqlQuery)`: the converted query and values sent to the pool. */
    method Query(sqlQuery: string) returns (c: Converted)
      requires Valid()
      ensures c == Convert(sqlQuery, Entries(Inputs(names, inputs)))
    {
      c := ConvertQueryToPostgreSQL(sqlQuery, Entries(Inputs(names, inputs)));
    }
  }

  /** Enumerating an object whose keys were assigned in enumeration order gives that
      order back. */
  lemma KeyOrderStable(keys: seq<string>)
    ensures JsObjects.KeyOrder(JsObjects.KeyOrder(keys)) == JsObjects.KeyOrder(keys)
  {
    var idx := Seqs.Filter(keys, JsObjects.IsArrayIndex);
    var sorted := Seqs.Sort(idx, JsObjects.IndexLe);
    var rest := Seqs.Filter(keys, JsObjects.NotArrayIndex);
    SortedAreIndices(idx);
    Seqs.FilterAppend(sorted, rest, JsObjects.IsArrayIndex);
    Seqs.FilterAppend(sorted, rest, JsObjects.NotArrayIndex);
    Seqs.FilterAll(sorted, JsObjects.IsArrayIndex);
    Seqs.FilterNone(rest, JsObjects.IsArrayIndex);
    Seqs.FilterNone(sorted, JsObjects.NotArrayIndex);
    Seqs.FilterAll(rest, JsObjects.NotArrayIndex);
    assert Seqs.Filter(sorted + rest, JsObjects.IsArrayIndex) == sorted;
    assert Seqs.Filter(sorted + rest, JsObjects.NotArrayIndex) == rest;
    JsObjects.IndexLeTotal();
    Seqs.SortSorted(idx, JsObjects.IndexLe);
    Seqs.SortOfSorted(sorted, JsObjects.IndexLe);
  }

  lemma SortedAreIndices(idx: seq<string>)
    requires forall i :: 0 <= i < |idx| ==> JsObjects.IsArrayIndex(idx[i])
    ensures forall i :: 0 <= i < |Seqs.Sort(idx, JsObjects.IndexLe)| ==> JsObjects.IsArrayIndex(Seqs.Sort(idx, JsObjects.IndexLe)[i])
  {
    var sorted := Seqs.Sort(idx, JsObjects.IndexLe);
    Seqs.SortPermutation(idx, JsObjects.IndexLe);
    forall i | 0 <= i < |sorted| ensures JsObjects.IsArrayIndex(sorted[i]) {
      assert sorted[i] in multiset(idx);
    }
  }

  /** The entries of a request filled in enumeration order are the entries of the
      object it was filled from. */
  lemma RefilledEntries(inp: Inputs, names: seq<string>, vals: map<string, SqlValue>)
    requires WellFormed(inp) && WellFormed(Inputs(names, vals))
    requires names == JsObjects.KeyOrder(inp.keys)
    requires FilledUpTo(names, |names|, vals, inp.vals)
    ensures Entries(Inputs(names, vals)) == Entries(inp)
  {
    KeyOrderStable(inp.keys);
  }

  lemma OrderedKeysPresent(inp: Inputs)
    requires WellFormed(inp)
    ensures forall k :: 0 <= k < |JsObjects.KeyOrder(inp.keys)| ==> JsObjects.KeyOrder(inp.keys)[k] in inp.vals
  {
    JsObjects.KeyOrderPermutation(inp.keys);
    forall k | 0 <= k < |JsObjects.KeyOrder(inp.keys)| ensures JsObjects.KeyOrder(inp.keys)[k] in inp.vals {
      assert JsObjects.KeyOrder(inp.keys)[k] in multiset(inp.keys);
    }
  }

  lemma NotInPrefix(order: seq<string>, i: nat)
    requires Seqs.Distinct(order) && i < |order|
    ensures order[i] !in order[..i]
  {
    forall j | 0 <= j < i ensures order[..i][j] != order[i] {
      assert order[..i][j] == order[j];
    }
  }

  /** The first `i` keys of `order` are filled with their values from `vals`. */
  ghost predicate FilledUpTo(order: seq<string>, i: nat, inputs: map<string, SqlValue>, vals: map<string, SqlValue>)
    requires i <= |order|
  {
    forall k :: 0 <= k < i ==> order[k] in inputs && order[k] in vals && inputs[order[k]] == vals[order[k]]
  }

  lemma FilledStep(order: seq<string>, i: nat, before: map<string, SqlValue>, vals: map<string, SqlValue>)
    requires i < |order| && FilledUpTo(order, i, before, vals) && order[i] in vals
    ensures FilledUpTo(order, i + 1, before[order[i] := vals[order[i]]], vals)
  {
    var after := before[order[i] := vals[order[i]]];
    forall k | 0 <= k < i + 1
      ensures order[k] in after && order[k] in vals && after[order[k]] == vals[order[k]]
    {
      if k < i && order[k] != order[i] {
        assert after[order[k]] == before[order[k]];
      }
    }
  }

  /** After `i` rounds of the loop of `executeQuery`, the request holds the first `i`
      keys in enumeration order, each with its value. */
  ghost predicate Progress(inp: Inputs, order: seq<string>, i: nat, names: seq<string>, inputs: map<string, SqlValue>)
    requires i <= |order|
  {
    names == order[..i] && FilledUpTo(order, i, inputs, inp.vals)
  }

  /** One more round: the next key is new to the request, and adding it keeps the
      progress. */
  lemma ProgressStep(inp: Inputs, order: seq<string>, i: nat, names: seq<string>, inputs: map<string, SqlValue>)
    requires Seqs.Distinct(order) && i < |order| && order[i] in inp.vals
    requires WellFormed(Inputs(names, inputs)) && Progress(inp, order, i, names, inputs)
    ensures order[i] !in inputs
    ensures Progress(inp, order, i + 1, names + [order[i]], inputs[order[i] := inp.vals[order[i]]])
  {
    NotInPrefix(order, i);
    FilledStep(order, i, inputs, inp.vals);
    assert order[..i + 1] == order[..i] + [order[i]];
  }

  /** The loop of `executeQuery`: every entry of `inputs`, in enumeration order, is passed
      to `request.input`. */
  method FillRequest(request: PostgreSQLRequest, inp: Inputs)
    requires WellFormed(inp) && request.Valid() && request.names == [] && request.inputs == map[]
    modifies request
    ensures request.Valid()
    ensures request.names == JsObjects.KeyOrder(inp.keys)
    ensures FilledUpTo(request.names, |request.names|, request.inputs, inp.vals)
  {
    // `Object.entries(inputs)` walks the keys in enumeration order.
    var order := JsObjects.KeyOrder(inp.keys);
    JsObjects.KeyOrderPermutation(inp.keys);
    Seqs.DistinctPermutation(inp.keys, order);
    OrderedKeysPresent(inp);
    var i := 0;
    while i < |order|
      invariant 0 <= i <= |order|
      invariant request.Valid()
      invariant Progress(inp, order, i, request.names, request.inputs)
    {
      var key := order[i];
      ProgressStep(inp, order, i, request.names, request.inputs);
      var _ := request.Input(key, inp.vals[key]);
      i := i + 1;
    }
    assert order[..|order|] == order;
  }

  /** `executeQuery(query, inputs)` on the PostgreSQL pool: every entry of `inputs` is
      passed to `input` in enumeration order, so the request converts the query with
      exactly the entries of `inputs`. */
  method ExecuteQuery(query: string, inp: Inputs) returns (c: Converted)
    requires WellFormed(inp)
    ensures c == Convert(query, Entries(inp))
  {
    var request := new PostgreSQLRequest();
    FillRequest(request, inp);
    RefilledEntries(inp, request.names, request.inputs);
    c := request.Query(query);
  }
}

/** Backend/fix_all_models.py, the one-off fixer of the data-access modules: for each of three model files it rewrites the `poolPromise`
    signatures and the pool-await line with three regular-expression substitutions and
    writes the file back. */
module FixAllModels {
  import opened Wrappers
  import opened Text

  const Models: seq<string> := ["userModel.js", "notificationModel.js", "postModel.js"]

  /** `os.path.join('models', name)`. */
  function PathOf(name: string): string { "models/" + name }

  const AsyncKw := "async "
  const ArgsTail := "(poolPromise,"
  const ArgsFixed := "(pool,"
  const OnlyTail := "(poolPromise)"
  const OnlyFixed := "(pool)"
  const PoolAwait := "const pool = await poolPromise;"
  const ConnectCheck := "if (!pool.connected) await pool.connect();"

  /** `async (\w+)` followed by `tail` at `i`: the length of the captured name, 0 when the
      pattern does not match there. The greedy `\w+` has nothing to give back, because the
      tail starts with `(`, which is not a word character. */
  function SignatureAt(s: string, i: nat, tail: string): (n: nat)
    requires i <= |s|
    ensures n > 0 ==> i + 6 + n + |tail| <= |s|
  {
    if OccursAt(s, i, AsyncKw) then
      var n := WordCharsFrom(s, i + 6);
      if n > 0 && OccursAt(s, i + 6 + n, tail) then n else 0
    else 0
  }

  /** `re.sub(r'async (\w+)' + tail, r'async \1' + fixed, ...)` at one position. */
  function SigMatcher(tail: string, fixed: string): (string, nat) -> Option<Match> {
    (s: string, i: nat) => SigMatch(tail, fixed, s, i)
  }

  function SigMatch(tail: string, fixed: string, s: string, i: nat): Option<Match> {
    if i <= |s| && SignatureAt(s, i, tail) > 0 then
      Some(Match(6 + SignatureAt(s, i, tail) + |tail|, AsyncKw + s[i + 6..i + 6 + SignatureAt(s, i, tail)] + fixed))
    else None
  }

  /** `async f(poolPromise,` becomes `async f(pool,`. */
  function ArgsRule(s: string): string { Rewrite(s, 0, SigMatcher(ArgsTail, ArgsFixed)) }

  /** `async f(poolPromise)` becomes `async f(pool)`. */
  function OnlyRule(s: string): string { Rewrite(s, 0, SigMatcher(OnlyTail, OnlyFixed)) }

  /** The pool-await statement becomes the connection check. */
  function AwaitRule(s: string): string { ReplaceAll(s, PoolAwait, ConnectCheck) }

  /** The three substitutions, in the script's order. */
  function Fix(s: string): string { AwaitRule(OnlyRule(ArgsRule(s))) }

  // ---------------------------------------------------------------------------------------
  // The per-file loop

  /** The file system as the script sees it, and what it prints. */
  class ModelsDir {
    var files: map<string, string>
    var output: seq<string>

    constructor (files: map<string, string>)
      ensures this.files == files && output == []
    {
      this.files, output := files, [];
    }

    /** Each model file that exists is read, fixed and written back, whether or not
        anything changed; a missing one is reported and skipped. */
    method Run()
      modifies this
      ensures files == ProcessAll(old(files), Models)
      ensures output == old(output) + Report(old(files), Models) + ["Done!"]
    {
      ghost var start := files;
      var i := 0;
      while i < |Models|
        invariant 0 <= i <= |Models|
        invariant files == ProcessAll(start, Models[..i])
        invariant output == old(output) + Report(start, Models[..i])
      {
        var name := Models[i];
        var path := PathOf(name);
        assert Models[..i + 1][..i] == Models[..i];
        ProcessAllKeys(start, Models[..i]);
        if path !in files {
          output := output + ["Skip " + name + " - not found"];
          i := i + 1;
          continue;
        }
        var content := files[path];
        content := ArgsRule(content);
        content := OnlyRule(content);
        content := AwaitRule(content);
        files := files[path := content];
        output := output + ["Fixed " + name];
        i := i + 1;
      }
      assert Models[..|Models|] == Models;
      output := output + ["Done!"];
    }
  }

  /** One file handled: fixed in place when present. */
  function Process(files: map<string, string>, name: string): map<string, string> {
    if PathOf(name) in files then files[PathOf(name) := Fix(files[PathOf(name)])] else files
  }

  function ProcessAll(files: map<string, string>, names: seq<string>): map<string, string>
    decreases |names|
  {
    if |names| == 0 then files else Process(ProcessAll(files, names[..|names| - 1]), names[|names| - 1])
  }

  /** The line printed for each name. */
  function Report(files: map<string, string>, names: seq<string>): seq<string>
    decreases |names|
  {
    if |names| == 0 then []
    else
      var name := names[|names| - 1];
      Report(files, names[..|names| - 1]) +
        [if PathOf(name) in files then "Fixed " + name else "Skip " + name + " - not found"]
  }

  lemma {:induction false} ProcessAllKeys(files: map<string, string>, names: seq<string>)
    ensures ProcessAll(files, names).Keys == files.Keys
    decreases |names|
  {
    if |names| > 0 {
      ProcessAllKeys(files, names[..|names| - 1]);
    }
  }

  /** The paths of the named files. */
  function PathsOf(names: seq<string>): set<string>
    decreases |names|
  {
    if |names| == 0 then {} else PathsOf(names[..|names| - 1]) + {PathOf(names[|names| - 1])}
  }

  /** No name is listed twice. */
  predicate DistinctPaths(names: seq<string>)
    decreases |names|
  {
    |names| == 0 || (DistinctPaths(names[..|names| - 1]) && PathOf(names[|names| - 1]) !in PathsOf(names[..|names| - 1]))
  }

  /** With distinct paths, each named file is fixed once and every other file is left
      alone. */
  lemma {:induction false} ProcessAllEffect(files: map<string, string>, names: seq<string>)
    requires DistinctPaths(names)
    ensures ProcessAll(files, names).Keys == files.Keys
    ensures forall p :: p in files ==>
      ProcessAll(files, names)[p] == (if p in PathsOf(names) then Fix(files[p]) else files[p])
    decreases |names|
  {
    ProcessAllKeys(files, names);
    if |names| > 0 {
      ProcessAllEffect(files, names[..|names| - 1]);
    }
  }

  lemma FirstPaths()
    ensures PathsOf(Models[..1]) == {PathOf("userModel.js")} && DistinctPaths(Models[..1])
  {
    var m1 := Models[..1];
    assert |m1| == 1 && m1[0] == "userModel.js" && m1[..0] == [];
  }

  lemma TwoPaths()
    ensures PathsOf(Models[..2]) == {PathOf("userModel.js"), PathOf("notificationModel.js")} && DistinctPaths(Models[..2])
  {
    FirstPaths();
    var m2 := Models[..2];
    assert |m2| == 2 && m2[..1] == Models[..1] && m2[1] == "notificationModel.js";
    assert |PathOf("notificationModel.js")| != |PathOf("userModel.js")|;
  }

  /** The three model paths are distinct. */
  lemma ModelPaths()
    ensures PathsOf(Models) == {PathOf("userModel.js"), PathOf("notificationModel.js"), PathOf("postModel.js")}
    ensures DistinctPaths(Models)
  {
    TwoPaths();
    assert Models[..2] == Models[..|Models| - 1] && Models[2] == "postModel.js";
    assert PathOf("postModel.js")[7] != PathOf("userModel.js")[7];
    assert |PathOf("postModel.js")| != |PathOf("notificationModel.js")|;
  }

  /** What a run does: only the three model files are touched, each existing one is
      fixed, and every other file keeps its content. */
  lemma RunEffect(files: map<string, string>)
    ensures ProcessAll(files, Models).Keys == files.Keys
    ensures forall p :: p in files ==>
      ProcessAll(files, Models)[p] ==
        (if p in {PathOf("userModel.js"), PathOf("notificationModel.js"), PathOf("postModel.js")} then Fix(files[p]) else files[p])
  {
    ModelPaths();
    ProcessAllEffect(files, Models);
  }

  // ---------------------------------------------------------------------------------------
  // Files made of chunks

  /** A model file seen as a sequence of pieces: signature heads (before and after the
      fix), pool-await statements (before and after), and any other text. */
  datatype Chunk =
    | Signature(name: string, onlyPool: bool)
    | FixedSignature(name: string, onlyPool: bool)
    | Await
    | Connect
    | Other(text: string)

  function Render(c: Chunk): string {
    match c
    case Signature(n, only) => AsyncKw + n + (if only then OnlyTail else ArgsTail)
    case FixedSignature(n, only) => AsyncKw + n + (if only then OnlyFixed else ArgsFixed)
    case Await => PoolAwait
    case Connect => ConnectCheck
    case Other(t) => t
  }

  function RenderAll(cs: seq<Chunk>): string
    decreases |cs|
  {
    if |cs| == 0 then "" else Render(cs[0]) + RenderAll(cs[1..])
  }

  /** No rule matches anywhere inside `t`. */
  predicate Inert(t: string) {
    forall j :: 0 <= j < |t| ==>
      SignatureAt(t, j, ArgsTail) == 0 && SignatureAt(t, j, OnlyTail) == 0 && !OccursAt(t, j, PoolAwait)
  }

  predicate AllSpaces(t: string) { forall k :: 0 <= k < |t| ==> t[k] == ' ' }

  /** Names are `\w+`; other text is indentation, or whole lines in which no rule
      matches. */
  predicate WellFormed(c: Chunk) {
    match c
    case Signature(n, _) => |n| > 0 && forall k :: 0 <= k < |n| ==> IsWordChar(n[k])
    case FixedSignature(n, _) => |n| > 0 && forall k :: 0 <= k < |n| ==> IsWordChar(n[k])
    case Await => true
    case Connect => true
    case Other(t) => AllSpaces(t) || (|t| > 0 && t[|t| - 1] == '\n' && Inert(t))
  }

  /** Every piece of a file is well formed. */
  predicate AllWellFormed(cs: seq<Chunk>) { forall k :: 0 <= k < |cs| ==> WellFormed(cs[k]) }

  function MapChunks(cs: seq<Chunk>, f: Chunk -> Chunk): (r: seq<Chunk>)
    ensures |r| == |cs| && forall k :: 0 <= k < |cs| ==> r[k] == f(cs[k])
    decreases |cs|
  {
    if |cs| == 0 then [] else [f(cs[0])] + MapChunks(cs[1..], f)
  }

  /** What one rule does to one piece. */
  function ArgsChunk(): Chunk -> Chunk {
    (c: Chunk) => if c.Signature? && !c.onlyPool then FixedSignature(c.name, false) else c
  }

  function OnlyChunk(): Chunk -> Chunk {
    (c: Chunk) => if c.Signature? && c.onlyPool then FixedSignature(c.name, true) else c
  }

  function AwaitChunk(): Chunk -> Chunk {
    (c: Chunk) => if c.Await? then Connect else c
  }

  /** What the whole fix does to one piece. */
  function FixChunk(): Chunk -> Chunk {
    (c: Chunk) =>
      match c
      case Signature(n, only) => FixedSignature(n, only)
      case Await => Connect
      case _ => c
  }

  // ---------------------------------------------------------------------------------------
  // Proof: the rules act piece by piece

  /** The signature test reads only forward. */
  lemma SignatureAtForward(s: string, d: nat, k: nat, tail: string)
    requires d <= k <= |s|
    ensures SignatureAt(s, k, tail) == SignatureAt(s[d..], k - d, tail)
  {
    var t := s[d..];
    OccursAtForward(s, d, k, AsyncKw);
    if OccursAt(s, k, AsyncKw) {
      SignatureAtForwardHit(s, d, k, tail);
    } else {
      SignatureAtNone(s, k, tail);
      SignatureAtNone(t, k - d, tail);
    }
  }

  /** `SignatureAtForward` once `async ` is found at `k`. */
  lemma SignatureAtForwardHit(s: string, d: nat, k: nat, tail: string)
    requires d <= k <= |s| && OccursAt(s, k, AsyncKw) && OccursAt(s[d..], k - d, AsyncKw)
    ensures SignatureAt(s, k, tail) == SignatureAt(s[d..], k - d, tail)
  {
    assert |AsyncKw| == 6;
    var n := WordCharsFrom(s, k + 6);
    WordCharsFromSuffix(s, d, k + 6);
    OccursAtForward(s, d, k + 6 + n, tail);
    SameSignature(s, k, s[d..], k - d, tail, n);
  }

  /** Two positions with the same keyword, word run and tail match have the same
      signature length. */
  lemma SameSignature(s: string, i: nat, t: string, e: nat, tail: string, n: nat)
    requires i + 6 <= |s| && e + 6 <= |t| && OccursAt(s, i, AsyncKw) && OccursAt(t, e, AsyncKw)
    requires n == WordCharsFrom(s, i + 6) && n == WordCharsFrom(t, e + 6)
    requires OccursAt(s, i + 6 + n, tail) == OccursAt(t, e + 6 + n, tail)
    ensures SignatureAt(s, i, tail) == SignatureAt(t, e, tail)
  {
    SignatureAtUnfold(s, i, tail, n, OccursAt(s, i + 6 + n, tail));
    SignatureAtUnfold(t, e, tail, n, OccursAt(t, e + 6 + n, tail));
  }

  lemma SignatureAtUnfold(s: string, i: nat, tail: string, n: nat, hit: bool)
    requires i <= |s| && OccursAt(s, i, AsyncKw) && n == WordCharsFrom(s, i + 6)
    requires hit == OccursAt(s, i + 6 + n, tail)
    ensures SignatureAt(s, i, tail) == if n > 0 && hit then n else 0
  {
  }

  lemma SignatureAtNone(s: string, i: nat, tail: string)
    requires i <= |s| && !OccursAt(s, i, AsyncKw)
    ensures SignatureAt(s, i, tail) == 0
  {
  }

  lemma OccursAtForward(s: string, d: nat, k: nat, p: string)
    requires d <= k
    requires d <= |s|
    ensures OccursAt(s, k, p) == OccursAt(s[d..], k - d, p)
  {
    if k + |p| <= |s| {
      SliceForward(s, d, k, |p|);
    }
  }

  /** The signature matcher reads only forward. */
  lemma SigForwardAt(s: string, d: nat, k: nat, m: (string, nat) -> Option<Match>, tail: string, fixed: string)
    requires d <= k <= |s| && m == SigMatcher(tail, fixed)
    ensures m(s, k) == m(s[d..], k - d)
  {
    SignatureAtForward(s, d, k, tail);
    var n := SignatureAt(s, k, tail);
    if n > 0 {
      SliceForward(s, d, k + 6, n);
    }
    assert SigMatch(tail, fixed, s, k) == SigMatch(tail, fixed, s[d..], k - d);
  }

  lemma SliceForward(s: string, d: nat, i: nat, n: nat)
    requires d <= i && i + n <= |s|
    ensures s[i..i + n] == s[d..][i - d..i - d + n]
  {
  }

  lemma SigForward(s: string, d: nat, m: (string, nat) -> Option<Match>, tail: string, fixed: string)
    requires d <= |s| && m == SigMatcher(tail, fixed)
    ensures forall k :: d <= k <= |s| ==> m(s, k) == m(s[d..], k - d)
  {
    forall k | d <= k <= |s| ensures m(s, k) == m(s[d..], k - d) {
      SigForwardAt(s, d, k, m, tail, fixed);
    }
  }

  /** No occurrence of `p` starts inside a signature head `async name` + `x`, whatever
      follows: `p` has a space at offset 5 where the head has none, and its first
      character is not in `x` (nor, at the head's start, `a`). */
  lemma NoStartInSignature(n: string, x: string, rest: string, p: string, j: nat)
    requires forall k :: 0 <= k < |n| ==> IsWordChar(n[k])
    requires |p| >= 6 && p[5] == ' ' && p[0] != 'a'
    requires |x| >= 5 && (forall k :: 0 <= k < 5 ==> x[k] != ' ') && (forall k :: 0 <= k < |x| ==> x[k] != p[0])
    requires j < |AsyncKw + n + x|
    ensures !OccursAt(AsyncKw + n + x + rest, j, p)
  {
  }

  /** `async ` itself starts only at the head's start. */
  lemma NoAsyncInsideSignature(n: string, x: string, rest: string, j: nat)
    requires forall k :: 0 <= k < |n| ==> IsWordChar(n[k])
    requires |x| >= 5 && (forall k :: 0 <= k < 5 ==> x[k] != ' ') && (forall k :: 0 <= k < |x| ==> x[k] != 'a')
    requires 0 < j < |AsyncKw + n + x|
    ensures !OccursAt(AsyncKw + n + x + rest, j, AsyncKw)
  {
    var s := AsyncKw + n + x + rest;
    if j + 6 <= |s| {
      var w := s[j..j + 6];
      if j < 6 {
        assert w[0] == s[j] == AsyncKw[j] != AsyncKw[0];
      } else if j + 5 < 6 + |n| {
        assert w[5] == s[j + 5] == n[j + 5 - 6] != AsyncKw[5];
      } else if j < 6 + |n| {
        assert w[5] == s[j + 5] == x[j + 5 - 6 - |n|] != AsyncKw[5];
      } else {
        assert w[0] == s[j] == x[j - 6 - |n|] != AsyncKw[0];
      }
    }
  }

  /** The head `async name` + `x` + `rest` matches the signature pattern with `tail` at its
      start exactly when `x` starts with `tail`, where `x` starts with `(`. */
  lemma SignatureAtHead(n: string, x: string, rest: string, tail: string, d: nat)
    requires |n| > 0 && forall k :: 0 <= k < |n| ==> IsWordChar(n[k])
    requires |x| > 0 && x[0] == '('
    requires d < |x| && d < |tail| && x[d] != tail[d]
    ensures SignatureAt(AsyncKw + n + x + rest, 0, tail) == 0
  {
    var s := AsyncKw + n + x + rest;
    assert s[..6] == AsyncKw;
    WordRunExact(s, 6, |n|);
    if 6 + |n| + |tail| <= |s| {
      assert s[6 + |n|..6 + |n| + |tail|][d] == x[d];
    }
  }

  /** A match starting in a line stays inside it, since no pattern holds a newline. */
  lemma SignatureInLine(t: string, rest: string, j: nat, tail: string)
    requires |t| > 0 && t[|t| - 1] == '\n' && j < |t|
    requires |tail| > 0 && tail[0] == '(' && forall k :: 0 <= k < |tail| ==> tail[k] != '\n'
    ensures SignatureAt(t + rest, j, tail) > 0 ==> SignatureAt(t, j, tail) > 0
  {
    var s := t + rest;
    var n := SignatureAt(s, j, tail);
    if n > 0 {
      var e := j + 6 + n;
      SignatureAtHit(s, j, tail);
      SignatureNoNewline(s, j, n, tail);
      assert s[|t| - 1] == '\n';
      assert e + |tail| < |t|;
      PrefixOccurs(t, rest, j, AsyncKw);
      PrefixOccurs(t, rest, e, tail);
      assert t[e] == tail[0];
      assert forall k :: j + 6 <= k < e ==> IsWordChar(s[k]) && t[k] == s[k];
      WordRunExact(t, j + 6, n);
      SignatureAtUnfold(t, j, tail, n, true);
    }
  }

  /** What a signature match at `i` consists of. */
  lemma SignatureAtHit(s: string, i: nat, tail: string)
    requires i <= |s| && SignatureAt(s, i, tail) > 0
    ensures OccursAt(s, i, AsyncKw) && SignatureAt(s, i, tail) == WordCharsFrom(s, i + 6)
    ensures OccursAt(s, i + 6 + SignatureAt(s, i, tail), tail)
  {
  }

  /** No character of a signature match is a newline. */
  lemma SignatureNoNewline(s: string, j: nat, n: nat, tail: string)
    requires j + 6 <= |s| && OccursAt(s, j, AsyncKw) && n == WordCharsFrom(s, j + 6)
    requires OccursAt(s, j + 6 + n, tail) && forall k :: 0 <= k < |tail| ==> tail[k] != '\n'
    ensures forall i :: j <= i < j + 6 + n + |tail| ==> s[i] != '\n'
  {
    var w1 := s[j..j + 6];
    var w2 := s[j + 6 + n..j + 6 + n + |tail|];
    assert forall i :: j <= i < j + 6 ==> s[i] == w1[i - j] == AsyncKw[i - j] != '\n';
    assert forall i :: j + 6 + n <= i < j + 6 + n + |tail| ==> s[i] == w2[i - j - 6 - n] == tail[i - j - 6 - n];
  }

  /** Inside `t`, an occurrence in `t + rest` is one in `t`. */
  lemma PrefixOccurs(t: string, rest: string, i: nat, p: string)
    requires i + |p| <= |t|
    ensures OccursAt(t + rest, i, p) == OccursAt(t, i, p)
  {
    assert (t + rest)[i..i + |p|] == t[i..i + |p|];
  }

  lemma AwaitInLine(t: string, rest: string, j: nat)
    requires |t| > 0 && t[|t| - 1] == '\n' && j < |t|
    ensures OccursAt(t + rest, j, PoolAwait) ==> OccursAt(t, j, PoolAwait)
  {
    var s := t + rest;
    if OccursAt(s, j, PoolAwait) {
      var w := s[j..j + |PoolAwait|];
      assert forall k :: 0 <= k < |PoolAwait| ==> PoolAwait[k] != '\n';
      assert forall i :: j <= i < j + |PoolAwait| ==> s[i] == w[i - j] != '\n';
      assert s[|t| - 1] == '\n';
      assert j + |PoolAwait| <= |t| - 1;
      assert s[j..j + |PoolAwait|] == t[j..j + |PoolAwait|];
    }
  }

  /** No `async ` inside the two fixed statements. */
  lemma NoAsyncInLiteral(l: string, rest: string, j: nat)
    requires l == PoolAwait || l == ConnectCheck
    requires j < |l|
    ensures !OccursAt(l + rest, j, AsyncKw)
  {
    if l == PoolAwait {
      assert forall k :: 0 <= k < |PoolAwait| && PoolAwait[k] == 'a' ==> k + 1 < |PoolAwait| && PoolAwait[k + 1] != 's';
    } else {
      assert forall k :: 0 <= k < |ConnectCheck| && ConnectCheck[k] == 'a' ==> k + 1 < |ConnectCheck| && ConnectCheck[k + 1] != 's';
    }
    NoAsyncWithoutAs(l, rest, j);
  }

  /** A text in which every `a` is followed by something other than `s` holds no `async `. */
  lemma NoAsyncWithoutAs(l: string, rest: string, j: nat)
    requires forall k :: 0 <= k < |l| && l[k] == 'a' ==> k + 1 < |l| && l[k + 1] != 's'
    requires j < |l|
    ensures !OccursAt(l + rest, j, AsyncKw)
  {
    var s := l + rest;
    if j + 6 <= |s| {
      var w := s[j..j + 6];
      assert w[0] == l[j];
      if l[j] == 'a' {
        assert w[1] == l[j + 1];
      }
    }
  }

  /** No pool-await statement starts inside the connection check. */
  lemma NoAwaitInConnect(rest: string, j: nat)
    requires j < |ConnectCheck|
    ensures !OccursAt(ConnectCheck + rest, j, PoolAwait)
  {
    var s := ConnectCheck + rest;
    if j + |PoolAwait| <= |s| {
      var w := s[j..j + |PoolAwait|];
      assert w[0] == ConnectCheck[j];
      if ConnectCheck[j] == 'c' {
        assert w[1] == ConnectCheck[j + 1] && w[3] == ConnectCheck[j + 3];
      }
    }
  }

  /** Where no signature starts inside a piece, a signature rule copies the piece. */
  lemma SigSkip(text: string, rest: string, tail: string, fixed: string)
    requires forall j :: 0 <= j < |text| ==> SignatureAt(text + rest, j, tail) == 0
    ensures Rewrite(text + rest, 0, SigMatcher(tail, fixed)) == text + Rewrite(rest, 0, SigMatcher(tail, fixed))
  {
    var s := text + rest;
    var m := SigMatcher(tail, fixed);
    SigForward(s, |text|, m, tail, fixed);
    forall j | 0 <= j < |text| ensures !MatchesAt(s, j, m) { }
    PieceSkipped(s, |text|, m);
    assert s[..|text|] == text && s[|text|..] == rest;
  }

  /** The tails have neither an `a` nor a space. */
  lemma TailChars(tail: string)
    requires tail == ArgsTail || tail == OnlyTail
    ensures |tail| == 13 && tail[0] == '('
    ensures forall k :: 0 <= k < |tail| ==> tail[k] != 'a' && tail[k] != ' ' && tail[k] != '\n'
  {}

  lemma FixedChars(fixed: string)
    requires fixed == ArgsFixed || fixed == OnlyFixed
    ensures |fixed| >= 5 && fixed[0] == '('
    ensures forall k :: 0 <= k < |fixed| ==> fixed[k] != 'a' && fixed[k] != ' '
  {}

  /** A signature head with the rule's own tail is replaced, its name kept. */
  lemma SigHit(n: string, rest: string, tail: string, fixed: string)
    requires |n| > 0 && forall k :: 0 <= k < |n| ==> IsWordChar(n[k])
    requires |tail| > 0 && tail[0] == '('
    ensures Rewrite(AsyncKw + n + tail + rest, 0, SigMatcher(tail, fixed)) ==
      AsyncKw + n + fixed + Rewrite(rest, 0, SigMatcher(tail, fixed))
  {
    var text := AsyncKw + n + tail;
    var s := text + rest;
    var m := SigMatcher(tail, fixed);
    SigForward(s, |text|, m, tail, fixed);
    SigHitMatch(n, rest, tail, fixed, m);
    PieceMatched(s, |text|, m);
    assert s[|text|..] == rest;
  }

  /** At the start of a head, the signature rule matches the whole head. */
  lemma SigHitMatch(n: string, rest: string, tail: string, fixed: string, m: (string, nat) -> Option<Match>)
    requires |n| > 0 && forall k :: 0 <= k < |n| ==> IsWordChar(n[k])
    requires |tail| > 0 && tail[0] == '('
    requires m == SigMatcher(tail, fixed)
    ensures m(AsyncKw + n + tail + rest, 0) == Some(Match(|AsyncKw + n + tail|, AsyncKw + n + fixed))
  {
    SigHeadAt(n, tail, rest);
  }

  /** At the start of a head with tail `tail`, the pattern captures exactly the name. */
  lemma SigHeadAt(n: string, tail: string, rest: string)
    requires |n| > 0 && forall k :: 0 <= k < |n| ==> IsWordChar(n[k])
    requires |tail| > 0 && tail[0] == '('
    ensures SignatureAt(AsyncKw + n + tail + rest, 0, tail) == |n|
    ensures (AsyncKw + n + tail + rest)[6..6 + |n|] == n
  {
    var s := AsyncKw + n + tail + rest;
    assert s[..6] == AsyncKw;
    assert s[6 + |n|] == '(';
    WordRunExact(s, 6, |n|);
    assert s[6 + |n|..6 + |n| + |tail|] == tail;
    assert s[6..6 + |n|] == n;
  }

  /** No signature with `tail` starts inside a head `async name` + `x` whose `x` differs
      from `tail` at `d`. */
  lemma SigHeadZero(n: string, x: string, rest: string, tail: string, d: nat)
    requires |n| > 0 && forall k :: 0 <= k < |n| ==> IsWordChar(n[k])
    requires |x| >= 5 && x[0] == '(' && forall k :: 0 <= k < |x| ==> x[k] != 'a' && x[k] != ' '
    requires d < |x| && d < |tail| && x[d] != tail[d]
    ensures forall j :: 0 <= j < |AsyncKw + n + x| ==> SignatureAt(AsyncKw + n + x + rest, j, tail) == 0
  {
    forall j | 0 <= j < |AsyncKw + n + x| ensures SignatureAt(AsyncKw + n + x + rest, j, tail) == 0 {
      if j == 0 {
        SignatureAtHead(n, x, rest, tail, d);
      } else {
        NoAsyncInsideSignature(n, x, rest, j);
      }
    }
  }

  /** No signature starts inside the two fixed statements. */
  lemma SigLiteralZero(l: string, rest: string, tail: string)
    requires l == PoolAwait || l == ConnectCheck
    ensures forall j :: 0 <= j < |l| ==> SignatureAt(l + rest, j, tail) == 0
  {
    forall j | 0 <= j < |l| ensures SignatureAt(l + rest, j, tail) == 0 {
      NoAsyncInLiteral(l, rest, j);
    }
  }

  /** No signature starts inside well-formed other text. */
  lemma SigOtherZero(t: string, rest: string, tail: string)
    requires WellFormed(Other(t))
    requires tail == ArgsTail || tail == OnlyTail
    ensures forall j :: 0 <= j < |t| ==> SignatureAt(t + rest, j, tail) == 0
  {
    TailChars(tail);
    var s := t + rest;
    forall j | 0 <= j < |t| ensures SignatureAt(s, j, tail) == 0 {
      if AllSpaces(t) {
        if j + 6 <= |s| {
          assert s[j..j + 6][0] == s[j] == ' ';
        }
      } else {
        SignatureInLine(t, rest, j, tail);
      }
    }
  }

  /** A signature rule on one well-formed piece: a head with the rule's own tail becomes
      the fixed head with the same name; every other piece is copied. */
  lemma SigRuleChunk(c: Chunk, rest: string, tail: string, fixed: string)
    requires WellFormed(c)
    requires (tail == ArgsTail && fixed == ArgsFixed) || (tail == OnlyTail && fixed == OnlyFixed)
    ensures Rewrite(Render(c) + rest, 0, SigMatcher(tail, fixed)) ==
      (if c.Signature? && (if c.onlyPool then OnlyTail else ArgsTail) == tail then AsyncKw + c.name + fixed else Render(c)) +
      Rewrite(rest, 0, SigMatcher(tail, fixed))
  {
    TailChars(tail);
    match c {
      case Signature(n, o) =>
        var x := if o then OnlyTail else ArgsTail;
        if x == tail {
          SigHit(n, rest, tail, fixed);
        } else {
          TailChars(x);
          SigHeadZero(n, x, rest, tail, 12);
          SigSkip(Render(c), rest, tail, fixed);
        }
      case FixedSignature(n, o) =>
        var x := if o then OnlyFixed else ArgsFixed;
        FixedChars(x);
        SigHeadZero(n, x, rest, tail, 5);
        SigSkip(Render(c), rest, tail, fixed);
      case Await =>
        SigLiteralZero(PoolAwait, rest, tail);
        SigSkip(Render(c), rest, tail, fixed);
      case Connect =>
        SigLiteralZero(ConnectCheck, rest, tail);
        SigSkip(Render(c), rest, tail, fixed);
      case Other(t) =>
        SigOtherZero(t, rest, tail);
        SigSkip(Render(c), rest, tail, fixed);
    }
  }

  /** The first rule on one well-formed piece, as the piece map says. */
  lemma ArgsRuleChunk(c: Chunk, rest: string)
    requires WellFormed(c)
    ensures Rewrite(Render(c) + rest, 0, SigMatcher(ArgsTail, ArgsFixed)) ==
      Render(ArgsChunk()(c)) + Rewrite(rest, 0, SigMatcher(ArgsTail, ArgsFixed))
  {
    SigRuleChunk(c, rest, ArgsTail, ArgsFixed);
    assert OnlyTail[12] != ArgsTail[12];
  }

  /** The second rule on one well-formed piece, as the piece map says. */
  lemma OnlyRuleChunk(c: Chunk, rest: string)
    requires WellFormed(c)
    ensures Rewrite(Render(c) + rest, 0, SigMatcher(OnlyTail, OnlyFixed)) ==
      Render(OnlyChunk()(c)) + Rewrite(rest, 0, SigMatcher(OnlyTail, OnlyFixed))
  {
    SigRuleChunk(c, rest, OnlyTail, OnlyFixed);
    assert OnlyTail[12] != ArgsTail[12];
  }

  /** Where no pool-await statement starts inside a piece, the await rule copies it. */
  lemma AwaitSkip(text: string, rest: string)
    requires forall j :: 0 <= j < |text| ==> !OccursAt(text + rest, j, PoolAwait)
    ensures ReplaceAll(text + rest, PoolAwait, ConnectCheck) == text + ReplaceAll(rest, PoolAwait, ConnectCheck)
  {
    var s := text + rest;
    var m := LiteralMatch(PoolAwait, ConnectCheck);
    LiteralMatchForward(s, |text|, PoolAwait, ConnectCheck);
    forall j | 0 <= j < |text| ensures !MatchesAt(s, j, m) { }
    PieceSkipped(s, |text|, m);
    assert s[..|text|] == text && s[|text|..] == rest;
  }

  /** No pool-await statement starts inside a signature head. */
  lemma AwaitHeadNone(n: string, x: string, rest: string)
    requires forall k :: 0 <= k < |n| ==> IsWordChar(n[k])
    requires |x| >= 5 && forall k :: 0 <= k < |x| ==> x[k] != 'c' && x[k] != ' '
    ensures forall j :: 0 <= j < |AsyncKw + n + x| ==> !OccursAt(AsyncKw + n + x + rest, j, PoolAwait)
  {
    forall j | 0 <= j < |AsyncKw + n + x| ensures !OccursAt(AsyncKw + n + x + rest, j, PoolAwait) {
      NoStartInSignature(n, x, rest, PoolAwait, j);
    }
  }

  /** No pool-await statement starts inside well-formed other text. */
  lemma AwaitOtherNone(t: string, rest: string)
    requires WellFormed(Other(t))
    ensures forall j :: 0 <= j < |t| ==> !OccursAt(t + rest, j, PoolAwait)
  {
    var s := t + rest;
    forall j | 0 <= j < |t| ensures !OccursAt(s, j, PoolAwait) {
      if AllSpaces(t) {
        if j + |PoolAwait| <= |s| {
          assert s[j..j + |PoolAwait|][0] == s[j] == ' ';
        }
      } else {
        AwaitInLine(t, rest, j);
      }
    }
  }

  /** The await rule on one well-formed piece, as the piece map says. */
  lemma AwaitRuleChunk(c: Chunk, rest: string)
    requires WellFormed(c)
    ensures Rewrite(Render(c) + rest, 0, LiteralMatch(PoolAwait, ConnectCheck)) ==
      Render(AwaitChunk()(c)) + Rewrite(rest, 0, LiteralMatch(PoolAwait, ConnectCheck))
  {
    match c {
      case Signature(n, o) =>
        var x := if o then OnlyTail else ArgsTail;
        TailChars(x);
        assert forall k :: 0 <= k < |x| ==> x[k] != 'c';
        AwaitHeadNone(n, x, rest);
        AwaitSkip(Render(c), rest);
      case FixedSignature(n, o) =>
        var x := if o then OnlyFixed else ArgsFixed;
        FixedChars(x);
        assert forall k :: 0 <= k < |x| ==> x[k] != 'c';
        AwaitHeadNone(n, x, rest);
        AwaitSkip(Render(c), rest);
      case Await =>
        ReplaceAllAfterPrefix(PoolAwait, ConnectCheck, rest);
      case Connect =>
        forall j | 0 <= j < |ConnectCheck| ensures !OccursAt(ConnectCheck + rest, j, PoolAwait) {
          NoAwaitInConnect(rest, j);
        }
        AwaitSkip(ConnectCheck, rest);
      case Other(t) =>
        AwaitOtherNone(t, rest);
        AwaitSkip(t, rest);
    }
  }

  /** A rewrite that acts piece by piece acts on the whole file piece by piece. */
  lemma {:induction false} RewriteChunks(cs: seq<Chunk>, m: (string, nat) -> Option<Match>, f: Chunk -> Chunk)
    requires AllWellFormed(cs)
    requires forall c: Chunk, rest: string :: WellFormed(c) ==>
      Rewrite(Render(c) + rest, 0, m) == Render(f(c)) + Rewrite(rest, 0, m)
    ensures Rewrite(RenderAll(cs), 0, m) == RenderAll(MapChunks(cs, f))
    decreases |cs|
  {
    if |cs| > 0 {
      RewriteChunks(cs[1..], m, f);
      assert MapChunks(cs, f)[1..] == MapChunks(cs[1..], f);
    }
  }

  lemma MapKeepsWellFormed(cs: seq<Chunk>, f: Chunk -> Chunk)
    requires AllWellFormed(cs)
    requires forall c :: WellFormed(c) ==> WellFormed(f(c))
    ensures AllWellFormed(MapChunks(cs, f))
  {}

  /** Each rule acts on a whole file of well-formed pieces piece by piece. */
  lemma ArgsByChunks(cs: seq<Chunk>)
    requires AllWellFormed(cs)
    ensures ArgsRule(RenderAll(cs)) == RenderAll(MapChunks(cs, ArgsChunk()))
  {
    var m := SigMatcher(ArgsTail, ArgsFixed);
    forall c: Chunk, rest: string | WellFormed(c)
      ensures Rewrite(Render(c) + rest, 0, m) == Render(ArgsChunk()(c)) + Rewrite(rest, 0, m)
    {
      ArgsRuleChunk(c, rest);
    }
    RewriteChunks(cs, m, ArgsChunk());
  }

  lemma OnlyByChunks(cs: seq<Chunk>)
    requires AllWellFormed(cs)
    ensures OnlyRule(RenderAll(cs)) == RenderAll(MapChunks(cs, OnlyChunk()))
  {
    var m := SigMatcher(OnlyTail, OnlyFixed);
    forall c: Chunk, rest: string | WellFormed(c)
      ensures Rewrite(Render(c) + rest, 0, m) == Render(OnlyChunk()(c)) + Rewrite(rest, 0, m)
    {
      OnlyRuleChunk(c, rest);
    }
    RewriteChunks(cs, m, OnlyChunk());
  }

  lemma AwaitByChunks(cs: seq<Chunk>)
    requires AllWellFormed(cs)
    ensures AwaitRule(RenderAll(cs)) == RenderAll(MapChunks(cs, AwaitChunk()))
  {
    var m := LiteralMatch(PoolAwait, ConnectCheck);
    forall c: Chunk, rest: string | WellFormed(c)
      ensures Rewrite(Render(c) + rest, 0, m) == Render(AwaitChunk()(c)) + Rewrite(rest, 0, m)
    {
      AwaitRuleChunk(c, rest);
    }
    RewriteChunks(cs, m, AwaitChunk());
  }

  /** The whole fix acts piece by piece: signature heads lose `Promise` and keep their
      name, pool-await statements become the connection check, other text is kept. */
  lemma FixByChunks(cs: seq<Chunk>)
    requires AllWellFormed(cs)
    ensures Fix(RenderAll(cs)) == RenderAll(MapChunks(cs, FixChunk()))
  {
    ArgsByChunks(cs);
    var cs1 := MapChunks(cs, ArgsChunk());
    PieceMapsKeepWellFormed();
    MapKeepsWellFormed(cs, ArgsChunk());
    OnlyByChunks(cs1);
    var cs2 := MapChunks(cs1, OnlyChunk());
    MapKeepsWellFormed(cs1, OnlyChunk());
    AwaitByChunks(cs2);
    PieceMapsCompose(cs);
  }

  /** The piece maps keep pieces well formed. */
  lemma PieceMapsKeepWellFormed()
    ensures forall c :: WellFormed(c) ==> WellFormed(ArgsChunk()(c))
    ensures forall c :: WellFormed(c) ==> WellFormed(OnlyChunk()(c))
    ensures forall c :: WellFormed(c) ==> WellFormed(AwaitChunk()(c))
    ensures forall c :: WellFormed(c) ==> WellFormed(FixChunk()(c))
  {}

  /** The three rule maps in turn are the fix map. */
  lemma PieceMapsCompose(cs: seq<Chunk>)
    ensures MapChunks(MapChunks(MapChunks(cs, ArgsChunk()), OnlyChunk()), AwaitChunk()) == MapChunks(cs, FixChunk())
  {
    var cs3 := MapChunks(MapChunks(MapChunks(cs, ArgsChunk()), OnlyChunk()), AwaitChunk());
    forall k | 0 <= k < |cs| ensures cs3[k] == FixChunk()(cs[k]) {
      var c := cs[k];
      assert cs3[k] == AwaitChunk()(OnlyChunk()(ArgsChunk()(c)));
    }
  }

  /** The signature rule on a file that starts with a head: the captured name is kept and
      only `Promise` is dropped. */
  lemma ArgsRuleKeepsName(name: string, rest: string)
    requires |name| > 0 && forall k :: 0 <= k < |name| ==> IsWordChar(name[k])
    ensures ArgsRule("async " + name + "(poolPromise," + rest) == "async " + name + "(pool," + ArgsRule(rest)
  {
    SigHit(name, rest, ArgsTail, ArgsFixed);
  }

  lemma OnlyRuleKeepsName(name: string, rest: string)
    requires |name| > 0 && forall k :: 0 <= k < |name| ==> IsWordChar(name[k])
    ensures OnlyRule("async " + name + "(poolPromise)" + rest) == "async " + name + "(pool)" + OnlyRule(rest)
  {
    SigHit(name, rest, OnlyTail, OnlyFixed);
  }

}

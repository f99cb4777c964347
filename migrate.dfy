/** The MSSQL to PostgreSQL migration script: the URL cleaner applied to stored image and
    avatar URLs, and the comment copy, which inserts comments in ascending id order so that
    a reply normally finds its parent already copied. */
module MigrateToPostgres {
  import opened Wrappers
  import opened Text
  import Seqs

  const Local5000 := "http://localhost:5000"
  const Local3000 := "http://localhost:3000"

  /** The leading-slash rule: a non-empty value that starts neither with `http` nor with
      `/` is made root-relative. */
  function RootRelative(u: string): (r: string)
    ensures r == "" || StartsWith(r, "http") || StartsWith(r, "/")
    ensures (u == "" || StartsWith(u, "http") || StartsWith(u, "/")) <==> r == u
    ensures r != u ==> r == "/" + u
  {
    if u != "" && !StartsWith(u, "http") && !StartsWith(u, "/") then
      assert ("/" + u)[..1] == "/";
      "/" + u
    else u
  }

  /** `cleanUrl`: a falsy URL gives `null`; otherwise every `http://localhost:5000` and
      then every `http://localhost:3000` is removed, and the leading-slash rule applied. */
  function CleanUrl(url: Option<string>): (r: Option<string>)
    ensures r.None? <==> (url.None? || url.value == "")
    ensures r.Some? ==> r.value == "" || StartsWith(r.value, "http") || StartsWith(r.value, "/")
  {
    if url.None? || url.value == "" then None
    else Some(RootRelative(ReplaceAll(ReplaceAll(url.value, Local5000, ""), Local3000, "")))
  }

  lemma Local3000HasOneInnerH(i: int)
    requires 0 < i < 21 && i != 12
    ensures Local3000[i] != 'h'
  {}

  lemma NotIn5000(path: string)
    requires !Contains(path, Local5000)
    ensures !Contains(Local3000 + path, Local5000)
  {
    var s := Local3000 + path;
    ContainsIff(path, Local5000);
    forall i: nat ensures !OccursAt(s, i, Local5000) {
      if i + 21 > |s| {
      } else if i >= 21 {
        assert s[i..i + 21] == path[i - 21..i - 21 + 21];
        assert !OccursAt(path, i - 21, Local5000);
      } else if i == 0 {
        assert s[i..i + 21][17] == '3';
      } else if i == 12 {
        assert s[i..i + 21][1] == 'o';
      } else {
        assert s[i..i + 21][0] == Local3000[i];
        Local3000HasOneInnerH(i);
      }
    }
    ContainsIff(s, Local5000);
  }

  /** A URL with nothing to remove only gets the leading-slash rule. */
  lemma CleanUrlPlain(u: string)
    requires u != "" && !Contains(u, Local5000) && !Contains(u, Local3000)
    ensures CleanUrl(Some(u)) == Some(RootRelative(u))
  {
    ReplaceAllAbsent(u, Local5000, "");
    ReplaceAllAbsent(u, Local3000, "");
  }

  /** A URL stored against a local server, `http://localhost:5000` or `:3000` followed by a
      path holding neither, becomes the root-relative path. */
  lemma CleanUrlLocalHost(host: string, path: string)
    requires host == Local5000 || host == Local3000
    requires !Contains(path, Local5000) && !Contains(path, Local3000)
    ensures CleanUrl(Some(host + path)) == Some(RootRelative(path))
  {
    if host == Local5000 {
      ReplaceAllAfterPrefix(Local5000, "", path);
      assert "" + ReplaceAll(path, Local5000, "") == ReplaceAll(path, Local5000, "");
      ReplaceAllAbsent(path, Local5000, "");
      ReplaceAllAbsent(path, Local3000, "");
    } else {
      NotIn5000(path);
      ReplaceAllAbsent(host + path, Local5000, "");
      ReplaceAllAfterPrefix(Local3000, "", path);
      assert "" + ReplaceAll(path, Local3000, "") == ReplaceAll(path, Local3000, "");
      ReplaceAllAbsent(path, Local3000, "");
    }
  }

  /** Cleaning a cleaned URL that had nothing to remove changes nothing more. */
  lemma CleanUrlPlainStable(u: string)
    requires u != "" && !Contains(u, Local5000) && !Contains(u, Local3000)
    ensures CleanUrl(CleanUrl(Some(u))) == CleanUrl(Some(u))
  {
    CleanUrlPlain(u);
    var r := RootRelative(u);
    if r != u {
      SlashKeepsAbsent(u, Local5000);
      SlashKeepsAbsent(u, Local3000);
    }
    CleanUrlPlain(r);
  }

  lemma SlashKeepsAbsent(u: string, p: string)
    requires |p| > 0 && p[0] == 'h' && !Contains(u, p)
    ensures !Contains("/" + u, p)
  {
    var s := "/" + u;
    ContainsIff(u, p);
    forall i: nat ensures !OccursAt(s, i, p) {
      if i + |p| > |s| {
      } else if i == 0 {
        assert s[i..i + |p|][0] == '/';
      } else {
        assert s[i..i + |p|] == u[i - 1..i - 1 + |p|];
        assert !OccursAt(u, i - 1, p);
      }
    }
    ContainsIff(s, p);
  }

  // ---------------------------------------------------------------------------------------
  // Comments

  /** A source comment row; `parent` is `comment_parent`, copied to `parent_comment_id`. */
  datatype Comment = Comment(id: int, postId: int, userId: int, parent: Option<int>, content: string,
    createdAt: int)

  /** `(a, b) => a.id - b.id`. */
  function ById(): (Comment, Comment) -> bool {
    (a: Comment, b: Comment) => a.id <= b.id
  }

  lemma ByIdTotal()
    ensures Seqs.TotalPreorder(ById())
  {}

  /** What one `INSERT ... ON CONFLICT (id) DO NOTHING` does. */
  datatype InsertOutcome = Inserted | Conflict | ForeignKeyMissing

  /** A taken id does nothing; otherwise the post, the user and a named parent comment
      must exist (error 23503 otherwise). The foreign key is checked with the new row in
      place, so a comment naming itself as parent satisfies it. */
  function Outcome(c: Comment, table: map<int, Comment>, posts: set<int>, users: set<int>): InsertOutcome {
    if c.id in table then Conflict
    else if c.postId !in posts || c.userId !in users || (c.parent.Some? && c.parent.value != c.id && c.parent.value !in table) then ForeignKeyMissing
    else Inserted
  }

  /** The comments table after copying `cs` in order. */
  function CopyAll(cs: seq<Comment>, table: map<int, Comment>, posts: set<int>, users: set<int>): map<int, Comment>
    decreases |cs|
  {
    if |cs| == 0 then table
    else
      var t := CopyAll(cs[..|cs| - 1], table, posts, users);
      var c := cs[|cs| - 1];
      if Outcome(c, t, posts, users) == Inserted then t[c.id := c] else t
  }

  /** The ids reported as skipped for a missing parent post, user or comment. */
  function SkippedIds(cs: seq<Comment>, table: map<int, Comment>, posts: set<int>, users: set<int>): seq<int>
    decreases |cs|
  {
    if |cs| == 0 then []
    else
      var t := CopyAll(cs[..|cs| - 1], table, posts, users);
      var c := cs[|cs| - 1];
      SkippedIds(cs[..|cs| - 1], table, posts, users) +
        (if Outcome(c, t, posts, users) == ForeignKeyMissing then [c.id] else [])
  }

  /** One more row copied: the table and the skip log after `cs[..i + 1]`. */
  lemma CopyStep(cs: seq<Comment>, i: int, table: map<int, Comment>, posts: set<int>, users: set<int>)
    requires 0 <= i < |cs|
    ensures var t := CopyAll(cs[..i], table, posts, users);
      CopyAll(cs[..i + 1], table, posts, users) == (if Outcome(cs[i], t, posts, users) == Inserted then t[cs[i].id := cs[i]] else t) &&
      SkippedIds(cs[..i + 1], table, posts, users) ==
        SkippedIds(cs[..i], table, posts, users) + (if Outcome(cs[i], t, posts, users) == ForeignKeyMissing then [cs[i].id] else [])
  {
    assert cs[..i + 1][..i] == cs[..i];
  }

  /** The target database during the comment step. */
  class CommentMigration {
    var comments: map<int, Comment>
    var skipped: seq<int>

    constructor (existing: map<int, Comment>)
      ensures comments == existing && skipped == []
    {
      comments, skipped := existing, [];
    }

    /** Sort the source rows by id and insert them one at a time; a foreign-key failure
        is logged and the loop goes on. */
    method MigrateComments(source: seq<Comment>, posts: set<int>, users: set<int>)
      modifies this
      ensures comments == CopyAll(Seqs.Sort(source, ById()), old(comments), posts, users)
      ensures skipped == old(skipped) + SkippedIds(Seqs.Sort(source, ById()), old(comments), posts, users)
    {
      var sorted := Seqs.Sort(source, ById());
      ghost var start := comments;
      var i := 0;
      while i < |sorted|
        invariant 0 <= i <= |sorted|
        invariant comments == CopyAll(sorted[..i], start, posts, users)
        invariant skipped == old(skipped) + SkippedIds(sorted[..i], start, posts, users)
      {
        var c := sorted[i];
        CopyStep(sorted, i, start, posts, users);
        var outcome := Outcome(c, comments, posts, users);
        if outcome == Inserted {
          comments := comments[c.id := c];
        } else if outcome == ForeignKeyMissing {
          skipped := skipped + [c.id];
        }
        i := i + 1;
      }
      assert sorted[..|sorted|] == sorted;
    }
  }

  /** Copying never removes or overwrites a row, and adds only rows from `cs`. */
  lemma {:induction false} CopyAllGrows(cs: seq<Comment>, table: map<int, Comment>, posts: set<int>, users: set<int>)
    ensures forall id :: id in table ==> id in CopyAll(cs, table, posts, users) && CopyAll(cs, table, posts, users)[id] == table[id]
    ensures forall id :: id in CopyAll(cs, table, posts, users) && id !in table ==>
      exists k :: 0 <= k < |cs| && cs[k].id == id && CopyAll(cs, table, posts, users)[id] == cs[k]
    decreases |cs|
  {
    if |cs| > 0 {
      var p := cs[..|cs| - 1];
      CopyAllGrows(p, table, posts, users);
      var t := CopyAll(p, table, posts, users);
      forall id | id in CopyAll(cs, table, posts, users) && id !in table
        ensures exists k :: 0 <= k < |cs| && cs[k].id == id && CopyAll(cs, table, posts, users)[id] == cs[k]
      {
        if id in t && id != cs[|cs| - 1].id {
          var k :| 0 <= k < |p| && p[k].id == id && t[id] == p[k];
          assert cs[k] == p[k];
        } else {
          assert cs[|cs| - 1].id == id;
        }
      }
    }
  }

  /** Every comment's parent appears earlier in `cs`. */
  predicate ParentsFirst(cs: seq<Comment>) {
    forall k :: 0 <= k < |cs| && cs[k].parent.Some? ==>
      exists m :: 0 <= m < k && cs[m].id == cs[k].parent.value
  }

  predicate DistinctIds(cs: seq<Comment>) {
    forall i, j :: 0 <= i < j < |cs| ==> cs[i].id != cs[j].id
  }

  /** The prefix of a parents-first sequence is parents-first. */
  lemma ParentsFirstPrefix(cs: seq<Comment>, n: int)
    requires ParentsFirst(cs) && 0 <= n <= |cs|
    ensures ParentsFirst(cs[..n])
  {
    var p := cs[..n];
    forall k | 0 <= k < |p| && p[k].parent.Some? ensures exists m :: 0 <= m < k && p[m].id == p[k].parent.value {
      assert cs[k] == p[k];
      var m :| 0 <= m < k && cs[m].id == cs[k].parent.value;
      assert p[m] == cs[m];
    }
  }

  /** Into a table holding none of the ids, copying rows with distinct ids whose posts and
      users exist and whose parents come first copies every one of them. */
  lemma {:induction false} CopyAllComplete(cs: seq<Comment>, table: map<int, Comment>, posts: set<int>, users: set<int>)
    requires DistinctIds(cs) && ParentsFirst(cs)
    requires forall k :: 0 <= k < |cs| ==> cs[k].id !in table && cs[k].postId in posts && cs[k].userId in users
    ensures forall k :: 0 <= k < |cs| ==> cs[k].id in CopyAll(cs, table, posts, users) && CopyAll(cs, table, posts, users)[cs[k].id] == cs[k]
    ensures SkippedIds(cs, table, posts, users) == []
    decreases |cs|
  {
    if |cs| > 0 {
      var p := cs[..|cs| - 1];
      var c := cs[|cs| - 1];
      ParentsFirstPrefix(cs, |cs| - 1);
      CopyAllComplete(p, table, posts, users);
      var t := CopyAll(p, table, posts, users);
      forall k | 0 <= k < |cs| - 1 ensures cs[k].id in t {
        assert p[k] == cs[k];
      }
      LastInserted(cs, table, posts, users);
      assert CopyAll(cs, table, posts, users) == t[c.id := c];
      forall k | 0 <= k < |cs| ensures cs[k].id in CopyAll(cs, table, posts, users) && CopyAll(cs, table, posts, users)[cs[k].id] == cs[k] {
        if k < |cs| - 1 {
          assert p[k] == cs[k];
        }
      }
    }
  }

  /** The last row of such a sequence finds its parent copied and its id free. */
  lemma LastInserted(cs: seq<Comment>, table: map<int, Comment>, posts: set<int>, users: set<int>)
    requires |cs| > 0 && DistinctIds(cs) && ParentsFirst(cs)
    requires forall k :: 0 <= k < |cs| ==> cs[k].id !in table && cs[k].postId in posts && cs[k].userId in users
    requires forall k :: 0 <= k < |cs| - 1 ==> cs[k].id in CopyAll(cs[..|cs| - 1], table, posts, users)
    ensures Outcome(cs[|cs| - 1], CopyAll(cs[..|cs| - 1], table, posts, users), posts, users) == Inserted
  {
    var p := cs[..|cs| - 1];
    var c := cs[|cs| - 1];
    CopyAllGrows(p, table, posts, users);
    var t := CopyAll(p, table, posts, users);
    assert c.id !in t by {
      forall k | 0 <= k < |p| ensures p[k].id != c.id {
        assert p[k] == cs[k];
      }
    }
    if c.parent.Some? {
      var m :| 0 <= m < |cs| - 1 && cs[m].id == c.parent.value;
      assert p[m] == cs[m];
    }
  }

  /** A sequence and its sort by id hold the same rows. */
  lemma SortSameRows(source: seq<Comment>)
    ensures forall c :: c in source <==> c in Seqs.Sort(source, ById())
    ensures |Seqs.Sort(source, ById())| == |source|
  {
    Seqs.SortPermutation(source, ById());
    var s := Seqs.Sort(source, ById());
    forall c ensures c in source <==> c in s {
      assert c in source <==> c in multiset(source);
      assert c in s <==> c in multiset(s);
    }
    assert |multiset(s)| == |multiset(source)|;
  }

  /** In a sequence sorted by id a row with a smaller id comes earlier. */
  lemma SmallerIdEarlier(s: seq<Comment>, k: int, m: int)
    requires Seqs.Sorted(s, ById()) && 0 <= k < |s| && 0 <= m < |s| && s[m].id < s[k].id
    ensures m < k
  {}

  /** Sorting by id puts a parent before its replies whenever the parent has the smaller
      id, which is the script's reason for sorting. */
  lemma SortedParentsFirst(source: seq<Comment>)
    requires forall k :: 0 <= k < |source| && source[k].parent.Some? ==>
      exists m :: 0 <= m < |source| && source[m].id == source[k].parent.value && source[m].id < source[k].id
    ensures ParentsFirst(Seqs.Sort(source, ById()))
  {
    var s := Seqs.Sort(source, ById());
    SortSameRows(source);
    ByIdTotal();
    Seqs.SortSorted(source, ById());
    forall k | 0 <= k < |s| && s[k].parent.Some? ensures exists m :: 0 <= m < k && s[m].id == s[k].parent.value {
      assert s[k] in source;
      var k0 :| 0 <= k0 < |source| && source[k0] == s[k];
      var m0 :| 0 <= m0 < |source| && source[m0].id == source[k0].parent.value && source[m0].id < source[k0].id;
      assert source[m0] in s;
      var m :| 0 <= m < |s| && s[m] == source[m0];
      SmallerIdEarlier(s, k, m);
    }
  }

  /** With distinct ids a row occurs once. */
  lemma {:induction false} DistinctOnce(cs: seq<Comment>, x: Comment)
    requires DistinctIds(cs)
    ensures multiset(cs)[x] <= 1
    decreases |cs|
  {
    if |cs| > 0 {
      var r := cs[1..];
      assert DistinctIds(r) by {
        forall i, j | 0 <= i < j < |r| ensures r[i].id != r[j].id {
          assert r[i] == cs[i + 1] && r[j] == cs[j + 1];
        }
      }
      DistinctOnce(r, x);
      assert cs == [cs[0]] + r;
      if x == cs[0] {
        forall k | 0 <= k < |r| ensures r[k] != x {
          assert r[k] == cs[k + 1];
        }
        assert x !in multiset(r);
      }
    }
  }

  /** A row at two positions occurs twice. */
  lemma TwiceInMultiset(s: seq<Comment>, i: int, j: int)
    requires 0 <= i < j < |s| && s[i] == s[j]
    ensures multiset(s)[s[i]] >= 2
  {
    assert s == s[..i] + [s[i]] + s[i + 1..j] + [s[j]] + s[j + 1..];
  }

  /** Sorting keeps ids distinct. */
  lemma SortedDistinct(source: seq<Comment>)
    requires DistinctIds(source)
    ensures DistinctIds(Seqs.Sort(source, ById()))
  {
    var s := Seqs.Sort(source, ById());
    Seqs.SortPermutation(source, ById());
    SortSameRows(source);
    forall i, j | 0 <= i < j < |s| ensures s[i].id != s[j].id {
      if s[i] == s[j] {
        TwiceInMultiset(s, i, j);
        DistinctOnce(source, s[i]);
      } else {
        assert s[i] in source && s[j] in source;
      }
    }
  }

  /** The comments table after copying `source` into an empty target. */
  function Migrated(source: seq<Comment>, posts: set<int>, users: set<int>): map<int, Comment> {
    CopyAll(Seqs.Sort(source, ById()), map[], posts, users)
  }

  /** The copy the script relies on: source comments with distinct ids, existing posts and
      users, and each parent with a smaller id than its reply, all reach an empty target,
      and none is reported skipped. */
  lemma MigrationCopiesEveryComment(source: seq<Comment>, posts: set<int>, users: set<int>)
    requires DistinctIds(source)
    requires forall k :: 0 <= k < |source| ==> source[k].postId in posts && source[k].userId in users
    requires forall k :: 0 <= k < |source| && source[k].parent.Some? ==>
      exists m :: 0 <= m < |source| && source[m].id == source[k].parent.value && source[m].id < source[k].id
    ensures forall c :: c in source ==> c.id in Migrated(source, posts, users) && Migrated(source, posts, users)[c.id] == c
    ensures SkippedIds(Seqs.Sort(source, ById()), map[], posts, users) == []
  {
    var s := Seqs.Sort(source, ById());
    SortedParentsFirst(source);
    SortedDistinct(source);
    SortSameRows(source);
    forall k | 0 <= k < |s| ensures s[k].postId in posts && s[k].userId in users {
      assert s[k] in source;
    }
    CopyAllComplete(s, map[], posts, users);
    forall c | c in source ensures c.id in CopyAll(s, map[], posts, users) && CopyAll(s, map[], posts, users)[c.id] == c {
      assert c in s;
    }
  }
}

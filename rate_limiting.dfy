/** `createUserRateLimiter`: a per-user, per-endpoint fixed window over the
    `rate_limit_tracking` table, with the `X-RateLimit-*` headers. */
module RateLimiting {
  import opened Wrappers

  /** The limiter options; absent ones take the defaults. */
  datatype Options = Options(windowMs: Option<int>, max: Option<int>, endpoint: Option<string>)

  const DefaultWindowMs: int := 15 * 60 * 1000
  const DefaultMax: int := 100

  function WindowMs(o: Options): int { o.windowMs.GetOr(DefaultWindowMs) }
  function Max(o: Options): int { o.max.GetOr(DefaultMax) }

  /** `endpoint || req.path`. */
  function Endpoint(o: Options, path: string): (e: string)
    ensures o.endpoint.Some? && o.endpoint.value != "" ==> e == o.endpoint.value
    ensures o.endpoint.None? || o.endpoint.value == "" ==> e == path
  {
    if o.endpoint.Some? && o.endpoint.value != "" then o.endpoint.value else path
  }

  /** The limiters the module exports. */
  const AuthLimiter := Options(Some(15 * 60 * 1000), Some(5), Some("auth"))
  const ApiLimiter := Options(Some(15 * 60 * 1000), Some(100), None)
  const PostCreationLimiter := Options(Some(60 * 60 * 1000), Some(20), Some("create_post"))
  const CommentLimiter := Options(Some(15 * 60 * 1000), Some(50), Some("create_comment"))
  const UploadLimiter := Options(Some(60 * 60 * 1000), Some(50), Some("upload"))
  const SearchLimiter := Options(Some(60 * 1000), Some(20), Some("search"))
  const FriendRequestLimiter := Options(Some(24 * 60 * 60 * 1000), Some(50), Some("friend_request"))

  datatype Tracking = Tracking(id: int, userId: int, ip: string, endpoint: string, count: int, windowStart: int, windowEnd: int)

  /** `Math.ceil(ms / 1000)`. */
  function CeilSeconds(ms: int): (s: int)
    ensures 1000 * s - 1000 < ms <= 1000 * s
  {
    -((-ms) / 1000)
  }

  datatype Headers = Headers(limit: int, remaining: int, reset: int, used: int, retryAfter: Option<int>)

  /** `setRateLimitHeaders`; `now` is the clock read for `Retry-After`. */
  function RateLimitHeaders(current: int, limit: int, resetMs: int, exceeded: bool, now: int): (h: Headers)
    ensures h.limit == limit && h.used == current && h.reset == CeilSeconds(resetMs)
    ensures exceeded ==> h.remaining == 0 && h.retryAfter == Some(CeilSeconds(resetMs - now))
    ensures !exceeded ==> h.retryAfter.None? && h.remaining >= 0
    ensures !exceeded && current <= limit ==> h.remaining == limit - current
    ensures !exceeded && current > limit ==> h.remaining == 0
  {
    Headers(limit, if exceeded then 0 else if limit - current > 0 then limit - current else 0,
            CeilSeconds(resetMs), current, if exceeded then Some(CeilSeconds(resetMs - now)) else None)
  }

  predicate Active(r: Tracking, userId: int, endpoint: string, now: int) {
    r.userId == userId && r.endpoint == endpoint && r.windowEnd > now
  }

  /** The first row of `WHERE user_id, endpoint, window_end > NOW() ORDER BY window_start
      DESC`, ties kept in table order: the index of the earliest active row with the latest
      start. */
  function LatestActive(rows: seq<Tracking>, userId: int, endpoint: string, now: int): (r: Option<nat>)
    ensures r.Some? ==> r.value < |rows| && Active(rows[r.value], userId, endpoint, now)
    ensures r.Some? ==> forall j :: 0 <= j < |rows| && Active(rows[j], userId, endpoint, now) ==>
      rows[j].windowStart <= rows[r.value].windowStart && (j < r.value ==> rows[j].windowStart < rows[r.value].windowStart)
    ensures r.None? <==> forall j :: 0 <= j < |rows| ==> !Active(rows[j], userId, endpoint, now)
    decreases |rows|
  {
    if rows == [] then None
    else
      var last := |rows| - 1;
      var before := LatestActive(rows[..last], userId, endpoint, now);
      if !Active(rows[last], userId, endpoint, now) then before
      else if before.Some? && rows[before.value].windowStart >= rows[last].windowStart then before
      else Some(last)
  }

  datatype Outcome =
    | IpFallback
    | Allowed(headers: Headers)
    | TooManyRequests(headers: Headers, retryAfter: int, limit: int, current: int)
    | FailedOpen

  datatype Table = Table(rows: seq<Tracking>, nextId: int)

  /** One request through the limiter. `userId` 0 means no authenticated user, `now` is
      the clock and `dbDown` a failing database. */
  function Step(t: Table, o: Options, userId: int, ip: string, path: string, now: int, dbDown: bool): (r: (Table, Outcome))
    ensures userId == 0 ==> r == (t, IpFallback)
    ensures userId != 0 && dbDown ==> r == (t, FailedOpen)
    ensures userId != 0 && !dbDown && LatestActive(t.rows, userId, Endpoint(o, path), now).None? ==>
      r.0.rows == t.rows + [Tracking(t.nextId, userId, ip, Endpoint(o, path), 1, now, now + WindowMs(o))]
      && r.1 == Allowed(RateLimitHeaders(1, Max(o), now + WindowMs(o), false, now))
    ensures userId != 0 && !dbDown && LatestActive(t.rows, userId, Endpoint(o, path), now).Some? ==>
      var i := LatestActive(t.rows, userId, Endpoint(o, path), now).value;
      if t.rows[i].count >= Max(o) then r.0 == t && r.1.TooManyRequests? && r.1.current == t.rows[i].count
      else r.0.rows == t.rows[i := t.rows[i].(count := t.rows[i].count + 1)] && r.1.Allowed? && r.1.headers.used == t.rows[i].count + 1
  {
    if userId == 0 then (t, IpFallback)
    else if dbDown then (t, FailedOpen)
    else
      var endpoint := Endpoint(o, path);
      var max := Max(o);
      match LatestActive(t.rows, userId, endpoint, now)
      case None =>
        var windowEnd := now + WindowMs(o);
        (Table(t.rows + [Tracking(t.nextId, userId, ip, endpoint, 1, now, windowEnd)], t.nextId + 1),
         Allowed(RateLimitHeaders(1, max, windowEnd, false, now)))
      case Some(i) =>
        var r := t.rows[i];
        if r.count >= max then
          (t, TooManyRequests(RateLimitHeaders(r.count, max, r.windowEnd, true, now), CeilSeconds(r.windowEnd - now), max, r.count))
        else
          (t.(rows := t.rows[i := r.(count := r.count + 1)]), Allowed(RateLimitHeaders(r.count + 1, max, r.windowEnd, false, now)))
  }

  /** Every tracked count stays within the limit. */
  ghost predicate CountsWithin(rows: seq<Tracking>, max: int) {
    forall i :: 0 <= i < |rows| ==> rows[i].count <= max
  }

  /** A request never pushes a count over the limit. */
  lemma StepKeepsCounts(t: Table, o: Options, userId: int, ip: string, path: string, now: int, dbDown: bool)
    requires Max(o) >= 1 && CountsWithin(t.rows, Max(o))
    ensures CountsWithin(Step(t, o, userId, ip, path, now, dbDown).0.rows, Max(o))
  {}

  /** `n` requests by one user to one endpoint at the same instant. */
  function Burst(t: Table, o: Options, userId: int, ip: string, path: string, now: int, n: nat): (r: (Table, seq<Outcome>))
    ensures |r.1| == n
  {
    if n == 0 then (t, [])
    else
      var (t1, outs) := Burst(t, o, userId, ip, path, now, n - 1);
      var (t2, out) := Step(t1, o, userId, ip, path, now, false);
      (t2, outs + [out])
  }

  function Admitted(outs: seq<Outcome>): nat {
    if outs == [] then 0 else Admitted(outs[..|outs| - 1]) + if outs[|outs| - 1].Allowed? then 1 else 0
  }

  function Min(a: int, b: int): int { if a <= b then a else b }

  /** When the last row is the only one active for the user and endpoint, the lookup
      finds it. */
  lemma OnlyLastActive(rows: seq<Tracking>, userId: int, e: string, now: int)
    requires |rows| > 0 && LatestActive(rows[..|rows| - 1], userId, e, now).None?
    requires Active(rows[|rows| - 1], userId, e, now)
    ensures LatestActive(rows, userId, e, now) == Some(|rows| - 1)
  {}

  lemma AdmittedSnoc(outs: seq<Outcome>, out: Outcome)
    ensures Admitted(outs + [out]) == Admitted(outs) + if out.Allowed? then 1 else 0
  {
    assert (outs + [out])[..|outs|] == outs;
  }

  /** No window is open yet for the user and endpoint, and the options admit requests. */
  predicate NoWindowYet(t: Table, o: Options, userId: int, path: string, now: int) {
    userId != 0 && Max(o) >= 1 && WindowMs(o) > 0 && LatestActive(t.rows, userId, Endpoint(o, path), now).None?
  }

  /** After `n` requests of a burst, the table is `t` with one new row, the burst's
      window, counting `min(n, max)`, and `min(n, max)` requests were admitted. */
  predicate Opened(t: Table, o: Options, userId: int, ip: string, path: string, now: int, n: nat, r: (Table, seq<Outcome>)) {
    |r.0.rows| == |t.rows| + 1 && r.0.rows[..|t.rows|] == t.rows &&
    r.0.rows[|t.rows|] == Tracking(t.nextId, userId, ip, Endpoint(o, path), Min(n, Max(o)), now, now + WindowMs(o)) &&
    Admitted(r.1) == Min(n, Max(o))
  }

  /** The one window a burst opens: after `n` requests it is the only active row and
      counts `min(n, max)`. */
  lemma {:induction false} BurstWindow(t: Table, o: Options, userId: int, ip: string, path: string, now: int, n: nat)
    requires NoWindowYet(t, o, userId, path, now) && n >= 1
    ensures Opened(t, o, userId, ip, path, now, n, Burst(t, o, userId, ip, path, now, n))
  {
    if n == 1 {
      BurstFirst(t, o, userId, ip, path, now);
    } else {
      BurstWindow(t, o, userId, ip, path, now, n - 1);
      BurstStep(t, o, userId, ip, path, now, n);
    }
  }

  /** The first request of a burst opens the window with a count of one. */
  lemma BurstFirst(t: Table, o: Options, userId: int, ip: string, path: string, now: int)
    requires NoWindowYet(t, o, userId, path, now)
    ensures Opened(t, o, userId, ip, path, now, 1, Burst(t, o, userId, ip, path, now, 1))
  {
    BurstUnfold(t, o, userId, ip, path, now, 1);
    var st := Step(t, o, userId, ip, path, now, false);
    AdmittedSnoc([], st.1);
    assert st.0.rows[..|t.rows|] == t.rows;
  }

  /** The inductive step of `BurstWindow`: one more request finds the burst's row. */
  lemma BurstStep(t: Table, o: Options, userId: int, ip: string, path: string, now: int, n: nat)
    requires NoWindowYet(t, o, userId, path, now) && n >= 2
    requires Opened(t, o, userId, ip, path, now, n - 1, Burst(t, o, userId, ip, path, now, n - 1))
    ensures Opened(t, o, userId, ip, path, now, n, Burst(t, o, userId, ip, path, now, n))
  {
    var r1 := Burst(t, o, userId, ip, path, now, n - 1);
    var k := |t.rows|;
    BurstUnfold(t, o, userId, ip, path, now, n);
    OnlyLastActive(r1.0.rows, userId, Endpoint(o, path), now);
    var st := Step(r1.0, o, userId, ip, path, now, false);
    AdmittedSnoc(r1.1, st.1);
    if n - 1 < Max(o) {
      assert st.0.rows[..k] == t.rows;
    }
  }

  lemma BurstUnfold(t: Table, o: Options, userId: int, ip: string, path: string, now: int, n: nat)
    requires n >= 1
    ensures var r1 := Burst(t, o, userId, ip, path, now, n - 1);
      var st := Step(r1.0, o, userId, ip, path, now, false);
      Burst(t, o, userId, ip, path, now, n) == (st.0, r1.1 + [st.1])
  {}

  /** Within one window at most `max` requests pass: a burst of `n` admits `min(n, max)`. */
  lemma BurstAdmits(t: Table, o: Options, userId: int, ip: string, path: string, now: int, n: nat)
    requires NoWindowYet(t, o, userId, path, now)
    ensures Admitted(Burst(t, o, userId, ip, path, now, n).1) == Min(n, Max(o))
  {
    if n >= 1 {
      BurstWindow(t, o, userId, ip, path, now, n);
    }
  }

  class TrackingTable {
    var rows: seq<Tracking>
    var nextId: int

    constructor ()
      ensures rows == [] && nextId == 1
    {
      rows := [];
      nextId := 1;
    }

    /** The middleware: the table changes exactly as `Step` says. */
    method Limit(o: Options, userId: int, ip: string, path: string, now: int, dbDown: bool) returns (out: Outcome)
      modifies this
      ensures (Table(rows, nextId), out) == Step(Table(old(rows), old(nextId)), o, userId, ip, path, now, dbDown)
    {
      if userId == 0 {
        return IpFallback;
      }
      if dbDown {
        return FailedOpen;
      }
      var endpoint := Endpoint(o, path);
      var max := Max(o);
      var found := LatestActive(rows, userId, endpoint, now);
      if found.None? {
        var windowEnd := now + WindowMs(o);
        rows := rows + [Tracking(nextId, userId, ip, endpoint, 1, now, windowEnd)];
        nextId := nextId + 1;
        return Allowed(RateLimitHeaders(1, max, windowEnd, false, now));
      }
      var i := found.value;
      var r := rows[i];
      if r.count >= max {
        return TooManyRequests(RateLimitHeaders(r.count, max, r.windowEnd, true, now), CeilSeconds(r.windowEnd - now), max, r.count);
      }
      rows := rows[i := r.(count := r.count + 1)];
      out := Allowed(RateLimitHeaders(r.count + 1, max, r.windowEnd, false, now));
    }
  }
}

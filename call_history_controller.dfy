/** The call-history controller: the request validation of `createCallHistory` and the
    query defaults of the two listing handlers. The storage behind them is a service that
    is not part of this model, so each handler is modelled by the call it hands on. */
module CallHistoryController {
  import opened Wrappers
  import Json

  const CallTypes: seq<string> := ["video", "voice"]
  const CallStatuses: seq<string> := ["completed", "missed", "rejected", "failed"]

  const MissingFields := "receiverId, callType, and status are required"
  const BadCallType := "callType must be \"video\" or \"voice\""
  const BadStatus := "status must be \"completed\", \"missed\", \"rejected\", or \"failed\""

  /** A body member as JavaScript sees it: an absent member is `undefined`, which is falsy. */
  predicate Given(v: Option<Json.Value>) {
    v.Some? && Json.Truthy(v.value)
  }

  /** `list.includes(v)` for a list of strings: strict equality, so only a JSON string can
      match. */
  predicate OneOf(v: Option<Json.Value>, list: seq<string>) {
    v.Some? && v.value.Str? && v.value.s in list
  }

  /** What `createCallHistory` passes to the service. */
  datatype CallRecord = CallRecord(callerId: int, receiverId: Json.Value, callType: string,
    status: string, duration: Json.Value)

  /** The 400 reply, or the record to store. */
  datatype CreateOutcome = BadRequest(message: string) | Create(record: CallRecord)

  /** `duration || 0`. */
  function DurationOrZero(duration: Option<Json.Value>): (d: Json.Value)
    ensures Given(duration) ==> d == duration.value
    ensures !Given(duration) ==> d == Json.Num(0, 0)
  {
    if Given(duration) then duration.value else Json.Num(0, 0)
  }

  /** `createCallHistory`: the three checks in the order the handler makes them. */
  function CreateCallHistory(userId: int, receiverId: Option<Json.Value>, callType: Option<Json.Value>,
    status: Option<Json.Value>, duration: Option<Json.Value>): (r: CreateOutcome)
    ensures r.Create? <==> (Given(receiverId) && OneOf(callType, CallTypes) && OneOf(status, CallStatuses))
    ensures r == BadRequest(MissingFields) <==> !(Given(receiverId) && Given(callType) && Given(status))
    ensures r == BadRequest(BadCallType) <==>
      (Given(receiverId) && Given(callType) && Given(status) && !OneOf(callType, CallTypes))
    ensures r == BadRequest(BadStatus) <==>
      (Given(receiverId) && OneOf(callType, CallTypes) && Given(status) && !OneOf(status, CallStatuses))
    ensures r.Create? ==> r.record == CallRecord(userId, receiverId.value, callType.value.s,
      status.value.s, DurationOrZero(duration))
  {
    if !Given(receiverId) || !Given(callType) || !Given(status) then BadRequest(MissingFields)
    else if !OneOf(callType, CallTypes) then BadRequest(BadCallType)
    else if !OneOf(status, CallStatuses) then BadRequest(BadStatus)
    else Create(CallRecord(userId, receiverId.value, callType.value.s, status.value.s, DurationOrZero(duration)))
  }

  /** Every stored record has one of the two call types and one of the four statuses,
      and a duration that is never falsy-and-missing. */
  lemma CreatedRecordIsWellFormed(userId: int, receiverId: Option<Json.Value>, callType: Option<Json.Value>,
    status: Option<Json.Value>, duration: Option<Json.Value>)
    requires CreateCallHistory(userId, receiverId, callType, status, duration).Create?
    ensures var rec := CreateCallHistory(userId, receiverId, callType, status, duration).record;
      rec.callType in CallTypes && rec.status in CallStatuses && Json.Truthy(rec.receiverId) &&
      (Json.Truthy(rec.duration) || rec.duration == Json.Num(0, 0))
  {}

  /** The empty string is an absent value as far as the first check goes. */
  lemma EmptyStatusIsMissing(userId: int, receiverId: Option<Json.Value>, callType: Option<Json.Value>,
    duration: Option<Json.Value>)
    ensures CreateCallHistory(userId, receiverId, callType, Some(Json.Str("")), duration) == BadRequest(MissingFields)
  {}

  /** `Number(req.query.limit) || fallback`, with `None` standing for a `NaN` conversion. */
  function LimitOr(limit: Option<int>, fallback: int): (n: int)
    ensures limit.Some? && limit.value != 0 ==> n == limit.value
    ensures (limit.None? || limit.value == 0) ==> n == fallback
  {
    if limit.Some? && limit.value != 0 then limit.value else fallback
  }

  const BetweenUsersLimit := 50
  const ForUserLimit := 100

  /** The history handlers never ask the service for zero rows. */
  lemma LimitNonZero(limit: Option<int>)
    ensures LimitOr(limit, BetweenUsersLimit) != 0 && LimitOr(limit, ForUserLimit) != 0
    ensures limit.None? ==> LimitOr(limit, BetweenUsersLimit) == 50 && LimitOr(limit, ForUserLimit) == 100
  {}

  /** The query `getCallHistoryBetweenUsers` hands on: the two participants and the row limit. */
  datatype HistoryQuery = HistoryQuery(currentUserId: int, otherUserId: int, limit: int)

  /** `getCallHistoryBetweenUsers`: a falsy (zero or `NaN`) other user id is 400
      `Invalid userId`, checked after the limit is read. */
  function GetCallHistoryBetweenUsers(currentUserId: int, otherUserId: Option<int>, limit: Option<int>)
    : (r: Result<HistoryQuery, string>)
    ensures r.Err? <==> (otherUserId.None? || otherUserId.value == 0)
    ensures r.Err? ==> r.error == "Invalid userId"
    ensures r.Ok? ==> r.value == HistoryQuery(currentUserId, otherUserId.value, LimitOr(limit, BetweenUsersLimit))
  {
    var n := LimitOr(limit, BetweenUsersLimit);
    if otherUserId.None? || otherUserId.value == 0 then Err("Invalid userId")
    else Ok(HistoryQuery(currentUserId, otherUserId.value, n))
  }

  /** The other user id is never zero in a query that reaches the service, and the limit
      is never zero either. */
  lemma BetweenUsersQueryValid(currentUserId: int, otherUserId: Option<int>, limit: Option<int>)
    requires GetCallHistoryBetweenUsers(currentUserId, otherUserId, limit).Ok?
    ensures var q := GetCallHistoryBetweenUsers(currentUserId, otherUserId, limit).value;
      q.otherUserId != 0 && q.limit != 0 && Some(q.otherUserId) == otherUserId
  {
    LimitNonZero(limit);
  }
}

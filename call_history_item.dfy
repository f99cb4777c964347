/** The call-history bubble of the chat window: direction, missed classification, the
    description line and the duration text. */
module CallHistoryItem {
  import opened Wrappers
  import Text
  import CallHistoryController

  /** The fields of a call-history row the bubble reads. */
  datatype CallRow = CallRow(callerId: int, receiverId: int, callType: string, status: string,
    duration: Option<int>)

  /** Incoming exactly when the current user received the call. */
  predicate IsIncoming(c: CallRow, currentUserId: int) {
    c.receiverId == currentUserId
  }

  /** Rejected and busy calls are shown as missed. */
  predicate IsMissed(status: string) {
    status == "missed" || status == "rejected" || status == "callee_busy"
  }

  const MissedIncoming := "Cuộc gọi nhỡ"
  const MissedOutgoing := "Người dùng không bắt máy"

  /** The description line. It is a function of the three facts only, so two rows that agree
      on them read the same. */
  function Description(missed: bool, incoming: bool, callType: string): (d: string)
    ensures missed && incoming ==> d == MissedIncoming
    ensures missed && !incoming ==> d == MissedOutgoing
    ensures !missed ==> var typeText := if callType == "video" then "Video call" else "Cuộc gọi thoại";
      d == typeText + (if incoming then " đến" else " đi")
  {
    var typeText := if callType == "video" then "Video call" else "Cuộc gọi thoại";
    if missed then (if incoming then MissedIncoming else MissedOutgoing)
    else if incoming then typeText + " đến" else typeText + " đi"
  }

  /** The four descriptions of an answered call are pairwise distinct, and none of them is a
      missed-call text: the line tells direction, type and outcome apart. */
  lemma DescriptionDistinguishes(m1: bool, i1: bool, t1: string, m2: bool, i2: bool, t2: string)
    requires Description(m1, i1, t1) == Description(m2, i2, t2)
    ensures m1 == m2 && i1 == i2
    ensures !m1 ==> ((t1 == "video") <==> (t2 == "video"))
  {
    var d := Description(m1, i1, t1);
    if !m1 && !m2 {
      var a := if t1 == "video" then "Video call" else "Cuộc gọi thoại";
      var b := if t2 == "video" then "Video call" else "Cuộc gọi thoại";
      var s1 := if i1 then " đến" else " đi";
      var s2 := if i2 then " đến" else " đi";
      assert d == a + s1 && d == b + s2;
      assert d[0] == a[0] && d[0] == b[0];
      assert a == b by { assert (a == "Video call") == (d[0] == 'V'); assert (b == "Video call") == (d[0] == 'V'); }
      assert s1 == d[|a|..] == s2;
    }
  }

  /** JavaScript's `%`: the remainder takes the sign of the dividend. */
  function JsRem(a: int, b: int): (r: int)
    requires b > 0
    ensures a >= 0 ==> 0 <= r < b && r == a % b
    ensures a < 0 ==> -b < r <= 0
  {
    if a >= 0 then a % b else -((-a) % b)
  }

  /** `Math.floor(a / b)` for a positive divisor, which is Dafny's division. */
  function FloorDiv(a: int, b: int): (q: int)
    requires b > 0
    ensures q * b <= a < q * b + b
  {
    a / b
  }

  const MissedText := "Bỏ lỡ"

  /** `formatDuration`: missed calls and calls without a duration read `Bỏ lỡ`; others read
      minutes and seconds. */
  function FormatDuration(missed: bool, duration: Option<int>): (s: string)
    ensures (missed || duration.None? || duration.value == 0) <==> s == MissedText
  {
    if missed || duration.None? || duration.value == 0 then MissedText
    else
      var text := Text.IntToString(FloorDiv(duration.value, 60)) + " phút "
        + Text.IntToString(JsRem(duration.value, 60)) + " giây";
      assert text[|text| - 1] == 'y';
      text
  }

  /** An answered call of a positive duration reads `m phút s giây` with `s` below 60 and
      `m * 60 + s` the duration: whole minutes and the remaining seconds. */
  lemma DurationShown(d: nat)
    requires d > 0
    ensures exists m: nat, sec: nat :: (sec < 60 && m * 60 + sec == d &&
      FormatDuration(false, Some(d)) == Text.NatToString(m) + " phút " + Text.NatToString(sec) + " giây")
  {
    var m: nat, sec: nat := d / 60, d % 60;
    assert FloorDiv(d, 60) == m && JsRem(d, 60) == sec;
    assert Text.IntToString(m) == Text.NatToString(m) && Text.IntToString(sec) == Text.NatToString(sec);
    assert FormatDuration(false, Some(d)) == Text.NatToString(m) + " phút " + Text.NatToString(sec) + " giây";
  }

  /** For a negative duration the two numbers do not add back up, because `Math.floor`
      rounds down while `%` truncates: -1 seconds reads `-1 phút -1 giây`. */
  lemma NegativeDurationShown()
    ensures FloorDiv(-1, 60) == -1 && JsRem(-1, 60) == -1
    ensures FormatDuration(false, Some(-1)) == "-1 phút -1 giây"
  {
    assert Text.IntToString(-1) == "-1";
  }

  /** Of the statuses the controller accepts, exactly `missed` and `rejected` read as missed;
      `callee_busy` is never stored through it. */
  lemma MissedOfStoredStatus(status: string)
    requires status in CallHistoryController.CallStatuses
    ensures IsMissed(status) <==> (status == "missed" || status == "rejected")
    ensures status != "callee_busy"
  {}
}

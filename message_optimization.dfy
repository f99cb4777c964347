/** The `useMessageOptimization` hook: the batch of messages on screen, grown thirty older
    messages at a time. The hook's list of all messages is passed to each operation. */
module MessageOptimization {
  const LoadBatch := 30

  function Min(a: int, b: int): int { if a <= b then a else b }

  /** `s.slice(-n)`: the last `n` elements, or all of them; `slice(-0)` is the whole list. */
  function SliceFromEnd<T>(s: seq<T>, n: nat): (r: seq<T>)
    ensures n == 0 ==> r == s
    ensures n > 0 ==> |r| == Min(n, |s|)
    ensures r == s[|s| - |r|..]
  {
    if n == 0 then s else s[|s| - Min(n, |s|)..]
  }

  class MessageWindow<T(==)> {
    var visibleMessages: seq<T>
    var hasMore: bool
    var isLoadingMore: bool

    /** The messages on screen are the newest ones, and `hasMore` says whether older ones
        are left. */
    predicate Valid(all: seq<T>)
      reads this
    {
      |visibleMessages| <= |all| && visibleMessages == all[|all| - |visibleMessages|..] &&
      (hasMore <==> |visibleMessages| < |all|)
    }

    constructor ()
      ensures visibleMessages == [] && !hasMore && !isLoadingMore
    {
      visibleMessages, hasMore, isLoadingMore := [], false, false;
    }

    /** The initialising effect: with messages present, the newest `batch` of them, and
        `hasMore` when there are more than `batch`; with none, nothing changes. */
    method Initialize(all: seq<T>, batch: nat)
      modifies this
      ensures |all| > 0 ==> visibleMessages == SliceFromEnd(all, batch) && hasMore == (|all| > batch)
      ensures |all| == 0 ==> visibleMessages == old(visibleMessages) && hasMore == old(hasMore)
      ensures isLoadingMore == old(isLoadingMore)
      ensures |all| > 0 && batch > 0 ==> Valid(all)
    {
      if |all| > 0 {
        visibleMessages := SliceFromEnd(all, batch);
        hasMore := |all| > batch;
      }
    }

    /** `loadMore` up to the timer: refused while loading or with nothing more. */
    method StartLoadMore() returns (started: bool)
      modifies this
      ensures started <==> (!old(isLoadingMore) && old(hasMore))
      ensures started ==> isLoadingMore
      ensures !started ==> isLoadingMore == old(isLoadingMore)
      ensures visibleMessages == old(visibleMessages) && hasMore == old(hasMore)
    {
      if isLoadingMore || !hasMore {
        return false;
      }
      isLoadingMore := true;
      started := true;
    }

    /** The timer of `loadMore`: when everything is shown, `hasMore` clears; otherwise the
        next older batch of up to thirty is put in front, and `hasMore` says whether any
        remain. Loading ends in both cases. */
    method FinishLoadMore(all: seq<T>)
      modifies this
      ensures !isLoadingMore
      ensures |old(visibleMessages)| >= |all| ==> !hasMore && visibleMessages == old(visibleMessages)
      ensures |old(visibleMessages)| < |all| ==>
        var batch := Min(LoadBatch, |all| - |old(visibleMessages)|);
        var start := |all| - |old(visibleMessages)| - batch;
        visibleMessages == all[start..|all| - |old(visibleMessages)|] + old(visibleMessages) &&
        hasMore == (start > 0)
      ensures old(Valid(all)) ==> Valid(all)
      ensures old(Valid(all)) && |old(visibleMessages)| < |all| ==>
        |visibleMessages| == Min(|all|, |old(visibleMessages)| + LoadBatch)
    {
      var current := |visibleMessages|;
      var total := |all|;
      if current >= total {
        hasMore := false;
        isLoadingMore := false;
        return;
      }
      var batch := Min(LoadBatch, total - current);
      var start := total - current - batch;
      var end := total - current;
      ghost var before := visibleMessages;
      visibleMessages := all[start..end] + visibleMessages;
      hasMore := start > 0;
      isLoadingMore := false;
      if before == all[end..] {
        assert all[start..] == all[start..end] + all[end..];
      }
    }
  }

  /** A window that is a suffix of the messages, with `hasMore` saying whether older ones
      remain, shows every message once `hasMore` is false. */
  lemma NoMoreMeansAll<T>(all: seq<T>, shown: seq<T>, hasMore: bool)
    requires |shown| <= |all| && shown == all[|all| - |shown|..] && (hasMore <==> |shown| < |all|)
    requires !hasMore
    ensures shown == all
  {}
}

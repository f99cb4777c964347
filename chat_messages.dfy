/** The `useChatMessages` hook: the cursor for the next older page, the flattening of the
    cached pages into one list, and the optimistic append of a sent message. */
module ChatMessages {
  import opened Wrappers
  import ChatModel

  type Message = ChatModel.Message

  const ItemsPerPage := 30

  /** `getNextPageParam`: no cursor after a missing or short page; otherwise the id of the
      page's first (oldest) message. */
  function NextPageParam(lastPage: Option<seq<Message>>): (r: Option<int>)
    ensures r.None? <==> (lastPage.None? || |lastPage.value| < ItemsPerPage)
    ensures r.Some? ==> r.value == lastPage.value[0].id
  {
    if lastPage.None? || |lastPage.value| < ItemsPerPage then None else Some(lastPage.value[0].id)
  }

  /** `pages.slice().reverse().flatMap(page => page)`: the oldest page first. */
  function Flatten(pages: seq<seq<Message>>): (r: seq<Message>)
    decreases |pages|
  {
    if |pages| == 0 then [] else Flatten(pages[1..]) + pages[0]
  }

  /** No cache gives no messages. */
  function Messages(data: Option<seq<seq<Message>>>): seq<Message> {
    if data.None? then [] else Flatten(data.value)
  }

  /** Fetching an older page puts its messages in front of the ones already shown. */
  lemma {:induction false} FlattenOlderPage(pages: seq<seq<Message>>, older: seq<Message>)
    ensures Flatten(pages + [older]) == older + Flatten(pages)
    decreases |pages|
  {
    if |pages| == 0 {
      assert Flatten([older]) == Flatten([]) + older;
    } else {
      FlattenOlderPage(pages[1..], older);
      assert (pages + [older])[1..] == pages[1..] + [older];
    }
  }

  /** The number of messages is the sum of the page sizes. */
  function TotalSize(pages: seq<seq<Message>>): nat
    decreases |pages|
  {
    if |pages| == 0 then 0 else |pages[0]| + TotalSize(pages[1..])
  }

  lemma {:induction false} FlattenSize(pages: seq<seq<Message>>)
    ensures |Flatten(pages)| == TotalSize(pages)
    decreases |pages|
  {
    if |pages| > 0 { FlattenSize(pages[1..]); }
  }

  /** `addMessage`: with no cache a single page holding the message; otherwise the message
      is appended to the first (newest) page. A cache with no page makes the spread of
      `pages[0]` throw, which is `Err`. */
  function AddMessage(data: Option<seq<seq<Message>>>, m: Message): (r: Result<seq<seq<Message>>, string>)
    ensures data.None? ==> r == Ok([[m]])
    ensures data.Some? && |data.value| == 0 ==> r.Err?
    ensures data.Some? && |data.value| > 0 ==>
      r == Ok(data.value[0 := data.value[0] + [m]])
  {
    if data.None? then Ok([[m]])
    else if |data.value| == 0 then Err("undefined is not iterable")
    else Ok(data.value[0 := data.value[0] + [m]])
  }

  /** After `addMessage` the list shows exactly one more message, the new one, last. */
  lemma AddMessageAppends(data: Option<seq<seq<Message>>>, m: Message)
    requires AddMessage(data, m).Ok?
    ensures Flatten(AddMessage(data, m).value) == Messages(data) + [m]
    ensures |Flatten(AddMessage(data, m).value)| == |Messages(data)| + 1
  {
    if data.Some? {
      var pages := data.value;
      var added := pages[0 := pages[0] + [m]];
      assert added[1..] == pages[1..];
    } else {
      assert Flatten([[m]]) == Flatten([]) + [m];
    }
  }
}

/** The in-chat message search: the matching messages, latest first, and stepping through
    them. */
module MessageSearch {
  import opened Wrappers
  import Seqs
  import Text

  /** The fields of a message the search reads. */
  datatype SearchMessage = SearchMessage(id: int, content: Option<string>, replyToContent: Option<string>)

  /** `s && s.toLowerCase().includes(query)`. */
  predicate FieldMatches(field: Option<string>, query: string) {
    field.Some? && field.value != "" && Text.Contains(Text.ToLower(field.value), query)
  }

  function Matches(query: string): SearchMessage -> bool {
    (m: SearchMessage) => FieldMatches(m.content, query) || FieldMatches(m.replyToContent, query)
  }

  function Reverse<T>(s: seq<T>): (r: seq<T>)
    ensures |r| == |s| && forall k :: 0 <= k < |s| ==> r[k] == s[|s| - 1 - k]
    decreases |s|
  {
    if |s| == 0 then [] else Reverse(s[1..]) + [s[0]]
  }

  /** The query as the filter uses it: lower-cased, then trimmed. */
  function Needle(searchQuery: string): string {
    Text.Trim(Text.ToLower(searchQuery))
  }

  /** The search effect: a blank query finds nothing; otherwise the messages whose text or
      replied-to text contains the query, case-insensitively, latest first. */
  function Search(messages: seq<SearchMessage>, searchQuery: string): (r: seq<SearchMessage>)
    ensures Text.Trim(searchQuery) == "" ==> r == []
    ensures forall k :: 0 <= k < |r| ==> r[k] in messages && Matches(Needle(searchQuery))(r[k])
    ensures Text.Trim(searchQuery) != "" ==>
      forall k :: 0 <= k < |messages| && Matches(Needle(searchQuery))(messages[k]) ==> messages[k] in r
  {
    if Text.Trim(searchQuery) == "" then []
    else
      var found := Seqs.Filter(messages, Matches(Needle(searchQuery)));
      var r := Reverse(found);
      assert forall k :: 0 <= k < |found| ==> found[k] == r[|found| - 1 - k];
      r
  }

  /** Results come latest first: of two results, the one listed first is the later
      message. */
  lemma SearchLatestFirst(messages: seq<SearchMessage>, searchQuery: string)
    requires Text.Trim(searchQuery) != ""
    ensures Search(messages, searchQuery) == Reverse(Seqs.Filter(messages, Matches(Needle(searchQuery))))
    ensures Reverse(Search(messages, searchQuery)) == Seqs.Filter(messages, Matches(Needle(searchQuery)))
  {
    var found := Seqs.Filter(messages, Matches(Needle(searchQuery)));
    assert Reverse(Reverse(found)) == found;
  }

  /** The search panel: the results and the highlighted one. */
  class SearchPanel {
    var searchResults: seq<SearchMessage>
    var currentIndex: int

    /** The index is 0 with no results and a result's index otherwise. */
    predicate Valid()
      reads this
    {
      0 <= currentIndex && (searchResults == [] ==> currentIndex == 0) &&
      (searchResults != [] ==> currentIndex < |searchResults|)
    }

    constructor ()
      ensures searchResults == [] && currentIndex == 0 && Valid()
    {
      searchResults, currentIndex := [], 0;
    }

    /** A new query or message list: the new results, from the first. */
    method SetQuery(messages: seq<SearchMessage>, searchQuery: string)
      modifies this
      ensures searchResults == Search(messages, searchQuery) && currentIndex == 0 && Valid()
    {
      searchResults := Search(messages, searchQuery);
      currentIndex := 0;
    }

    /** `handlePrevious`: one result back, returning the id to scroll to, unless at the
        first. */
    method Previous() returns (clicked: Option<int>)
      requires Valid()
      modifies this
      ensures searchResults == old(searchResults) && Valid()
      ensures old(currentIndex) > 0 ==> (currentIndex == old(currentIndex) - 1 &&
        clicked == Some(searchResults[currentIndex].id))
      ensures old(currentIndex) <= 0 ==> currentIndex == old(currentIndex) && clicked.None?
    {
      clicked := None;
      if currentIndex > 0 {
        currentIndex := currentIndex - 1;
        clicked := Some(searchResults[currentIndex].id);
      }
    }

    /** `handleNext`: one result on, returning the id to scroll to, unless at the last. */
    method Next() returns (clicked: Option<int>)
      requires Valid()
      modifies this
      ensures searchResults == old(searchResults) && Valid()
      ensures old(currentIndex) < |searchResults| - 1 ==> (currentIndex == old(currentIndex) + 1 &&
        clicked == Some(searchResults[currentIndex].id))
      ensures old(currentIndex) >= |searchResults| - 1 ==> currentIndex == old(currentIndex) && clicked.None?
    {
      clicked := None;
      if currentIndex < |searchResults| - 1 {
        currentIndex := currentIndex + 1;
        clicked := Some(searchResults[currentIndex].id);
      }
    }
  }
}

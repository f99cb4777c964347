/** The order in which JavaScript enumerates the keys of a plain object
    (`Object.keys`, `Object.entries`, `Object.values`): keys that are canonical array
    indices first, in ascending numeric order, then the other keys in insertion order. */
module JsObjects {
  import opened Text
  import Seqs

  /** `"0"` or decimal digits without a leading zero, below 2^32 - 1. */
  predicate IsArrayIndex(k: string) {
    |k| > 0 && AllDigits(k) && (k[0] != '0' || |k| == 1) && DigitsValue(k) < 0xFFFF_FFFF
  }

  predicate NotArrayIndex(k: string) { !IsArrayIndex(k) }

  function IndexValue(k: string): nat { if AllDigits(k) then DigitsValue(k) else 0 }

  predicate IndexLe(a: string, b: string) { IndexValue(a) <= IndexValue(b) }

  lemma IndexLeTotal()
    ensures Seqs.TotalPreorder(IndexLe)
  {}

  /** Enumeration order of an object whose keys were first assigned in the order `keys`. */
  function KeyOrder(keys: seq<string>): seq<string> {
    Seqs.Sort(Seqs.Filter(keys, IsArrayIndex), IndexLe) + Seqs.Filter(keys, NotArrayIndex)
  }

  /** Enumeration lists every key. */
  lemma KeyOrderCovers(keys: seq<string>)
    ensures forall k :: k in keys ==> k in KeyOrder(keys)
  {
    var idx := Seqs.Filter(keys, IsArrayIndex);
    Seqs.SortPermutation(idx, IndexLe);
    forall k | k in keys ensures k in KeyOrder(keys) {
      if IsArrayIndex(k) {
        assert k in multiset(idx);
        assert k in multiset(Seqs.Sort(idx, IndexLe));
      } else {
        assert k in Seqs.Filter(keys, NotArrayIndex);
      }
    }
  }

  /** Enumeration is a permutation of the insertion order. */
  lemma KeyOrderPermutation(keys: seq<string>)
    ensures multiset(KeyOrder(keys)) == multiset(keys)
  {
    Seqs.SortPermutation(Seqs.Filter(keys, IsArrayIndex), IndexLe);
    Seqs.FilterSplit(keys, IsArrayIndex, NotArrayIndex);
  }

  /** Keys that are not array indices (identifiers, say) are enumerated in insertion
      order. */
  lemma KeyOrderNoIndices(keys: seq<string>)
    requires forall i :: 0 <= i < |keys| ==> !IsArrayIndex(keys[i])
    ensures KeyOrder(keys) == keys
  {
    Seqs.FilterNone(keys, IsArrayIndex);
    Seqs.FilterAll(keys, NotArrayIndex);
  }
}

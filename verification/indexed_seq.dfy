/**
  Position-based operations on the two list fields of the event form
  (objectives and attachments): appending, and removing by position the way
  the form does it, by filtering out the element whose position equals the
  given index.
 */
module IndexedSeq {

  /** The elements of `s` whose position differs from `k`, in their original
      order: the effect of `s.filter((_, i) => i !== k)`. The definition walks
      the positions from the back so that every element keeps its index. An
      index in range drops exactly that element; any other index, negative
      ones included, matches no position and drops nothing. */
  function FilterOutIndex<T>(s: seq<T>, k: int): (r: seq<T>)
    ensures 0 <= k < |s| ==> r == s[..k] + s[k + 1..]
    ensures !(0 <= k < |s|) ==> r == s
    ensures 0 <= k < |s| ==> |r| == |s| - 1
    ensures 0 <= k < |s| ==> forall i :: 0 <= i < |r| ==> r[i] == s[if i < k then i else i + 1]
    decreases |s|
  {
    if |s| == 0 then []
    else
      var init := s[..|s| - 1];
      var rest := FilterOutIndex(init, k);
      var r := rest + (if |s| - 1 == k then [] else [s[|s| - 1]]);
      assert 0 <= k < |init| ==> r == s[..k] + s[k + 1..] by {
        if 0 <= k < |init| {
          assert rest == init[..k] + init[k + 1..];
          assert init[..k] == s[..k];
          assert init[k + 1..] + [s[|s| - 1]] == s[k + 1..];
        }
      }
      assert k == |s| - 1 ==> r == s[..k] + s[k + 1..] by {
        if k == |s| - 1 {
          assert rest == init;
          assert s[k + 1..] == [];
        }
      }
      assert !(0 <= k < |s|) ==> r == s by {
        if !(0 <= k < |s|) {
          assert rest == init;
          assert init + [s[|s| - 1]] == s;
        }
      }
      r
  }

  /** Removing by position keeps exactly the multiset of the other elements:
      an in-range removal takes out one occurrence of `s[k]` and nothing else. */
  lemma {:induction false} FilterOutIndexMultiset<T>(s: seq<T>, k: int)
    requires 0 <= k < |s|
    ensures multiset(FilterOutIndex(s, k)) + multiset{s[k]} == multiset(s)
  {
    var a, b := s[..k], s[k + 1..];
    assert FilterOutIndex(s, k) == a + b;
    assert s == a + [s[k]] + b;
  }

  /** Removing the element that was just appended restores the sequence. */
  lemma RemoveAppended<T>(s: seq<T>, x: T)
    ensures FilterOutIndex(s + [x], |s|) == s
  {
  }

  /** Removing an element of the old part after a batch was appended is the
      same as removing it first and then appending the batch. */
  lemma RemoveCommutesWithAppend<T>(s: seq<T>, xs: seq<T>, k: int)
    requires 0 <= k < |s|
    ensures FilterOutIndex(s + xs, k) == FilterOutIndex(s, k) + xs
  {
  }
}

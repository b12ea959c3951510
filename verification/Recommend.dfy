/** Recommendation entries of an account, and the name of the next one. */
module Recommend {
  import opened Prelude
  import Decimal
  import Sorting

  const RECOMMEND_PREFIX := "RecommendToMTLA"

  datatype Recommendation = Recommendation(index: nat, key: string, value: string)

  // The prefix alone counts as 0; leading zeros are read away; anything else is skipped.
  function IndexOf(key: string): Option<nat> {
    if !(RECOMMEND_PREFIX <= key) then None
    else
      var suffix := key[|RECOMMEND_PREFIX|..];
      if suffix == "" then Some(0)
      else if Decimal.AllDigits(suffix) then Some(Decimal.Parse(suffix))
      else None
  }

  function Collected(data: seq<(string, string)>): seq<Recommendation> {
    if data == [] then []
    else
      var (key, value) := data[|data| - 1];
      Collected(data[..|data| - 1])
      + if IndexOf(key).Some? then [Recommendation(IndexOf(key).value, key, value)] else []
  }

  function Later(a: Option<nat>, b: Option<nat>): Option<nat> {
    if b.None? then a else if a.None? || b.value > a.value then b else a
  }

  function MaxIndex(data: seq<(string, string)>): Option<nat> {
    if data == [] then None
    else Later(MaxIndex(data[..|data| - 1]), IndexOf(data[|data| - 1].0))
  }

  predicate NoLater(a: Recommendation, b: Recommendation) {
    a.index <= b.index
  }

  function NewKey(maxIndex: Option<nat>): string {
    if maxIndex.None? then RECOMMEND_PREFIX else RECOMMEND_PREFIX + Decimal.Print(maxIndex.value + 1)
  }

  method CollectRecommendations(data: seq<(string, string)>)
    returns (recommendations: seq<Recommendation>, maxIndex: Option<nat>)
    ensures recommendations == Sorting.Sort(NoLater, Collected(data))
    ensures maxIndex == MaxIndex(data)
  {
    recommendations, maxIndex := [], None;
    var i := 0;
    while i < |data|
      invariant 0 <= i <= |data|
      invariant recommendations == Collected(data[..i])
      invariant maxIndex == MaxIndex(data[..i])
    {
      assert data[..i + 1][..i] == data[..i];
      var (key, value) := data[i];
      var index := IndexOf(key);
      i := i + 1;
      if index.None? {
        continue;
      }
      recommendations := recommendations + [Recommendation(index.value, key, value)];
      if maxIndex.None? || index.value > maxIndex.value {
        maxIndex := index;
      }
    }
    assert data[..i] == data;
    recommendations := Sorting.Sort(NoLater, recommendations);
  }

  lemma {:induction false} CollectedExactly(data: seq<(string, string)>)
    ensures forall r :: r in Collected(data) <==> (r.key, r.value) in data && IndexOf(r.key) == Some(r.index)
  {
    if data == [] {
    } else {
      var front, last := data[..|data| - 1], data[|data| - 1];
      assert data == front + [last];
      CollectedExactly(front);
      forall r
        ensures r in Collected(data) <==> (r.key, r.value) in data && IndexOf(r.key) == Some(r.index)
      {
        assert (r.key, r.value) in data <==> (r.key, r.value) in front || (r.key, r.value) == last;
      }
    }
  }

  /** The collected list holds every recommendation of the account, each as often
      as it is found, by ascending index. */
  lemma CollectionIsSorted(data: seq<(string, string)>)
    ensures var sorted := Sorting.Sort(NoLater, Collected(data));
      && multiset(sorted) == multiset(Collected(data))
      && (forall i, j | 0 <= i < j < |sorted| :: sorted[i].index <= sorted[j].index)
      && (forall r :: r in sorted <==> (r.key, r.value) in data && IndexOf(r.key) == Some(r.index))
  {
    Sorting.SortSorts(NoLater, Collected(data));
    CollectedExactly(data);
    forall r
      ensures r in Sorting.Sort(NoLater, Collected(data)) <==> r in Collected(data)
    {
      Sorting.SortMembers(NoLater, Collected(data), r);
    }
  }

  lemma {:induction false} MaxIndexBounds(data: seq<(string, string)>, i: nat)
    requires i < |data| && IndexOf(data[i].0).Some?
    ensures MaxIndex(data).Some? && IndexOf(data[i].0).value <= MaxIndex(data).value
  {
    var front := data[..|data| - 1];
    if i < |front| {
      assert front[i] == data[i];
      MaxIndexBounds(front, i);
    }
  }

  lemma NewKeyIndex(maxIndex: Option<nat>)
    ensures IndexOf(NewKey(maxIndex)) == Some(if maxIndex.None? then 0 else maxIndex.value + 1)
  {
    if maxIndex.None? {
      assert NewKey(maxIndex)[|RECOMMEND_PREFIX|..] == "";
    } else {
      Decimal.ParsePrint(maxIndex.value + 1);
      assert NewKey(maxIndex)[|RECOMMEND_PREFIX|..] == Decimal.Print(maxIndex.value + 1);
    }
  }

  /** The new key is never a name already on the account, whatever other, unsorted
      or zero-padded names it has; and once written it is the new maximum, so the
      key after it is new again. */
  lemma NewKeyIsFresh(data: seq<(string, string)>, value: string)
    ensures var key := NewKey(MaxIndex(data));
      && (forall i | 0 <= i < |data| :: data[i].0 != key)
      && MaxIndex(data + [(key, value)]) == IndexOf(key)
      && IndexOf(key).Some?
  {
    var key := NewKey(MaxIndex(data));
    NewKeyIndex(MaxIndex(data));
    forall i | 0 <= i < |data|
      ensures data[i].0 != key
    {
      if data[i].0 == key {
        MaxIndexBounds(data, i);
      }
    }
    assert (data + [(key, value)])[..|data|] == data;
  }

  // The prefix alone, read as 0, or the prefix and digits, read as their number.
  ghost predicate Reads(key: string, index: nat) {
    || (key == "RecommendToMTLA" && index == 0)
    || exists digits :: Numbered(key, digits, index)
  }

  ghost predicate Numbered(key: string, digits: string, index: nat) {
    digits != "" && Decimal.AllDigits(digits) && key == "RecommendToMTLA" + digits && index == Decimal.Parse(digits)
  }

  /** Which names are recommendations, and of which index. */
  lemma IndexOfIff(key: string, index: nat)
    ensures IndexOf(key) == Some(index) <==> Reads(key, index)
  {
    if digits :| Numbered(key, digits, index) {
      assert key[|RECOMMEND_PREFIX|..] == digits;
    }
    if RECOMMEND_PREFIX <= key {
      var suffix := key[|RECOMMEND_PREFIX|..];
      assert key == "RecommendToMTLA" + suffix;
      if suffix != "" && Decimal.AllDigits(suffix) && Decimal.Parse(suffix) == index {
        assert Numbered(key, suffix, index);
      }
    }
  }

  /** The maximum is the index of some recommendation, and no other's is greater. */
  lemma {:induction false} MaxIndexIsMax(data: seq<(string, string)>)
    ensures MaxIndex(data).Some? ==> exists i :: 0 <= i < |data| && IndexOf(data[i].0) == MaxIndex(data)
    ensures forall i | 0 <= i < |data| && IndexOf(data[i].0).Some? ::
      MaxIndex(data).Some? && IndexOf(data[i].0).value <= MaxIndex(data).value
  {
    if data == [] {
    } else {
      var n := |data| - 1;
      MaxIndexIsMax(data[..n]);
      forall i | 0 <= i < |data| && IndexOf(data[i].0).Some?
        ensures MaxIndex(data).Some? && IndexOf(data[i].0).value <= MaxIndex(data).value
      {
        MaxIndexBounds(data, i);
      }
      if MaxIndex(data) == MaxIndex(data[..n]) && MaxIndex(data).Some? {
        var i :| 0 <= i < n && IndexOf(data[..n][i].0) == MaxIndex(data[..n]);
        assert data[i] == data[..n][i];
      } else if MaxIndex(data).Some? {
        assert IndexOf(data[n].0) == MaxIndex(data);
      }
    }
  }
}

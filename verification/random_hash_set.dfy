/** The order-preserving unique collection that holds a genome's genes: a hash
    set (`members`, the source's field `set`) beside a vector (`data`) that keeps
    insertion order and supports picking an element at random.

    Every method of the class is specified by a function on `SetState`, the
    value of both fields; the lemmas below are about those functions. */
module RandomHashSets {
  import opened Wrappers

  /** No element occurs twice. */
  predicate NoDuplicates<T(==)>(s: seq<T>)
  {
    forall i, j :: 0 <= i < j < |s| ==> s[i] != s[j]
  }

  /** The set of elements of a sequence. */
  function Elements<T(==)>(s: seq<T>): set<T>
  {
    set x | x in s
  }

  /** Keys ascend (ties allowed) along the sequence. */
  predicate SortedBy<T>(s: seq<T>, key: T -> nat)
  {
    forall i, j :: 0 <= i < j < |s| ==> key(s[i]) <= key(s[j])
  }

  /** The value of the two fields. */
  datatype SetState<T(==)> = SetState(members: set<T>, data: seq<T>)
  {
    /** The hash set and the vector have the same size. Every operation the
        genome code uses keeps this, including a write through `random_element`. */
    predicate SizesAgree()
    {
      |members| == |data|
    }

    /** The hash set holds exactly the vector's elements, each once. */
    predicate Consistent()
    {
      members == Elements(data) && NoDuplicates(data)
    }
  }

  function Empty<T(==)>(): SetState<T>
  {
    SetState({}, [])
  }

  /** `add`: append unless the hash set already holds the value. */
  function WithAdded<T(==)>(s: SetState<T>, v: T): SetState<T>
  {
    if v in s.members then s else SetState(s.members + {v}, s.data + [v])
  }

  /** Where `add_sorted` puts an element with key `k`: after the leading run of
      elements whose keys are at most `k`. */
  function InsertPosition<T>(data: seq<T>, key: T -> nat, k: nat): (p: nat)
    ensures p <= |data|
  {
    if data == [] || key(data[0]) > k then 0 else 1 + InsertPosition(data[1..], key, k)
  }

  /** `add_sorted`: like `add`, but inserting at `InsertPosition` instead of appending. */
  function WithSortedAdded<T(==)>(s: SetState<T>, v: T, key: T -> nat): SetState<T>
  {
    if v in s.members then s
    else
      var p := InsertPosition(s.data, key, key(v));
      SetState(s.members + {v}, s.data[..p] + [v] + s.data[p..])
  }

  /** `remove_index`: false and no change when out of range. */
  function WithoutIndex<T(==)>(s: SetState<T>, i: nat): (bool, SetState<T>)
  {
    if i < |s.data| then (true, SetState(s.members - {s.data[i]}, s.data[..i] + s.data[i + 1..]))
    else (false, s)
  }

  /** Position of the first occurrence of `v`. */
  function IndexOf<T(==)>(data: seq<T>, v: T): (i: nat)
    requires v in data
    ensures i < |data| && data[i] == v && v !in data[..i]
  {
    if data[0] == v then 0 else 1 + IndexOf(data[1..], v)
  }

  /** `remove_value`: false when the hash set lacks `v`; otherwise remove it from
      both fields, panicking when the vector lacks it. */
  function WithoutValue<T(==)>(s: SetState<T>, v: T): Outcome<(bool, SetState<T>)>
  {
    if v !in s.members then Returned((false, s))
    else if v in s.data then
      var i := IndexOf(s.data, v);
      Returned((true, SetState(s.members - {v}, s.data[..i] + s.data[i + 1..])))
    else Panicked("Failed to find value in self.data")
  }

  /** `random_element`: the position of the chosen element, `pick` standing for
      the random draw. */
  function RandomIndex<T(==)>(s: SetState<T>, pick: nat): Option<nat>
  {
    if |s.data| == 0 then None else Some(pick % |s.data|)
  }

  /** A write through the mutable reference `random_element` hands out: the
      vector changes, the hash set does not. */
  function WithWrite<T(==)>(s: SetState<T>, i: nat, v: T): SetState<T>
    requires i < |s.data|
  {
    SetState(s.members, s.data[i := v])
  }

  /** Adding a sequence of values one by one with `add`. */
  function AddAll<T(==)>(s: SetState<T>, xs: seq<T>): SetState<T>
    decreases |xs|
  {
    if xs == [] then s else WithAdded(AddAll(s, xs[..|xs| - 1]), xs[|xs| - 1])
  }

  // ---------------------------------------------------------------------------
  // Lemmas

  /** Adding the first i + 1 elements is adding the first i, then the next. */
  lemma AddAllSnoc<T>(s: SetState<T>, xs: seq<T>, i: nat)
    requires i < |xs|
    ensures AddAll(s, xs[..i + 1]) == WithAdded(AddAll(s, xs[..i]), xs[i])
  {
    assert xs[..i + 1][..i] == xs[..i];
  }

  lemma {:induction false} NoDuplicatesCardinality<T>(s: seq<T>)
    requires NoDuplicates(s)
    ensures |Elements(s)| == |s|
  {
    if s != [] {
      var t := s[1..];
      assert NoDuplicates(t) by {
        forall i, j | 0 <= i < j < |t| ensures t[i] != t[j] {
          assert t[i] == s[i + 1] && t[j] == s[j + 1];
        }
      }
      NoDuplicatesCardinality(t);
      assert s[0] !in t by {
        forall k | 0 <= k < |t| ensures t[k] != s[0] {
          assert t[k] == s[k + 1];
        }
      }
      assert s == [s[0]] + t;
      assert Elements(s) == {s[0]} + Elements(t);
    }
  }

  /** A consistent collection has equal sizes, so `len()` (the hash set's size)
      is the vector's length. */
  lemma ConsistentSizesAgree<T>(s: SetState<T>)
    requires s.Consistent()
    ensures s.SizesAgree()
  {
    NoDuplicatesCardinality(s.data);
  }

  /** In a consistent collection `contains` is membership in the vector. */
  lemma ContainsMeansInData<T>(s: SetState<T>, v: T)
    requires s.Consistent()
    ensures v in s.members <==> v in s.data
  {
  }

  /** `add` appends exactly when the value is absent, and is otherwise a no-op. */
  lemma AddAppendsIffAbsent<T>(s: SetState<T>, v: T)
    ensures WithAdded(s, v).data == s.data + [v] <==> v !in s.members
    ensures v in s.members ==> WithAdded(s, v) == s
    ensures v in WithAdded(s, v).members
  {
    if v in s.members {
      assert |s.data + [v]| != |s.data|;
    }
  }

  lemma AddPreservesConsistent<T>(s: SetState<T>, v: T)
    requires s.Consistent()
    ensures WithAdded(s, v).Consistent()
  {
    if v !in s.members {
      var d := s.data + [v];
      forall i, j | 0 <= i < j < |d| ensures d[i] != d[j] {
        if j == |s.data| {
          assert d[i] == s.data[i];
        }
      }
      assert Elements(d) == Elements(s.data) + {v};
    }
  }

  lemma AddPreservesSizesAgree<T>(s: SetState<T>, v: T)
    requires s.SizesAgree()
    ensures WithAdded(s, v).SizesAgree()
  {
  }

  lemma {:induction false} InsertPositionSplits<T>(data: seq<T>, key: T -> nat, k: nat)
    ensures forall i :: 0 <= i < InsertPosition(data, key, k) ==> key(data[i]) <= k
    ensures InsertPosition(data, key, k) < |data| ==> key(data[InsertPosition(data, key, k)]) > k
  {
    if data != [] && key(data[0]) <= k {
      InsertPositionSplits(data[1..], key, k);
    }
  }

  /** `add_sorted` keeps a key-sorted vector sorted. */
  lemma AddSortedKeepsSorted<T>(s: SetState<T>, v: T, key: T -> nat)
    requires SortedBy(s.data, key)
    ensures SortedBy(WithSortedAdded(s, v, key).data, key)
  {
    if v !in s.members {
      var p := InsertPosition(s.data, key, key(v));
      InsertPositionSplits(s.data, key, key(v));
      var d := s.data[..p] + [v] + s.data[p..];
      forall i, j | 0 <= i < j < |d| ensures key(d[i]) <= key(d[j]) {
        if j < p {
          assert d[i] == s.data[i] && d[j] == s.data[j];
        } else if j == p {
          assert d[i] == s.data[i];
        } else if i < p {
          assert d[i] == s.data[i] && d[j] == s.data[j - 1];
        } else if i == p {
          assert d[j] == s.data[j - 1];
          assert key(s.data[p]) > key(v);
        } else {
          assert d[i] == s.data[i - 1] && d[j] == s.data[j - 1];
        }
      }
    }
  }

  /** Elements whose `tag`s differ pairwise keep differing after `add_sorted`
      of an element whose tag none of them has. */
  lemma AddSortedKeepsTagsDistinct<T>(s: SetState<T>, v: T, key: T -> nat, tag: T -> nat)
    requires forall i, j :: 0 <= i < j < |s.data| ==> tag(s.data[i]) != tag(s.data[j])
    requires forall i :: 0 <= i < |s.data| ==> tag(s.data[i]) != tag(v)
    ensures var d := WithSortedAdded(s, v, key).data;
      forall i, j :: 0 <= i < j < |d| ==> tag(d[i]) != tag(d[j])
  {
    if v !in s.members {
      var p := InsertPosition(s.data, key, key(v));
      var d := s.data[..p] + [v] + s.data[p..];
      forall i, j | 0 <= i < j < |d| ensures tag(d[i]) != tag(d[j]) {
        if j < p {
          assert d[i] == s.data[i] && d[j] == s.data[j];
        } else if j == p {
          assert d[i] == s.data[i];
        } else if i < p {
          assert d[i] == s.data[i] && d[j] == s.data[j - 1];
        } else if i == p {
          assert d[j] == s.data[j - 1];
        } else {
          assert d[i] == s.data[i - 1] && d[j] == s.data[j - 1];
        }
      }
    }
  }

  /** `add_sorted` adds at most the given element, to both fields. */
  lemma AddSortedElements<T>(s: SetState<T>, v: T, key: T -> nat)
    ensures WithSortedAdded(s, v, key).members <= s.members + {v}
    ensures forall x :: x in WithSortedAdded(s, v, key).data ==> x in s.data || x == v
  {
    if v !in s.members {
      var p := InsertPosition(s.data, key, key(v));
      assert s.data == s.data[..p] + s.data[p..];
    }
  }

  /** `add_sorted` adds the same element `add` would, in the same cases. */
  lemma AddSortedAddsLikeAdd<T>(s: SetState<T>, v: T, key: T -> nat)
    ensures WithSortedAdded(s, v, key).members == WithAdded(s, v).members
    ensures multiset(WithSortedAdded(s, v, key).data) == multiset(WithAdded(s, v).data)
  {
    if v !in s.members {
      var p := InsertPosition(s.data, key, key(v));
      assert s.data == s.data[..p] + s.data[p..];
    }
  }

  lemma AddSortedPreservesConsistent<T>(s: SetState<T>, v: T, key: T -> nat)
    requires s.Consistent()
    ensures WithSortedAdded(s, v, key).Consistent()
  {
    if v !in s.members {
      var p := InsertPosition(s.data, key, key(v));
      var d := s.data[..p] + [v] + s.data[p..];
      forall i, j | 0 <= i < j < |d| ensures d[i] != d[j] {
        if j < p {
          assert d[i] == s.data[i] && d[j] == s.data[j];
        } else if j == p {
          assert d[i] == s.data[i];
        } else if i < p {
          assert d[i] == s.data[i] && d[j] == s.data[j - 1];
        } else if i == p {
          assert d[j] == s.data[j - 1];
        } else {
          assert d[i] == s.data[i - 1] && d[j] == s.data[j - 1];
        }
      }
      assert s.data == s.data[..p] + s.data[p..];
      assert Elements(d) == Elements(s.data) + {v} by {
        forall x ensures x in d <==> x in s.data || x == v {
          assert x in d <==> x in s.data[..p] || x == v || x in s.data[p..];
          assert x in s.data <==> x in s.data[..p] || x in s.data[p..];
        }
      }
    }
  }

  lemma AddSortedPreservesSizesAgree<T>(s: SetState<T>, v: T, key: T -> nat)
    requires s.SizesAgree()
    ensures WithSortedAdded(s, v, key).SizesAgree()
  {
  }

  /** Removing one position from a duplicate-free vector drops exactly that element. */
  lemma RemoveAtElements<T>(d: seq<T>, i: nat)
    requires NoDuplicates(d) && i < |d|
    ensures NoDuplicates(d[..i] + d[i + 1..])
    ensures Elements(d[..i] + d[i + 1..]) == Elements(d) - {d[i]}
  {
    var r := d[..i] + d[i + 1..];
    forall a, b | 0 <= a < b < |r| ensures r[a] != r[b] {
      var a', b' := if a < i then a else a + 1, if b < i then b else b + 1;
      assert r[a] == d[a'] && r[b] == d[b'];
    }
    forall x ensures x in r <==> x in d && x != d[i] {
      if x in r {
        var k :| 0 <= k < |r| && r[k] == x;
        var k' := if k < i then k else k + 1;
        assert d[k'] == x && k' != i;
      }
      if x in d && x != d[i] {
        var k :| 0 <= k < |d| && d[k] == x;
        assert k != i;
        assert r[if k < i then k else k - 1] == x;
      }
    }
  }

  /** `remove_index` out of range reports false and changes nothing; in range it
      removes that element and keeps the others in their order. */
  lemma RemoveIndexBehaviour<T>(s: SetState<T>, i: nat)
    requires s.Consistent()
    ensures WithoutIndex(s, i).0 <==> i < |s.data|
    ensures !WithoutIndex(s, i).0 ==> WithoutIndex(s, i).1 == s
    ensures i < |s.data| ==>
              && WithoutIndex(s, i).1.Consistent()
              && |WithoutIndex(s, i).1.data| == |s.data| - 1
              && s.data[i] !in WithoutIndex(s, i).1.members
  {
    if i < |s.data| {
      RemoveAtElements(s.data, i);
      NoDuplicatesCardinality(s.data);
    }
  }

  /** On a consistent collection `remove_value` never panics, reports whether the
      value was present, and removes its single occurrence. */
  lemma RemoveValueBehaviour<T>(s: SetState<T>, v: T)
    requires s.Consistent()
    ensures WithoutValue(s, v).Returned?
    ensures WithoutValue(s, v).value.0 <==> v in s.data
    ensures !WithoutValue(s, v).value.0 ==> WithoutValue(s, v).value.1 == s
    ensures WithoutValue(s, v).value.1.Consistent()
    ensures v !in WithoutValue(s, v).value.1.data
    ensures v in s.data ==> |WithoutValue(s, v).value.1.data| == |s.data| - 1
  {
    if v in s.data {
      var i := IndexOf(s.data, v);
      RemoveAtElements(s.data, i);
    }
  }

  /** `remove_value` keeps the sizes equal whenever it returns. */
  lemma RemoveValuePreservesSizesAgree<T>(s: SetState<T>, v: T)
    requires s.SizesAgree()
    requires WithoutValue(s, v).Returned?
    ensures WithoutValue(s, v).value.1.SizesAgree()
  {
  }

  /** `remove_value` never adds anything. */
  lemma RemoveValueShrinks<T>(s: SetState<T>, v: T)
    requires WithoutValue(s, v).Returned?
    ensures WithoutValue(s, v).value.1.members <= s.members
    ensures forall x :: x in WithoutValue(s, v).value.1.data ==> x in s.data
  {
    if v in s.members && v in s.data {
      var i := IndexOf(s.data, v);
      assert s.data == s.data[..i] + [v] + s.data[i + 1..];
    }
  }

  /** Removing one element keeps a key-sorted vector sorted. */
  lemma RemoveValueKeepsSorted<T>(s: SetState<T>, v: T, key: T -> nat)
    requires SortedBy(s.data, key)
    requires WithoutValue(s, v).Returned?
    ensures SortedBy(WithoutValue(s, v).value.1.data, key)
  {
    if v in s.members && v in s.data {
      var i := IndexOf(s.data, v);
      var r := s.data[..i] + s.data[i + 1..];
      forall a, b | 0 <= a < b < |r| ensures key(r[a]) <= key(r[b]) {
        var a', b' := if a < i then a else a + 1, if b < i then b else b + 1;
        assert r[a] == s.data[a'] && r[b] == s.data[b'];
      }
    }
  }

  /** `random_element` is None exactly on an empty vector and otherwise a
      position of the vector; every position can be drawn. */
  lemma RandomIndexBehaviour<T>(s: SetState<T>, pick: nat)
    ensures RandomIndex(s, pick).None? <==> |s.data| == 0
    ensures RandomIndex(s, pick).Some? ==> RandomIndex(s, pick).value < |s.data|
    ensures pick < |s.data| ==> RandomIndex(s, pick) == Some(pick)
  {
  }

  /** A write keeps the sizes equal but can leave the hash set stale: after
      changing the only element 1 into 2, `contains(2)` is false and
      `remove_value(2)` reports false and removes nothing. */
  lemma WriteDesynchronises()
    ensures var s := WithWrite(SetState({1}, [1]), 0, 2);
      && s.SizesAgree()
      && !s.Consistent()
      && 2 !in s.members
      && WithoutValue(s, 2) == Returned((false, s))
  {
    var s := WithWrite(SetState({1}, [1]), 0, 2);
    assert s.data == [2];
    assert 2 in Elements(s.data);
  }

  lemma {:induction false} AddAllAppend<T>(s: SetState<T>, xs: seq<T>, ys: seq<T>)
    ensures AddAll(s, xs + ys) == AddAll(AddAll(s, xs), ys)
    decreases |ys|
  {
    if ys != [] {
      assert (xs + ys)[..|xs + ys| - 1] == xs + ys[..|ys| - 1];
      AddAllAppend(s, xs, ys[..|ys| - 1]);
    } else {
      assert xs + ys == xs;
    }
  }

  /** Adding one by one to a consistent collection keeps it consistent and
      yields the union of the elements. */
  lemma {:induction false} AddAllConsistent<T>(s: SetState<T>, xs: seq<T>)
    requires s.Consistent()
    ensures AddAll(s, xs).Consistent()
    ensures Elements(AddAll(s, xs).data) == Elements(s.data) + Elements(xs)
    decreases |xs|
  {
    if xs != [] {
      var init := xs[..|xs| - 1];
      AddAllConsistent(s, init);
      AddPreservesConsistent(AddAll(s, init), xs[|xs| - 1]);
      assert xs == init + [xs[|xs| - 1]];
      assert Elements(xs) == Elements(init) + {xs[|xs| - 1]};
    }
  }

  /** Adding values that are new and pairwise distinct appends all of them. */
  lemma {:induction false} AddAllFresh<T>(s: SetState<T>, xs: seq<T>)
    requires NoDuplicates(xs)
    requires forall x :: x in xs ==> x !in s.members
    ensures AddAll(s, xs) == SetState(s.members + Elements(xs), s.data + xs)
    decreases |xs|
  {
    if xs != [] {
      var init := xs[..|xs| - 1];
      var last := xs[|xs| - 1];
      assert NoDuplicates(init) by {
        forall i, j | 0 <= i < j < |init| ensures init[i] != init[j] {
          assert init[i] == xs[i] && init[j] == xs[j];
        }
      }
      AddAllFresh(s, init);
      assert last !in init by {
        forall k | 0 <= k < |init| ensures init[k] != last {
          assert init[k] == xs[k];
        }
      }
      assert xs == init + [last];
      assert Elements(xs) == Elements(init) + {last};
    }
  }

  lemma {:induction false} AddAllPreservesSizesAgree<T>(s: SetState<T>, xs: seq<T>)
    requires s.SizesAgree()
    ensures AddAll(s, xs).SizesAgree()
    decreases |xs|
  {
    if xs != [] {
      AddAllPreservesSizesAgree(s, xs[..|xs| - 1]);
    }
  }

  /** Clearing empties both fields. */
  lemma ClearIsConsistent<T>()
    ensures Empty<T>().Consistent() && Empty<T>().data == [] && Empty<T>().members == {}
  {
  }

  // ---------------------------------------------------------------------------
  // The collection as the source has it, updated in place.

  class RandomHashSet<T(==)> {
    /** The source's `set`. */
    var members: set<T>
    /** The source's `data`. */
    var data: seq<T>

    function State(): SetState<T>
      reads this
    {
      SetState(members, data)
    }

    /** `RandomHashSet::new`. */
    constructor ()
      ensures State() == Empty()
    {
      members := {};
      data := [];
    }

    /** `contains` asks the hash set. */
    method Contains(v: T) returns (b: bool)
      ensures b <==> v in members
      ensures State().Consistent() ==> (b <==> v in data)
    {
      b := v in members;
    }

    /** `get` reads the vector. */
    method Get(i: nat) returns (r: Option<T>)
      ensures r.Some? <==> i < |data|
      ensures r.Some? ==> r.value == data[i]
    {
      r := if i < |data| then Some(data[i]) else None;
    }

    /** `len` is the size of the hash set. */
    method Len() returns (n: nat)
      ensures n == |members|
      ensures State().Consistent() ==> n == |data|
    {
      n := |members|;
      if State().Consistent() {
        ConsistentSizesAgree(State());
      }
    }

    /** `is_empty` asks the hash set. */
    method IsEmpty() returns (b: bool)
      ensures b <==> members == {}
    {
      b := |members| == 0;
    }

    method Add(v: T)
      modifies this
      ensures State() == WithAdded(old(State()), v)
    {
      if v !in members {
        members := members + {v};
        data := data + [v];
      }
    }

    /** `add_sorted`, with `key` giving each element's innovation number. */
    method AddSorted(v: T, key: T -> nat)
      modifies this
      ensures State() == WithSortedAdded(old(State()), v, key)
    {
      if v !in members {
        var p := 0;
        while p < |data| && key(data[p]) <= key(v)
          invariant p <= |data|
          invariant InsertPosition(data, key, key(v)) == p + InsertPosition(data[p..], key, key(v))
        {
          assert data[p..][1..] == data[p + 1..];
          p := p + 1;
        }
        members := members + {v};
        data := data[..p] + [v] + data[p..];
      }
    }

    method Clear()
      modifies this
      ensures State() == Empty()
    {
      members := {};
      data := [];
    }

    method RemoveIndex(i: nat) returns (removed: bool)
      modifies this
      ensures (removed, State()) == WithoutIndex(old(State()), i)
    {
      if i < |data| {
        members := members - {data[i]};
        data := data[..i] + data[i + 1..];
        removed := true;
      } else {
        removed := false;
      }
    }

    /** `remove_value`; after a panic the state is left unspecified. */
    method RemoveValue(v: T) returns (r: Outcome<bool>)
      modifies this
      ensures WithoutValue(old(State()), v).Panicked? <==> r.Panicked?
      ensures r.Returned? ==> (r.value, State()) == WithoutValue(old(State()), v).value
    {
      if v !in members {
        return Returned(false);
      }
      members := members - {v};
      var i := 0;
      while i < |data| && data[i] != v
        invariant i <= |data| && v !in data[..i]
      {
        i := i + 1;
      }
      if i == |data| {
        assert data[..i] == data;
        return Panicked("Failed to find value in self.data");
      }
      data := data[..i] + data[i + 1..];
      r := Returned(true);
    }

    /** `random_element`, returning the position of the element it hands out. */
    method RandomElement(pick: nat) returns (r: Option<nat>)
      ensures r == RandomIndex(State(), pick)
      ensures r.None? <==> |data| == 0
      ensures r.Some? ==> r.value < |data|
    {
      if |data| == 0 {
        r := None;
      } else {
        r := Some(pick % |data|);
      }
    }

    /** The assignment the caller makes through the reference `random_element`
        returned. */
    method WriteElement(i: nat, v: T)
      requires i < |data|
      modifies this
      ensures State() == WithWrite(old(State()), i, v)
    {
      data := data[i := v];
    }
  }
}

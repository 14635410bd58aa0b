/** `RandomDict` of `pyutils/misc.py`: a mapping kept as a dictionary from keys to positions plus a list of
    (key, value) pairs, so that a key can be drawn uniformly in constant time; deletion moves the last
    pair into the freed position. */
module RandomDicts {
  import opened Wrappers

  /** `KeyError` for a missing key or an empty dictionary; `IndexError` from the pair list once the
      positions no longer match it; `ValueError` from `len()` when `__len__` has gone negative. The last
      two are reachable only after a present key has been reassigned. */
  datatype DictError = KeyError | IndexError | ValueError

  /** The element a Python list index `i` selects in a list of length `n`, negative indices counting
      from the end, or `None` where Python raises `IndexError`. */
  function ListIndex(n: nat, i: int): (r: Option<nat>)
    ensures r.Some? ==> r.value < n && (r.value == i || r.value == n + i)
    ensures 0 <= i < n ==> r == Some(i)
    ensures r.None? <==> i >= n || i + n < 0
  {
    if 0 <= i < n then Some(i) else if 0 <= i + n && i < 0 then Some(n + i) else None
  }

  class RandomDict<K(==), V> {
    var keys: map<K, int>
    var values: seq<(K, V)>
    var lastIndex: int

    /** The consistency invariant: one pair per key, each key's position holds that key's pair, and the
        positions in use are exactly 0..lastIndex. */
    ghost predicate Valid()
      reads this
    {
      && |values| == lastIndex + 1
      && (forall k :: k in keys ==> 0 <= keys[k] < |values| && values[keys[k]].0 == k)
      && (forall i :: 0 <= i < |values| ==> values[i].0 in keys && keys[values[i].0] == i)
    }

    /** The mapping a valid dictionary represents. */
    ghost function Contents(): map<K, V>
      reads this
      requires Valid()
    {
      map k | k in keys :: values[keys[k]].1
    }

    constructor ()
      ensures Valid() && Contents() == map[]
      ensures keys == map[] && values == [] && lastIndex == -1
    {
      keys, values, lastIndex := map[], [], -1;
    }

    /** The length of a valid dictionary is its number of keys: the positions are a bijection
        between the keys and the pairs. */
    lemma {:induction false} LenCountsKeys()
      requires Valid()
      ensures Len() == |Contents()| == |keys|
    {
      var n := |values|;
      var i := 0;
      var seen: set<K> := {};
      while i < n
        invariant 0 <= i <= n
        invariant seen == set j | 0 <= j < i :: values[j].0
        invariant |seen| == i
      {
        assert values[i].0 !in seen;
        seen := seen + {values[i].0};
        i := i + 1;
      }
      assert seen == keys.Keys by {
        forall k | k in keys ensures k in seen {
          assert values[keys[k]].0 == k;
        }
      }
      assert Contents().Keys == keys.Keys;
    }

    /** `__len__`. */
    function Len(): (n: int)
      reads this
      ensures Valid() ==> n == |values|
    {
      lastIndex + 1
    }

    /** `__getitem__`. */
    function GetItem(key: K): (r: Result<V, DictError>)
      reads this
      ensures key !in keys ==> r == Err(KeyError)
      ensures Valid() ==> (r.Ok? <==> key in Contents())
      ensures Valid() && r.Ok? ==> r.value == Contents()[key]
    {
      if key !in keys then Err(KeyError)
      else
        var at := ListIndex(|values|, keys[key]);
        if at.Some? then Ok(values[at.value].1) else Err(IndexError)
    }

    /** `__setitem__`: a new key gets the next position; a key already present keeps its position. In
        both cases the pair is appended, so reassigning a present key leaves a stale extra pair, breaks
        the invariant, and the key still reads as its old value. */
    method SetItem(key: K, val: V)
      modifies this
      ensures values == old(values) + [(key, val)]
      ensures key in old(keys) ==> keys == old(keys) && lastIndex == old(lastIndex)
      ensures key !in old(keys) ==>
        lastIndex == old(lastIndex) + 1 && keys == old(keys)[key := lastIndex]
      ensures old(Valid()) && key !in old(keys) ==>
        Valid() && Contents() == old(Contents())[key := val] && Len() == old(Len()) + 1
      ensures old(Valid()) && key in old(keys) ==>
        !Valid() && |values| > lastIndex + 1 && GetItem(key) == old(GetItem(key)) && Len() == old(Len())
    {
      var i: int;
      if key in keys {
        i := keys[key];
      } else {
        lastIndex := lastIndex + 1;
        i := lastIndex;
      }
      values := values + [(key, val)];
      keys := keys[key := i];
    }

    /** `__delitem__`: `KeyError` for a missing key; otherwise the last pair is popped and, unless the key
        sat in the last position, moved into the key's position; then the key is dropped. */
    method DelItem(key: K) returns (r: Result<(), DictError>)
      modifies this
      ensures key !in old(keys) ==> r == Err(KeyError) && unchanged(this)
      ensures key in old(keys) && old(values) == [] ==> r == Err(IndexError) && unchanged(this)
      ensures key in old(keys) && old(values) != [] ==>
        var i := old(keys)[key];
        var moved := old(values)[|old(values)| - 1];
        var popped := old(values)[..|old(values)| - 1];
        var at := ListIndex(|popped|, i);
        if i == old(lastIndex) then
          r.Ok? && values == popped && keys == old(keys) - {key} && lastIndex == old(lastIndex) - 1
        else if at.Some? then
          r.Ok? && values == popped[at.value := moved] && keys == old(keys)[moved.0 := i] - {key} &&
          lastIndex == old(lastIndex) - 1
        else
          r == Err(IndexError) && values == popped && keys == old(keys) && lastIndex == old(lastIndex)
      ensures old(Valid()) && key in old(keys) ==>
        r.Ok? && Valid() && Contents() == old(Contents()) - {key} && Len() == old(Len()) - 1
    {
      if key !in keys {
        return Err(KeyError);
      }
      var i := keys[key];
      if values == [] {
        return Err(IndexError);
      }
      var moved := values[|values| - 1];
      values := values[..|values| - 1];
      if i != lastIndex {
        var at := ListIndex(|values|, i);
        if at.None? {
          return Err(IndexError);
        }
        values := values[at.value := moved];
        keys := keys[moved.0 := i];
      }
      lastIndex := lastIndex - 1;
      keys := keys - {key};
      return Ok(());
    }

    /** `__setitem__` as it is evidently meant: a key already present has its pair overwritten in
        place rather than a second pair appended, so the invariant is kept and the key reads as its new
        value. */
    method Assign(key: K, val: V) returns (r: Result<(), DictError>)
      modifies this
      ensures key !in old(keys) ==>
        r.Ok? && values == old(values) + [(key, val)] && lastIndex == old(lastIndex) + 1 &&
        keys == old(keys)[key := lastIndex]
      ensures key in old(keys) ==>
        var at := ListIndex(|old(values)|, old(keys)[key]);
        if at.Some? then
          r.Ok? && values == old(values)[at.value := (key, val)] && keys == old(keys) &&
          lastIndex == old(lastIndex)
        else
          r == Err(IndexError) && unchanged(this)
      ensures old(Valid()) ==>
        r.Ok? && Valid() && Contents() == old(Contents())[key := val] &&
        Len() == old(Len()) + (if key in old(keys) then 0 else 1)
    {
      if key in keys {
        var at := ListIndex(|values|, keys[key]);
        if at.None? {
          return Err(IndexError);
        }
        values := values[at.value := (key, val)];
      } else {
        lastIndex := lastIndex + 1;
        values := values + [(key, val)];
        keys := keys[key := lastIndex];
      }
      return Ok(());
    }

    /** `random_key`, with the position `random.randint(0, last_index)` draws given as `pick`: `KeyError`
        when empty, otherwise the key stored at that position, which is a key present. */
    function RandomKey(pick: int): (r: Result<K, DictError>)
      reads this
      requires Len() > 0 ==> 0 <= pick <= lastIndex
      ensures Len() == 0 ==> r == Err(KeyError)
      ensures Valid() && Len() > 0 ==> r.Ok? && r.value in Contents()
    {
      if Len() < 0 then Err(ValueError)
      else if Len() == 0 then Err(KeyError)
      else if pick < |values| then Ok(values[pick].0)
      else Err(IndexError)
    }
  }

  /** Reassigning a key as written: after `d[a] = v1; d[a] = v2`, `d[a]` is still `v1`; and after
      `del d[a]; d[b] = w`, the stale pair left behind makes `d[b]` read `v1` as well. */
  method ReassignAsWritten<K(==), V>(a: K, b: K, v1: V, v2: V, w: V)
    returns (reassigned: Result<V, DictError>, other: Result<V, DictError>)
    requires a != b
    ensures reassigned == Ok(v1)
    ensures other == Ok(v1)
  {
    var d := new RandomDict<K, V>();
    d.SetItem(a, v1);
    d.SetItem(a, v2);
    reassigned := d.GetItem(a);
    var _ := d.DelItem(a);
    d.SetItem(b, w);
    other := d.GetItem(b);
  }

  /** The same steps with the corrected assignment: `d[a]` reads `v2`, and `d[b]` reads `w`. */
  method ReassignCorrected<K(==), V>(a: K, b: K, v1: V, v2: V, w: V)
    returns (reassigned: Result<V, DictError>, other: Result<V, DictError>)
    requires a != b
    ensures reassigned == Ok(v2)
    ensures other == Ok(w)
  {
    var d := new RandomDict<K, V>();
    var ok := d.Assign(a, v1);
    ok := d.Assign(a, v2);
    reassigned := d.GetItem(a);
    ok := d.DelItem(a);
    ok := d.Assign(b, w);
    other := d.GetItem(b);
  }

  /** Two insertions and a deletion on a dictionary that keeps its invariant: the deleted key is gone,
      the other still reads its value from the position the swap moved it to, and it is the key drawn
      for the only position left. */
  method InsertDelete<K(==), V>(a: K, b: K, va: V, vb: V)
    returns (gone: Result<V, DictError>, still: Result<V, DictError>, len: int,
             drawn: Result<K, DictError>, missing: Result<(), DictError>)
    requires a != b
    ensures gone == Err(KeyError) && still == Ok(vb) && len == 1
    ensures drawn == Ok(b)
    ensures missing == Err(KeyError)
  {
    var d := new RandomDict<K, V>();
    d.SetItem(a, va);
    d.SetItem(b, vb);
    var ok := d.DelItem(a);
    gone := d.GetItem(a);
    still := d.GetItem(b);
    len := d.Len();
    drawn := d.RandomKey(0);
    missing := d.DelItem(a);
  }
}

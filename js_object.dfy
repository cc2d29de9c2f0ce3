/**
 * The order in which `Object.values` lists the properties of a plain
 * JavaScript object whose keys are car numbers: keys that are array indices
 * (integers from 0 to 2^32 - 2) come first in ascending numeric order, then
 * every other key in the order it was created.
 */
module JsObject {
  import opened Sequences

  /** One more than the largest array index, 2^32 - 1. */
  const ArrayIndexLimit := 0xFFFF_FFFF

  predicate IsArrayIndex(k: int)
  {
    0 <= k < ArrayIndexLimit
  }

  predicate Ascending(s: seq<int>)
  {
    forall i, j :: 0 <= i < j < |s| ==> s[i] <= s[j]
  }

  /** The keys of `keys` that are (`index`) or are not (`!index`) array indices, in their order. */
  function Keep(keys: seq<int>, index: bool): (r: seq<int>)
    ensures forall k :: k in r <==> k in keys && IsArrayIndex(k) == index
  {
    if keys == [] then []
    else
      var rest := Keep(keys[1..], index);
      assert keys == [keys[0]] + keys[1..];
      if IsArrayIndex(keys[0]) == index then [keys[0]] + rest else rest
  }

  /** Every key lands in exactly one of the two parts. */
  lemma {:induction false} KeepSplits(keys: seq<int>)
    ensures multiset(Keep(keys, true)) + multiset(Keep(keys, false)) == multiset(keys)
  {
    if keys != [] {
      assert keys == [keys[0]] + keys[1..];
      KeepSplits(keys[1..]);
    }
  }

  lemma {:induction false} KeepAppend(a: seq<int>, b: seq<int>, index: bool)
    ensures Keep(a + b, index) == Keep(a, index) + Keep(b, index)
  {
    if a != [] {
      assert (a + b)[1..] == a[1..] + b;
      KeepAppend(a[1..], b, index);
    } else {
      assert a + b == b;
    }
  }

  lemma {:induction false} KeepAll(keys: seq<int>, index: bool)
    requires forall k :: k in keys ==> IsArrayIndex(k) == index
    ensures Keep(keys, index) == keys
    ensures Keep(keys, !index) == []
  {
    if keys != [] {
      KeepAll(keys[1..], index);
    }
  }

  /** Inserts `x` into an ascending sequence. */
  function Insert(x: int, s: seq<int>): (r: seq<int>)
    requires Ascending(s)
    ensures Ascending(r)
    ensures multiset(r) == multiset(s) + multiset{x}
    ensures forall y :: y in r ==> y == x || y in s
  {
    if s == [] || x <= s[0] then [x] + s
    else
      var t := Insert(x, s[1..]);
      assert s == [s[0]] + s[1..];
      InsertBehind(x, s[0], s[1..], t);
      [s[0]] + t
  }

  /** Putting a smaller head in front of the insertion into the tail gives the insertion into the whole. */
  lemma InsertBehind(x: int, head: int, tail: seq<int>, t: seq<int>)
    requires Ascending([head] + tail) && head < x
    requires Ascending(t) && multiset(t) == multiset(tail) + multiset{x}
    requires forall y :: y in t ==> y == x || y in tail
    ensures Ascending([head] + t)
    ensures multiset([head] + t) == multiset([head] + tail) + multiset{x}
    ensures forall y :: y in [head] + t ==> y == x || y in [head] + tail
  {
    var r := [head] + t;
    forall i, j | 0 <= i < j < |r| ensures r[i] <= r[j] {
      assert r[j] == t[j - 1] && t[j - 1] in t;
      if t[j - 1] != x {
        var k :| 0 <= k < |tail| && tail[k] == t[j - 1];
        assert ([head] + tail)[k + 1] == tail[k] && ([head] + tail)[0] == head;
      }
      if i > 0 {
        assert r[i] == t[i - 1];
      }
    }
  }

  function Sort(s: seq<int>): (r: seq<int>)
    ensures Ascending(r)
    ensures multiset(r) == multiset(s)
  {
    if s == [] then []
    else
      assert s == [s[0]] + s[1..];
      Insert(s[0], Sort(s[1..]))
  }

  /**
   * The own property keys of an object whose keys were created in the order
   * `created`, in the order `Object.keys` and `Object.values` list them.
   */
  function PropertyOrder(created: seq<int>): (r: seq<int>)
    ensures multiset(r) == multiset(created)
    ensures |r| == |created| && forall k :: k in r <==> k in created
    ensures forall i, j :: 0 <= i < j < |r| && IsArrayIndex(r[j]) ==> IsArrayIndex(r[i]) && r[i] <= r[j]
    ensures Keep(r, false) == Keep(created, false)
  {
    var indices, others := Sort(Keep(created, true)), Keep(created, false);
    IndicesFirst(created, indices, others);
    indices + others
  }

  lemma IndicesFirst(created: seq<int>, indices: seq<int>, others: seq<int>)
    requires indices == Sort(Keep(created, true)) && others == Keep(created, false)
    ensures multiset(indices + others) == multiset(created)
    ensures |indices + others| == |created| && forall k :: k in indices + others <==> k in created
    ensures forall i, j :: 0 <= i < j < |indices + others| && IsArrayIndex((indices + others)[j]) ==>
      IsArrayIndex((indices + others)[i]) && (indices + others)[i] <= (indices + others)[j]
    ensures Keep(indices + others, false) == others
  {
    var r := indices + others;
    KeepSplits(created);
    assert multiset(r) == multiset(created);
    assert |r| == |multiset(r)|;
    forall k ensures k in r <==> k in created {
      assert k in r <==> k in multiset(r);
    }
    assert forall k :: k in indices ==> IsArrayIndex(k) by {
      forall k | k in indices ensures IsArrayIndex(k) {
        assert k in multiset(Keep(created, true));
      }
    }
    forall i, j | 0 <= i < j < |r| && IsArrayIndex(r[j]) ensures IsArrayIndex(r[i]) && r[i] <= r[j] {
      if j < |indices| {
        assert r[i] == indices[i] && r[j] == indices[j];
      }
    }
    KeepAppend(indices, others, false);
    KeepAll(indices, true);
    KeepAll(others, false);
  }

  /** An object created with distinct array-index keys lists them in increasing order. */
  lemma PropertyOrderIncreasing(created: seq<int>)
    requires Distinct(created)
    requires forall k :: k in created ==> IsArrayIndex(k)
    ensures Increasing(PropertyOrder(created))
  {
    var order := PropertyOrder(created);
    assert forall i :: 0 <= i < |order| ==> IsArrayIndex(order[i]) by {
      forall i | 0 <= i < |order| ensures IsArrayIndex(order[i]) {
        assert order[i] in created;
      }
    }
    DistinctPermutation(created, order);
  }

  /** `Object.values`: the entries of the object, in property order. */
  function Values<V>(entries: map<int, V>, created: seq<int>): (vs: seq<V>)
    requires forall k :: k in created ==> k in entries
    ensures |vs| == |created|
    ensures forall i :: 0 <= i < |vs| ==> vs[i] == entries[PropertyOrder(created)[i]]
    ensures forall k :: k in created ==> entries[k] in vs
    ensures forall v :: v in vs ==> exists k :: k in created && entries[k] == v
  {
    var order := PropertyOrder(created);
    assert forall i :: 0 <= i < |order| ==> order[i] in entries by {
      forall i | 0 <= i < |order| ensures order[i] in entries {
        assert order[i] in created;
      }
    }
    var vs := EntriesAt(entries, order);
    assert forall v :: v in vs ==> exists k :: k in created && entries[k] == v by {
      forall v | v in vs ensures exists k :: k in created && entries[k] == v {
        var k :| k in order && entries[k] == v;
        assert k in created;
      }
    }
    vs
  }

  /** The entries at the keys `order`, in that order: the entry of every listed key, and nothing else. */
  function EntriesAt<V>(entries: map<int, V>, order: seq<int>): (vs: seq<V>)
    requires forall i :: 0 <= i < |order| ==> order[i] in entries
    ensures |vs| == |order| && forall i :: 0 <= i < |vs| ==> vs[i] == entries[order[i]]
    ensures forall k :: k in order ==> entries[k] in vs
    ensures forall v :: v in vs ==> exists k :: k in order && entries[k] == v
  {
    var vs := seq(|order|, i requires 0 <= i < |order| => entries[order[i]]);
    forall k | k in order ensures entries[k] in vs {
      var i :| 0 <= i < |order| && order[i] == k;
      assert vs[i] == entries[k];
    }
    forall v | v in vs ensures exists k :: k in order && entries[k] == v {
      var i :| 0 <= i < |vs| && vs[i] == v;
      var k := order[i];
      assert k in order && entries[k] == v;
    }
    vs
  }
}

/** Python dictionaries as insertion-ordered sequences of (key, value) pairs.
    `Assign` is `d[k] = v`, `Update` is a run of such assignments (the loop
    inside `dict(pairs)` and inside `{**a, **b}`). */
module OrderedDicts {
  import opened Wrappers
  import opened Seqs

  type Dict<K, V> = seq<(K, V)>

  /** The keys in iteration order (what `list(d)` gives). */
  function Keys<K, V>(d: Dict<K, V>): (ks: seq<K>)
    ensures |ks| == |d| && forall i :: 0 <= i < |d| ==> ks[i] == d[i].0
  {
    if d == [] then [] else [d[0].0] + Keys(d[1..])
  }

  /** `d.get(k)`: the value stored under the first pair with key `k`. */
  function Get<K(==), V>(d: Dict<K, V>, k: K): Option<V> {
    if d == [] then None else if d[0].0 == k then Some(d[0].1) else Get(d[1..], k)
  }

  /** `d[k] = v`: overwrite the value of an existing key in place, or append a new pair. */
  function Assign<K(==), V>(d: Dict<K, V>, k: K, v: V): Dict<K, V> {
    if d == [] then [(k, v)]
    else if d[0].0 == k then [(k, v)] + d[1..]
    else [d[0]] + Assign(d[1..], k, v)
  }

  /** Assigning each pair of `pairs` to `d`, left to right. */
  function Update<K(==), V>(d: Dict<K, V>, pairs: seq<(K, V)>): Dict<K, V>
    decreases |pairs|
  {
    if pairs == [] then d else Update(Assign(d, pairs[0].0, pairs[0].1), pairs[1..])
  }

  /** `dict(pairs)`: no key twice, and exactly the keys the pairs name. */
  function FromPairs<K(==,!new), V>(pairs: seq<(K, V)>): (d: Dict<K, V>)
    ensures Distinct(Keys(d))
    ensures forall k :: k in Keys(d) <==> k in Keys(pairs)
  {
    UpdateDistinct([], pairs);
    UpdateFromEmpty(pairs);
    Update([], pairs)
  }

  /** Assigning pairs to an empty dictionary leaves the last value of each key,
      and so exactly the keys the pairs name. */
  lemma UpdateFromEmpty<K, V>(pairs: seq<(K, V)>)
    ensures forall k :: Get(Update([], pairs), k) == LookupLast(pairs, k)
    ensures forall k :: k in Keys(Update([], pairs)) <==> k in Keys(pairs)
  {
    forall k ensures Get(Update([], pairs), k) == LookupLast(pairs, k) {
      UpdateGet([], pairs, k);
    }
    forall k ensures k in Keys(Update([], pairs)) <==> k in Keys(pairs) {
      GetIffKey(Update([], pairs), k);
    }
  }

  /** `{**a, **b}`: no key twice; a key of `b` holds `b`'s last value for it, and
      any other key holds `a`'s last value (or is absent from both). */
  function Unpack<K(==,!new), V>(a: Dict<K, V>, b: Dict<K, V>): (d: Dict<K, V>)
    ensures Distinct(Keys(d))
    ensures forall k :: Get(d, k) == if k in Keys(b) then LookupLast(b, k) else LookupLast(a, k)
  {
    var first := FromPairs(a);
    UpdateFromEmpty(a);
    UpdateDistinct(first, b);
    UpdateOver(first, b);
    Update(first, b)
  }

  /** Assigning pairs over a dictionary: the pairs' last values win. */
  lemma UpdateOver<K, V>(d: Dict<K, V>, pairs: seq<(K, V)>)
    ensures forall k :: Get(Update(d, pairs), k) == if k in Keys(pairs) then LookupLast(pairs, k) else Get(d, k)
  {
    forall k ensures Get(Update(d, pairs), k) == if k in Keys(pairs) then LookupLast(pairs, k) else Get(d, k) {
      UpdateGet(d, pairs, k);
    }
  }

  /** The value of the LAST pair of `pairs` whose key is `k`: the reference
      meaning of "later assignments win". */
  function LookupLast<K(==), V>(pairs: seq<(K, V)>, k: K): (r: Option<V>)
    ensures r.None? <==> k !in Keys(pairs)
    ensures r.Some? ==> exists i :: 0 <= i < |pairs| && pairs[i] == (k, r.value)
                                 && forall j :: i < j < |pairs| ==> pairs[j].0 != k
  {
    if pairs == [] then None
    else
      var later := LookupLast(pairs[1..], k);
      assert Keys(pairs) == [pairs[0].0] + Keys(pairs[1..]);
      if later.Some? then
        assert exists i :: 0 <= i < |pairs| && pairs[i] == (k, later.value)
                      && forall j :: i < j < |pairs| ==> pairs[j].0 != k by {
          var i :| 0 <= i < |pairs[1..]| && pairs[1..][i] == (k, later.value)
                   && forall j :: i < j < |pairs[1..]| ==> pairs[1..][j].0 != k;
          assert pairs[i + 1] == (k, later.value);
          assert forall j :: i + 1 < j < |pairs| ==> pairs[j].0 == pairs[1..][j - 1].0;
        }
        later
      else if pairs[0].0 == k then
        assert forall j :: 0 < j < |pairs| ==> pairs[j].0 == Keys(pairs[1..])[j - 1];
        Some(pairs[0].1)
      else None
  }

  /** In a dictionary (no key twice) the last pair with a key is the only one. */
  lemma {:induction false} LookupLastDistinct<K, V>(d: Dict<K, V>, k: K)
    requires Distinct(Keys(d))
    ensures LookupLast(d, k) == Get(d, k)
  {
    if d != [] {
      var tail := d[1..];
      assert Keys(d) == [d[0].0] + Keys(tail);
      assert Distinct(Keys(tail)) by {
        forall i, j | 0 <= i < j < |tail| ensures Keys(tail)[i] != Keys(tail)[j] {
          assert Keys(d)[i + 1] != Keys(d)[j + 1];
        }
      }
      LookupLastDistinct(tail, k);
      if d[0].0 == k {
        assert k !in Keys(tail) by {
          forall j | 0 <= j < |tail| ensures Keys(tail)[j] != k {
            assert Keys(d)[0] != Keys(d)[j + 1];
          }
        }
      }
    }
  }

  /** In a dictionary, the key of entry `i` finds entry `i`'s value. */
  lemma {:induction false} GetAt<K, V>(d: Dict<K, V>, i: nat)
    requires Distinct(Keys(d)) && i < |d|
    ensures Get(d, d[i].0) == Some(d[i].1)
  {
    if i > 0 {
      DistinctTail(Keys(d));
      assert Keys(d[1..]) == Keys(d)[1..];
      assert d[i].0 == Keys(d)[i] != Keys(d)[0];
      GetAt(d[1..], i - 1);
    }
  }

  /** Assignment keeps the position of an existing key and appends a new one. */
  lemma {:induction false} AssignKeys<K, V>(d: Dict<K, V>, k: K, v: V)
    ensures Keys(Assign(d, k, v)) == if k in Keys(d) then Keys(d) else Keys(d) + [k]
  {
    if d != [] {
      assert Keys(d) == [d[0].0] + Keys(d[1..]);
      AssignKeys(d[1..], k, v);
      if d[0].0 == k {
        assert Keys([(k, v)] + d[1..]) == [k] + Keys(d[1..]);
      } else {
        assert Keys([d[0]] + Assign(d[1..], k, v)) == [d[0].0] + Keys(Assign(d[1..], k, v));
      }
    }
  }

  /** After `d[k] = v`, `k` maps to `v` and every other key to what it did before. */
  lemma {:induction false} AssignGet<K, V>(d: Dict<K, V>, k: K, v: V, x: K)
    ensures Get(Assign(d, k, v), x) == if x == k then Some(v) else Get(d, x)
  {
    if d != [] && d[0].0 != k {
      AssignGet(d[1..], k, v, x);
      assert ([d[0]] + Assign(d[1..], k, v))[1..] == Assign(d[1..], k, v);
    }
  }

  /** Lookup after a run of assignments: the last assignment to the key wins,
      and keys never assigned keep their old value. */
  lemma {:induction false} UpdateGet<K, V>(d: Dict<K, V>, pairs: seq<(K, V)>, x: K)
    ensures Get(Update(d, pairs), x) == if x in Keys(pairs) then LookupLast(pairs, x) else Get(d, x)
    decreases |pairs|
  {
    if pairs != [] {
      var d' := Assign(d, pairs[0].0, pairs[0].1);
      UpdateGet(d', pairs[1..], x);
      AssignGet(d, pairs[0].0, pairs[0].1, x);
      assert Keys(pairs) == [pairs[0].0] + Keys(pairs[1..]);
    }
  }

  /** A run of assignments never introduces a repeated key. */
  lemma {:induction false} UpdateDistinct<K, V>(d: Dict<K, V>, pairs: seq<(K, V)>)
    requires Distinct(Keys(d))
    ensures Distinct(Keys(Update(d, pairs)))
    decreases |pairs|
  {
    if pairs != [] {
      var d' := Assign(d, pairs[0].0, pairs[0].1);
      AssignKeys(d, pairs[0].0, pairs[0].1);
      UpdateDistinct(d', pairs[1..]);
    }
  }

  /** Assigning pairs whose keys are all new just appends them. */
  lemma {:induction false} UpdateFresh<K, V>(d: Dict<K, V>, pairs: seq<(K, V)>)
    requires Distinct(Keys(d + pairs))
    ensures Update(d, pairs) == d + pairs
    decreases |pairs|
  {
    if pairs != [] {
      var k, v := pairs[0].0, pairs[0].1;
      assert Keys(d + pairs)[|d|] == k;
      assert k !in Keys(d) by {
        forall i | 0 <= i < |d| ensures Keys(d)[i] != k {
          assert Keys(d + pairs)[i] == Keys(d)[i];
        }
      }
      AssignAppends(d, k, v);
      assert d + pairs == (d + [(k, v)]) + pairs[1..];
      UpdateFresh(d + [(k, v)], pairs[1..]);
    }
  }

  /** Assigning a key not yet present appends the pair. */
  lemma {:induction false} AssignAppends<K, V>(d: Dict<K, V>, k: K, v: V)
    requires k !in Keys(d)
    ensures Assign(d, k, v) == d + [(k, v)]
  {
    if d != [] {
      assert Keys(d) == [d[0].0] + Keys(d[1..]);
      AssignAppends(d[1..], k, v);
      assert [d[0]] + (d[1..] + [(k, v)]) == d + [(k, v)];
    }
  }

  /** The keys after a run of assignments: the old keys in their old order,
      then each new key of `pairs` in its own order. */
  lemma {:induction false} UpdateKeys<K, V>(d: Dict<K, V>, pairs: seq<(K, V)>)
    requires Distinct(Keys(pairs))
    ensures Keys(Update(d, pairs)) == Keys(d) + Filter(Keys(pairs), Absent(Keys(d)))
    decreases |pairs|
  {
    if pairs != [] {
      var k, v := pairs[0].0, pairs[0].1;
      var d' := Assign(d, k, v);
      var tail := pairs[1..];
      DistinctTail(Keys(pairs));
      UpdateKeys(d', tail);
      AssignKeys(d, k, v);
      FilterNewKeys(Keys(d), Keys(tail), k, Keys(d'));
    }
  }

  /** The bookkeeping step of UpdateKeys: the key just assigned does not occur
      again, so filtering against the keys before or after it agrees. */
  lemma FilterNewKeys<K>(before: seq<K>, rest: seq<K>, k: K, after: seq<K>)
    requires k !in rest
    requires after == if k in before then before else before + [k]
    ensures after + Filter(rest, Absent(after)) == before + Filter([k] + rest, Absent(before))
  {
    AbsentAgree(before, rest, k, after);
    FilterCongruent(rest, Absent(after), Absent(before));
    var kept := Filter(rest, Absent(before));
    assert Filter(rest, Absent(after)) == kept;
    FilterCons(k, rest, Absent(before));
    if k in before {
      assert !Absent(before)(k);
      assert Filter([k] + rest, Absent(before)) == kept;
    } else {
      assert Absent(before)(k);
      assert Filter([k] + rest, Absent(before)) == [k] + kept;
      assert before + ([k] + kept) == (before + [k]) + kept;
    }
  }

  /** Adding the assigned key to the key list changes nothing for the keys that follow it. */
  lemma AbsentAgree<K>(before: seq<K>, rest: seq<K>, k: K, after: seq<K>)
    requires k !in rest
    requires after == if k in before then before else before + [k]
    ensures forall x :: x in rest ==> Absent(after)(x) == Absent(before)(x)
  {
  }

  /** The test "not among `ks`", as a predicate value. */
  function Absent<K(==)>(ks: seq<K>): K -> bool {
    x => x !in ks
  }

  /** `{**a, **b}` on two dictionaries: the keys of `a` in order, then the keys of
      `b` that `a` lacks, in `b`'s order; no key twice; as many keys as the union
      of the two key sets. */
  lemma MergeKeys<K(!new), V>(a: Dict<K, V>, b: Dict<K, V>)
    requires Distinct(Keys(a)) && Distinct(Keys(b))
    ensures Keys(Unpack(a, b)) == Keys(a) + Filter(Keys(b), Absent(Keys(a)))
    ensures Distinct(Keys(Unpack(a, b)))
    ensures |Keys(Unpack(a, b))| == |(set x | x in Keys(a)) + (set x | x in Keys(b))|
  {
    UpdateFresh([], a);
    assert [] + a == a;
    UpdateKeys(a, b);
    UpdateDistinct(a, b);
    AppendNewCardinality(Keys(a), Keys(b));
  }

  /** Appending the new elements of `more` to `ks` yields one occurrence of each
      member of the union. */
  lemma AppendNewCardinality<K(!new)>(ks: seq<K>, more: seq<K>)
    requires Distinct(ks + Filter(more, Absent(ks)))
    ensures |ks + Filter(more, Absent(ks))| == |(set x | x in ks) + (set x | x in more)|
  {
    var all := ks + Filter(more, Absent(ks));
    FilterMembers(more, Absent(ks));
    DistinctCardinality(all);
    var inAll, inKs, inMore := (set x | x in all), (set x | x in ks), (set x | x in more);
    forall x ensures x in inAll <==> x in inKs + inMore {
      assert Absent(ks)(x) == (x !in ks);
      assert (x in all) == (x in ks || x in Filter(more, Absent(ks)));
    }
    assert inAll == inKs + inMore;
  }

  /** `{**a, **b}` on two dictionaries: a key of `b` takes `b`'s value (even when
      `a` had it first), any other key keeps `a`'s value. */
  lemma MergeGet<K(!new), V>(a: Dict<K, V>, b: Dict<K, V>, x: K)
    requires Distinct(Keys(a)) && Distinct(Keys(b))
    ensures Get(Unpack(a, b), x) == if x in Keys(b) then Get(b, x) else Get(a, x)
  {
    UpdateFresh([], a);
    assert [] + a == a;
    UpdateGet(a, b, x);
    LookupLastDistinct(b, x);
  }

  /** `zip(keys, values)`: pairs by position, stopping at the shorter list, so
      that two lists of one length give back the keys in order. */
  function Zip<K, V>(ks: seq<K>, vs: seq<V>): (pairs: seq<(K, V)>)
    ensures |pairs| <= |ks| && |pairs| <= |vs| && (|pairs| == |ks| || |pairs| == |vs|)
    ensures |ks| == |vs| ==> Keys(pairs) == ks
  {
    var n := if |ks| <= |vs| then |ks| else |vs|;
    seq(n, i requires 0 <= i < n => (ks[i], vs[i]))
  }

  /** A lookup finds a value exactly when the key is present. */
  lemma {:induction false} GetIffKey<K, V>(d: Dict<K, V>, k: K)
    ensures Get(d, k).Some? <==> k in Keys(d)
  {
    if d != [] {
      GetIffKey(d[1..], k);
      assert Keys(d) == [d[0].0] + Keys(d[1..]);
    }
  }

  /** `dict(zip(keys, values))` for lists of equal length: no key twice, the
      keys present are the listed ones, and the last listing of a key wins. */
  lemma ZippedDictionary<K(!new), V>(keys: seq<K>, values: seq<V>)
    requires |keys| == |values|
    ensures var d := FromPairs(Zip(keys, values));
      && Distinct(Keys(d))
      && (forall k :: k in Keys(d) <==> k in keys)
      && forall i :: 0 <= i < |keys| && (forall j :: i < j < |keys| ==> keys[j] != keys[i]) ==>
           Get(d, keys[i]) == Some(values[i])
  {
    var pairs := Zip(keys, values);
    assert Keys(pairs) == keys;
    var d := FromPairs(pairs);
    UpdateDistinct([], pairs);
    forall k ensures k in Keys(d) <==> k in keys {
      UpdateGet([], pairs, k);
      GetIffKey(d, k);
    }
    forall i | 0 <= i < |keys| && (forall j :: i < j < |keys| ==> keys[j] != keys[i])
      ensures Get(d, keys[i]) == Some(values[i])
    {
      LastWins(pairs, i);
      UpdateGet([], pairs, keys[i]);
    }
  }

  /** The pair at the last position of its key is what LookupLast finds. */
  lemma LastWins<K, V>(pairs: seq<(K, V)>, i: nat)
    requires i < |pairs| && forall j :: i < j < |pairs| ==> pairs[j].0 != pairs[i].0
    ensures LookupLast(pairs, pairs[i].0) == Some(pairs[i].1)
  {
    var k := pairs[i].0;
    assert Keys(pairs)[i] == k;
    var i' :| 0 <= i' < |pairs| && pairs[i'] == (k, LookupLast(pairs, k).value)
              && forall j :: i' < j < |pairs| ==> pairs[j].0 != k;
    assert i' == i;
  }
}

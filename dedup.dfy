/** De-duplication through object spreading: each element becomes a one-key object, the
    objects are merged left to right and the merged object's values (or keys) are taken.
    Merging a later object overwrites the value of a key already present (keeping the key's
    place) and appends a new key, so each key keeps the LAST element that carries it. The
    values are then enumerated in JavaScript's property order: keys that are array indices
    first, in ascending numeric order, then the other keys in the order they were created. */
module Dedup {
  import opened Seqs
  import opened StopSequence

  /** Whether an element is stored under key `k`. */
  function KeyIs<T>(key: T -> string, k: string): T -> bool
  {
    (y: T) => key(y) == k
  }

  /** The position of the first element of `xs` carrying key `k` (-1 if none): the moment the
      merged object's property `k` is created. */
  function FirstSeen<T>(xs: seq<T>, key: T -> string, k: string): int
  {
    IndexWhere(xs, KeyIs(key, k))
  }

  /** The values of the merged object after merging in `x` under `key(x)`, in the order the
      keys were created. */
  function Put<T>(acc: seq<T>, key: T -> string, x: T): seq<T>
  {
    var i := FirstSeen(acc, key, key(x));
    if i < 0 then acc + [x] else acc[i := x]
  }

  /** The values of the merged object, for any list (the source only reaches it with a
      non-empty one: `reduce` without an initial value throws on an empty array). */
  function DedupLast<T>(xs: seq<T>, key: T -> string): seq<T>
    decreases |xs|
  {
    if xs == [] then [] else Put(DedupLast(xs[..|xs| - 1], key), key, xs[|xs| - 1])
  }

  /** `x` occurs in `xs` and no later element of `xs` carries its key. */
  ghost predicate IsLastWithKey<T>(xs: seq<T>, key: T -> string, x: T)
  {
    exists i :: 0 <= i < |xs| && xs[i] == x && forall j :: i < j < |xs| ==> key(xs[j]) != key(x)
  }

  /** The keys of the merged values are pairwise distinct. */
  ghost predicate DistinctKeys<T>(ys: seq<T>, key: T -> string)
  {
    forall i, j :: 0 <= i < j < |ys| ==> key(ys[i]) != key(ys[j])
  }

  lemma PutShape<T>(acc: seq<T>, key: T -> string, x: T)
    ensures var p := FirstSeen(acc, key, key(x));
      && (p < 0 ==> Put(acc, key, x) == acc + [x] && forall j :: 0 <= j < |acc| ==> key(acc[j]) != key(x))
      && (0 <= p ==> Put(acc, key, x) == acc[p := x] && key(acc[p]) == key(x))
  {
  }

  /** Merging never creates a second entry for a key. */
  lemma {:induction false} DedupLastDistinct<T>(xs: seq<T>, key: T -> string)
    ensures |DedupLast(xs, key)| <= |xs|
    ensures DistinctKeys(DedupLast(xs, key), key)
    decreases |xs|
  {
    if xs != [] {
      var init, x := xs[..|xs| - 1], xs[|xs| - 1];
      DedupLastDistinct(init, key);
      var prev := DedupLast(init, key);
      PutShape(prev, key, x);
    }
  }

  /** Every key of the input has an entry among the merged values. */
  lemma {:induction false} DedupLastCovers<T>(xs: seq<T>, key: T -> string, i: nat)
    requires i < |xs|
    ensures exists j :: 0 <= j < |DedupLast(xs, key)| && key(DedupLast(xs, key)[j]) == key(xs[i])
    decreases |xs|
  {
    var init, x := xs[..|xs| - 1], xs[|xs| - 1];
    var prev := DedupLast(init, key);
    var r := DedupLast(xs, key);
    PutShape(prev, key, x);
    var p := FirstSeen(prev, key, key(x));
    if i == |xs| - 1 {
      if p < 0 {
        assert key(r[|prev|]) == key(x);
      } else {
        assert key(r[p]) == key(x);
      }
    } else {
      DedupLastCovers(init, key, i);
      var j :| 0 <= j < |prev| && key(prev[j]) == key(init[i]);
      if j == p {
        assert key(r[p]) == key(prev[p]);
      } else {
        assert r[j] == prev[j];
      }
    }
  }

  lemma LastIsLastWithKey<T>(init: seq<T>, key: T -> string, x: T)
    ensures IsLastWithKey(init + [x], key, x)
  {
    assert (init + [x])[|init|] == x;
  }

  lemma LastWithKeyExtend<T>(init: seq<T>, key: T -> string, x: T, y: T)
    requires IsLastWithKey(init, key, y) && key(y) != key(x)
    ensures IsLastWithKey(init + [x], key, y)
  {
    var xs := init + [x];
    var i :| 0 <= i < |init| && init[i] == y && forall m :: i < m < |init| ==> key(init[m]) != key(y);
    assert xs[i] == y;
    forall m | i < m < |xs| ensures key(xs[m]) != key(y) {
      if m < |init| {
        assert xs[m] == init[m];
      }
    }
  }

  /** The value kept for each key is the last input element carrying that key. */
  lemma {:induction false} DedupLastKeepsLast<T>(xs: seq<T>, key: T -> string, j: nat)
    requires j < |DedupLast(xs, key)|
    ensures IsLastWithKey(xs, key, DedupLast(xs, key)[j])
    decreases |xs|
  {
    var init, x := xs[..|xs| - 1], xs[|xs| - 1];
    assert xs == init + [x];
    var prev := DedupLast(init, key);
    var r := DedupLast(xs, key);
    PutShape(prev, key, x);
    var p := FirstSeen(prev, key, key(x));
    if j == p || j == |prev| {
      assert r[j] == x;
      LastIsLastWithKey(init, key, x);
    } else {
      DedupLastDistinct(init, key);
      assert r[j] == prev[j] && key(prev[j]) != key(x);
      DedupLastKeepsLast(init, key, j);
      LastWithKeyExtend(init, key, x, prev[j]);
    }
  }

  /** Every merged value's key was seen in the input. */
  lemma DedupLastSeen<T>(xs: seq<T>, key: T -> string, j: nat)
    requires j < |DedupLast(xs, key)|
    ensures 0 <= FirstSeen(xs, key, key(DedupLast(xs, key)[j])) < |xs|
  {
    DedupLastKeepsLast(xs, key, j);
  }

  /** `a`'s key was created before `b`'s. */
  function CreatedBefore<T>(xs: seq<T>, key: T -> string): (T, T) -> bool
  {
    (a: T, b: T) => FirstSeen(xs, key, key(a)) < FirstSeen(xs, key, key(b))
  }

  /** Appending an element changes no earlier key's creation position. */
  lemma {:induction false} CreationOrderTransfer<T>(init: seq<T>, key: T -> string, x: T)
    requires Pairwise(DedupLast(init, key), CreatedBefore(init, key))
    ensures Pairwise(DedupLast(init, key), CreatedBefore(init + [x], key))
    ensures forall y :: y in DedupLast(init, key) ==> FirstSeen(init + [x], key, key(y)) < |init|
  {
    var prev := DedupLast(init, key);
    forall j | 0 <= j < |prev|
      ensures FirstSeen(init + [x], key, key(prev[j])) == FirstSeen(init, key, key(prev[j])) < |init|
    {
      DedupLastSeen(init, key, j);
      IndexWhereSnoc(init, x, KeyIs(key, key(prev[j])));
    }
    forall i, j | 0 <= i < j < |prev| ensures CreatedBefore(init + [x], key)(prev[i], prev[j]) {
      assert CreatedBefore(init, key)(prev[i], prev[j]);
    }
  }

  /** Merging keeps the keys in the order they were created. */
  lemma {:induction false} DedupLastCreationOrder<T>(xs: seq<T>, key: T -> string)
    ensures Pairwise(DedupLast(xs, key), CreatedBefore(xs, key))
    decreases |xs|
  {
    if xs != [] {
      var init, x := xs[..|xs| - 1], xs[|xs| - 1];
      assert xs == init + [x];
      var prev := DedupLast(init, key);
      var r := DedupLast(xs, key);
      var order := CreatedBefore(xs, key);
      DedupLastCreationOrder(init, key);
      CreationOrderTransfer(init, key, x);
      PutShape(prev, key, x);
      var p := FirstSeen(prev, key, key(x));
      if p < 0 {
        forall m | 0 <= m < |init| ensures key(init[m]) != key(x) {
          DedupLastCovers(init, key, m);
        }
        IndexWhereSnoc(init, x, KeyIs(key, key(x)));
        forall y | y in prev ensures order(y, x) {
        }
        PairwiseSnoc(prev, x, order);
      } else {
        forall i, j | 0 <= i < j < |r| ensures order(r[i], r[j]) {
          assert key(r[i]) == key(prev[i]) && key(r[j]) == key(prev[j]);
          assert order(prev[i], prev[j]);
        }
      }
    }
  }

  // Property order

  /** A key JavaScript treats as an array index: the canonical decimal form of an integer from
      0 to 2^32 - 2. */
  predicate IsArrayIndex(k: string)
  {
    IsCanonicalDecimal(k) && DecimalValue(k) <= 0xFFFF_FFFE
  }

  /** A key's place in the enumeration: an array index by its value, every other key after
      all indices. */
  function Rank(k: string): nat
  {
    if IsArrayIndex(k) then DecimalValue(k) else 0x1_0000_0000
  }

  /** `a` is enumerated before `b`: an array-index key before any other key and before a
      larger index, and one other key before another created later. */
  predicate EnumeratedBefore<T>(xs: seq<T>, key: T -> string, a: T, b: T)
  {
    if IsArrayIndex(key(a)) then
      !IsArrayIndex(key(b)) || DecimalValue(key(a)) < DecimalValue(key(b))
    else
      !IsArrayIndex(key(b)) && FirstSeen(xs, key, key(a)) < FirstSeen(xs, key, key(b))
  }

  function PropertyOrder<T>(xs: seq<T>, key: T -> string): (T, T) -> bool
  {
    (a: T, b: T) => EnumeratedBefore(xs, key, a, b)
  }

  function RankOf<T>(key: T -> string): T -> nat
  {
    (y: T) => Rank(key(y))
  }

  /** Adds a newly created property: before the first property of larger rank, so an array
      index lands among the indices and any other key at the end. */
  function Place<T>(props: seq<T>, rank: T -> nat, x: T): seq<T>
  {
    if props == [] || rank(x) < rank(props[0]) then [x] + props
    else [props[0]] + Place(props[1..], rank, x)
  }

  /** The merged values (one per key, in creation order) added one by one. */
  function Arrange<T>(merged: seq<T>, rank: T -> nat): seq<T>
    decreases |merged|
  {
    if merged == [] then []
    else Place(Arrange(merged[..|merged| - 1], rank), rank, merged[|merged| - 1])
  }

  /** `Object.values` of the merged object (and, through the keys, `Object.keys`). */
  function ObjectValues<T>(xs: seq<T>, key: T -> string): seq<T>
  {
    Arrange(DedupLast(xs, key), RankOf(key))
  }

  lemma {:induction false} PlaceEntries<T>(props: seq<T>, rank: T -> nat, x: T)
    ensures multiset(Place(props, rank, x)) == multiset(props) + multiset{x}
  {
    if props != [] && rank(props[0]) <= rank(x) {
      PlaceEntries(props[1..], rank, x);
      assert props == [props[0]] + props[1..];
    }
  }

  lemma {:induction false} ArrangeEntries<T>(merged: seq<T>, rank: T -> nat)
    ensures multiset(Arrange(merged, rank)) == multiset(merged)
    decreases |merged|
  {
    if merged != [] {
      var init := merged[..|merged| - 1];
      ArrangeEntries(init, rank);
      PlaceEntries(Arrange(init, rank), rank, merged[|merged| - 1]);
      assert merged == init + [merged[|merged| - 1]];
    }
  }

  /** Placing `x` keeps an `order` that ranks agree with, when `x` is ordered against every
      property already present as their ranks say. */
  lemma {:induction false} PlaceInOrder<T>(props: seq<T>, rank: T -> nat, order: (T, T) -> bool, x: T)
    requires Pairwise(props, order)
    requires forall a, b :: order(a, b) ==> rank(a) <= rank(b)
    requires forall y :: y in props ==>
      (rank(x) < rank(y) ==> order(x, y)) && (rank(y) <= rank(x) ==> order(y, x))
    ensures Pairwise(Place(props, rank, x), order)
  {
    var r := Place(props, rank, x);
    if props == [] || rank(x) < rank(props[0]) {
      forall i, j | 0 <= i < j < |r| ensures order(r[i], r[j]) {
        assert r[j] == props[j - 1];
        if i == 0 {
          if 0 < j - 1 {
            assert order(props[0], props[j - 1]);
          }
        } else {
          assert r[i] == props[i - 1];
          assert order(props[i - 1], props[j - 1]);
        }
      }
    } else {
      var tail := props[1..];
      forall i, j | 0 <= i < j < |tail| ensures order(tail[i], tail[j]) {
        assert order(props[i + 1], props[j + 1]);
      }
      PlaceInOrder(tail, rank, order, x);
      PlaceEntries(tail, rank, x);
      var rest := Place(tail, rank, x);
      forall i, j | 0 <= i < j < |r| ensures order(r[i], r[j]) {
        assert r[j] == rest[j - 1];
        if i == 0 {
          assert rest[j - 1] in multiset(rest);
          if rest[j - 1] != x {
            var k :| 0 <= k < |tail| && tail[k] == rest[j - 1];
            assert order(props[0], props[k + 1]);
          }
        } else {
          assert r[i] == rest[i - 1];
          assert order(rest[i - 1], rest[j - 1]);
        }
      }
    }
  }

  /** Arranging keeps an `order` that ranks agree with, when every two values are ordered as
      their ranks say, the earlier one first on a tie. */
  lemma {:induction false} ArrangeInOrder<T>(merged: seq<T>, rank: T -> nat, order: (T, T) -> bool)
    requires forall a, b :: order(a, b) ==> rank(a) <= rank(b)
    requires forall i, j :: 0 <= i < j < |merged| ==>
      (rank(merged[j]) < rank(merged[i]) ==> order(merged[j], merged[i]))
      && (rank(merged[i]) <= rank(merged[j]) ==> order(merged[i], merged[j]))
    ensures Pairwise(Arrange(merged, rank), order)
    decreases |merged|
  {
    if merged != [] {
      var init, x := merged[..|merged| - 1], merged[|merged| - 1];
      forall i, j | 0 <= i < j < |init|
        ensures (rank(init[j]) < rank(init[i]) ==> order(init[j], init[i]))
             && (rank(init[i]) <= rank(init[j]) ==> order(init[i], init[j]))
      {
        assert init[i] == merged[i] && init[j] == merged[j];
      }
      ArrangeInOrder(init, rank, order);
      var props := Arrange(init, rank);
      ArrangeEntries(init, rank);
      forall y | y in props
        ensures (rank(x) < rank(y) ==> order(x, y)) && (rank(y) <= rank(x) ==> order(y, x))
      {
        assert y in multiset(props);
        var k :| 0 <= k < |init| && init[k] == y;
        assert merged[k] == y;
      }
      PlaceInOrder(props, rank, order, x);
    }
  }

  /** Enumeration order puts the lower rank first. */
  lemma EnumeratedBeforeRank<T>(xs: seq<T>, key: T -> string, a: T, b: T)
    ensures EnumeratedBefore(xs, key, a, b) ==> Rank(key(a)) <= Rank(key(b))
    ensures Rank(key(a)) < Rank(key(b)) ==> EnumeratedBefore(xs, key, a, b)
  {
  }

  /** Two keys created one after the other, the first of no larger rank, are enumerated in that
      order; between array indices this needs each number to have one canonical form. */
  lemma CreatedBeforeEnumerated<T>(xs: seq<T>, key: T -> string, a: T, b: T)
    requires Rank(key(a)) <= Rank(key(b))
    requires FirstSeen(xs, key, key(a)) < FirstSeen(xs, key, key(b))
    ensures EnumeratedBefore(xs, key, a, b)
  {
    if IsArrayIndex(key(a)) && IsArrayIndex(key(b)) && DecimalValue(key(a)) == DecimalValue(key(b)) {
      CanonicalDecimalInjective(key(a), key(b));
    }
  }

  /** The enumeration lists each merged value once. */
  lemma ObjectValuesEntries<T>(xs: seq<T>, key: T -> string)
    ensures multiset(ObjectValues(xs, key)) == multiset(DedupLast(xs, key))
  {
    ArrangeEntries(DedupLast(xs, key), RankOf(key));
  }

  /** The values are enumerated in property order: array-index keys first, in ascending
      numeric order, then the other keys in the order they were created. */
  lemma ObjectValuesOrder<T>(xs: seq<T>, key: T -> string)
    ensures Pairwise(ObjectValues(xs, key), PropertyOrder(xs, key))
  {
    var merged := DedupLast(xs, key);
    var rank, order := RankOf(key), PropertyOrder(xs, key);
    forall a, b | order(a, b) ensures rank(a) <= rank(b) {
      EnumeratedBeforeRank(xs, key, a, b);
    }
    DedupLastCreationOrder(xs, key);
    forall i, j | 0 <= i < j < |merged|
      ensures (rank(merged[j]) < rank(merged[i]) ==> order(merged[j], merged[i]))
           && (rank(merged[i]) <= rank(merged[j]) ==> order(merged[i], merged[j]))
    {
      assert CreatedBefore(xs, key)(merged[i], merged[j]);
      EnumeratedBeforeRank(xs, key, merged[j], merged[i]);
      if rank(merged[i]) <= rank(merged[j]) {
        CreatedBeforeEnumerated(xs, key, merged[i], merged[j]);
      }
    }
    ArrangeInOrder(merged, rank, order);
  }

  /** No key is enumerated twice, and there are no more values than input elements. */
  lemma ObjectValuesDistinct<T>(xs: seq<T>, key: T -> string)
    ensures |ObjectValues(xs, key)| <= |xs|
    ensures DistinctKeys(ObjectValues(xs, key), key)
  {
    var r := ObjectValues(xs, key);
    DedupLastDistinct(xs, key);
    ObjectValuesEntries(xs, key);
    assert |r| == |multiset(r)|;
    ObjectValuesOrder(xs, key);
    forall i, j | 0 <= i < j < |r| ensures key(r[i]) != key(r[j]) {
      assert PropertyOrder(xs, key)(r[i], r[j]);
    }
  }

  /** Every key of the input is enumerated. */
  lemma ObjectValuesCovers<T>(xs: seq<T>, key: T -> string, i: nat)
    requires i < |xs|
    ensures exists j :: 0 <= j < |ObjectValues(xs, key)| && key(ObjectValues(xs, key)[j]) == key(xs[i])
  {
    var merged := DedupLast(xs, key);
    DedupLastCovers(xs, key, i);
    var m :| 0 <= m < |merged| && key(merged[m]) == key(xs[i]);
    ObjectValuesEntries(xs, key);
    assert merged[m] in multiset(ObjectValues(xs, key));
  }

  /** Each enumerated value is the last input element carrying its key. */
  lemma ObjectValuesKeepsLast<T>(xs: seq<T>, key: T -> string, j: nat)
    requires j < |ObjectValues(xs, key)|
    ensures IsLastWithKey(xs, key, ObjectValues(xs, key)[j])
  {
    var merged := DedupLast(xs, key);
    var r := ObjectValues(xs, key);
    ObjectValuesEntries(xs, key);
    assert r[j] in multiset(merged);
    var m :| 0 <= m < |merged| && merged[m] == r[j];
    DedupLastKeepsLast(xs, key, m);
  }

  /** A key that is an array index is enumerated before one created earlier that is not. */
  lemma IndexKeyEnumeratedFirst()
    ensures ObjectValues(["A1", "7"], (k: string) => k) == ["7", "A1"]
  {
    var key := (k: string) => k;
    var xs: seq<string> := ["A1", "7"];
    assert xs[..1] == ["A1"] && ["A1"][..0] == [];
    assert DedupLast(["A1"], key) == ["A1"];
    assert FirstSeen(["A1"], key, "7") == -1;
    assert DedupLast(xs, key) == ["A1", "7"];
    assert "7"[1..] == [] && DecimalValue("7") == 7;
    assert "A1"[0] == 'A' && !IsDigits("A1");
    var rank := RankOf(key);
    assert rank("7") == 7 && rank("A1") == 0x1_0000_0000;
    assert ["A1", "7"][..1] == ["A1"];
    assert Arrange(["A1"], rank) == ["A1"];
  }
}

/** The self-expanding hash table of lib/hash.cc. Each bucket is the sequence its list stands for. */
module Hashing {
  import opened Options
  import opened ListSpec

  const InitialBuckets: nat := 4
  const ResizeRatio: nat := 3
  const IncreaseSizeBy: nat := 4

  function HashValue<Key>(hash: Key -> nat, n: nat, key: Key): (b: nat)
    requires 0 < n
    ensures b < n && hash(key) == hash(key) / n * n + b
  {
    hash(key) % n
  }

  /** Every item sits in the bucket its key hashes to, is the one the map gives for its key, and
      occurs there once. */
  ghost predicate Placed<Key, T>(bs: seq<seq<T>>, getKey: T -> Key, hash: Key -> nat, m: map<Key, T>) {
    && 0 < |bs|
    && (forall b, i :: 0 <= b < |bs| && 0 <= i < |bs[b]| ==>
          var k := getKey(bs[b][i]);
          k in m && m[k] == bs[b][i] && HashValue(hash, |bs|, k) == b)
    && (forall b :: 0 <= b < |bs| ==> NoDup(bs[b]))
  }

  ghost predicate Holds<Key, T>(bs: seq<seq<T>>, hash: Key -> nat, k: Key, x: T)
    requires 0 < |bs|
  {
    x in bs[HashValue(hash, |bs|, k)]
  }

  /** The buckets stand for the finite map m. */
  ghost predicate Represents<Key, T>(bs: seq<seq<T>>, getKey: T -> Key, hash: Key -> nat, m: map<Key, T>) {
    && Placed(bs, getKey, hash, m)
    && (forall k :: k in m ==> getKey(m[k]) == k && Holds(bs, hash, k, m[k]))
  }

  /** All items, bucket by bucket. */
  ghost function Flatten<T>(bs: seq<seq<T>>): seq<T> {
    if bs == [] then [] else bs[0] + Flatten(bs[1..])
  }

  lemma {:induction false} FlattenUpdate<T>(bs: seq<seq<T>>, b: nat, s: seq<T>)
    requires b < |bs|
    ensures |Flatten(bs[b := s])| == |Flatten(bs)| - |bs[b]| + |s|
  {
    if b == 0 {
      assert bs[b := s][1..] == bs[1..];
    } else {
      FlattenUpdate(bs[1..], b - 1, s);
      assert bs[b := s][1..] == bs[1..][b - 1 := s];
    }
  }

  lemma {:induction false} FlattenEmpty<T>(bs: seq<seq<T>>)
    requires forall b :: 0 <= b < |bs| ==> bs[b] == []
    ensures Flatten(bs) == []
  {
    if bs != [] {
      FlattenEmpty(bs[1..]);
    }
  }

  lemma {:induction false} InFlatten<T>(bs: seq<seq<T>>, x: T)
    ensures x in Flatten(bs) <==> exists b :: 0 <= b < |bs| && x in bs[b]
  {
    if bs != [] {
      InFlatten(bs[1..], x);
      if x in Flatten(bs[1..]) {
        var b :| 0 <= b < |bs[1..]| && x in bs[1..][b];
        assert x in bs[b + 1];
      }
      if b :| 0 <= b < |bs| && x in bs[b] {
        if b > 0 {
          assert x in bs[1..][b - 1];
        }
      }
    }
  }

  lemma NoDupConcat<T>(a: seq<T>, b: seq<T>)
    requires NoDup(a) && NoDup(b) && forall x :: x in a ==> x !in b
    ensures NoDup(a + b)
  {
    forall i, j | 0 <= i < j < |a + b|
      ensures (a + b)[i] != (a + b)[j]
    {
      if i < |a| <= j {
        assert a[i] in a && b[j - |a|] in b;
      }
    }
  }

  lemma {:induction false} FlattenNoDup<T>(bs: seq<seq<T>>)
    requires forall b :: 0 <= b < |bs| ==> NoDup(bs[b])
    requires forall b, c, x :: 0 <= b < c < |bs| && x in bs[b] ==> x !in bs[c]
    ensures NoDup(Flatten(bs))
  {
    if bs != [] {
      var rest := bs[1..];
      forall b, c, x | 0 <= b < c < |rest| && x in rest[b]
        ensures x !in rest[c]
      {
        assert x in bs[b + 1];
      }
      FlattenNoDup(rest);
      forall x | x in bs[0]
        ensures x !in Flatten(rest)
      {
        InFlatten(rest, x);
        assert forall b :: 0 <= b < |rest| ==> rest[b] == bs[b + 1];
      }
      NoDupConcat(bs[0], Flatten(rest));
    }
  }

  /** Stepping through the table meets each item of the map exactly once, and nothing else. */
  lemma IterationIsExact<Key, T>(bs: seq<seq<T>>, getKey: T -> Key, hash: Key -> nat, m: map<Key, T>)
    requires Represents(bs, getKey, hash, m)
    ensures NoDup(Flatten(bs))
    ensures forall x :: x in Flatten(bs) <==> getKey(x) in m && m[getKey(x)] == x
  {
    forall b, c, x | 0 <= b < c < |bs| && x in bs[b]
      ensures x !in bs[c]
    {
      var i :| 0 <= i < |bs[b]| && bs[b][i] == x;
      if j :| 0 <= j < |bs[c]| && bs[c][j] == x {
        assert false;
      }
    }
    FlattenNoDup(bs);
    forall x
      ensures x in Flatten(bs) <==> getKey(x) in m && m[getKey(x)] == x
    {
      InFlatten(bs, x);
      if b :| 0 <= b < |bs| && x in bs[b] {
        var i :| 0 <= i < |bs[b]| && bs[b][i] == x;
      }
      if getKey(x) in m && m[getKey(x)] == x {
        assert Holds(bs, hash, getKey(x), x);
      }
    }
  }

  lemma InsertRepresents<Key, T>(bs: seq<seq<T>>, getKey: T -> Key, hash: Key -> nat, m: map<Key, T>, x: T)
    requires Represents(bs, getKey, hash, m) && getKey(x) !in m
    ensures var b := HashValue(hash, |bs|, getKey(x));
            Represents(bs[b := bs[b] + [x]], getKey, hash, m[getKey(x) := x])
  {
    var b := HashValue(hash, |bs|, getKey(x));
    var bs' := bs[b := bs[b] + [x]];
    var m' := m[getKey(x) := x];
    assert x !in bs[b];
    assert bs'[b][|bs[b]|] == x;
    forall k | k in m'
      ensures Holds(bs', hash, k, m'[k])
    {
      if k != getKey(x) {
        assert Holds(bs, hash, k, m[k]);
      }
    }
  }

  lemma RemoveRepresents<Key, T>(bs: seq<seq<T>>, getKey: T -> Key, hash: Key -> nat, m: map<Key, T>, key: Key, i: nat)
    requires Represents(bs, getKey, hash, m) && key in m
    requires i < |bs[HashValue(hash, |bs|, key)]| && getKey(bs[HashValue(hash, |bs|, key)][i]) == key
    ensures var b := HashValue(hash, |bs|, key);
            Represents(bs[b := bs[b][..i] + bs[b][i + 1..]], getKey, hash, m - {key})
  {
    var b := HashValue(hash, |bs|, key);
    var s := bs[b][..i] + bs[b][i + 1..];
    var bs' := bs[b := s];
    NoDupRemoved(bs[b], i);
    forall k | k in m - {key}
      ensures Holds(bs', hash, k, m[k])
    {
      assert Holds(bs, hash, k, m[k]);
      if HashValue(hash, |bs|, k) == b {
        var j :| 0 <= j < |bs[b]| && bs[b][j] == m[k];
        assert j != i;
        assert s[if j < i then j else j - 1] == m[k];
      }
    }
  }

  /** Half way through a ReHash: every item is in its bucket of the old table or of the new one, and
      never in both. */
  ghost predicate Splitting<Key, T>(olds: seq<seq<T>>, news: seq<seq<T>>, getKey: T -> Key, hash: Key -> nat, m: map<Key, T>) {
    && Placed(olds, getKey, hash, m) && Placed(news, getKey, hash, m)
    && (forall k :: k in m ==> getKey(m[k]) == k && Holds(olds, hash, k, m[k]) != Holds(news, hash, k, m[k]))
  }

  /** Moving the front item of an old bucket to its new bucket. */
  lemma MoveKeepsSplitting<Key, T>(olds: seq<seq<T>>, news: seq<seq<T>>, getKey: T -> Key, hash: Key -> nat, m: map<Key, T>, i: nat)
    requires Splitting(olds, news, getKey, hash, m) && i < |olds| && olds[i] != []
    ensures var x := olds[i][0];
            var b := HashValue(hash, |news|, getKey(x));
            Splitting(olds[i := olds[i][1..]], news[b := news[b] + [x]], getKey, hash, m)
  {
    var x := olds[i][0];
    var b := HashValue(hash, |news|, getKey(x));
    var olds', news' := olds[i := olds[i][1..]], news[b := news[b] + [x]];
    assert Holds(olds, hash, getKey(x), x);
    assert x !in news[b];
    assert x !in olds[i][1..];
    assert news'[b][|news[b]|] == x;
    forall k | k in m
      ensures Holds(olds', hash, k, m[k]) != Holds(news', hash, k, m[k])
    {
      assert olds[i] == [x] + olds[i][1..];
      assert m[k] == x ==> k == getKey(x);
    }
  }

  lemma SplittingDone<Key, T>(olds: seq<seq<T>>, news: seq<seq<T>>, getKey: T -> Key, hash: Key -> nat, m: map<Key, T>)
    requires Splitting(olds, news, getKey, hash, m) && forall b :: 0 <= b < |olds| ==> olds[b] == []
    ensures Represents(news, getKey, hash, m)
  {
  }

  /** The resize test, without the division. */
  lemma Load(items: nat, n: nat)
    requires 0 < n
    ensures items / n >= ResizeRatio <==> items >= ResizeRatio * n
  {
    var q := items / n;
    assert items == q * n + items % n;
    if q >= ResizeRatio {
      assert q * n >= ResizeRatio * n;
    } else {
      assert q * n <= (ResizeRatio - 1) * n;
    }
  }

  lemma EmptyTable<Key, T>(bs: seq<seq<T>>, getKey: T -> Key, hash: Key -> nat, m: map<Key, T>)
    requires 0 < |bs| && forall b :: 0 <= b < |bs| ==> bs[b] == []
    ensures Placed(bs, getKey, hash, m) && Represents(bs, getKey, hash, map[]) && Flatten(bs) == []
    ensures forall k, x :: !Holds(bs, hash, k, x)
  {
    FlattenEmpty(bs);
  }

  class HashTable<Key(==), T(==)> {
    var buckets: array<seq<T>>
    var numBuckets: nat
    var numItems: nat
    const getKey: T -> Key
    const hash: Key -> nat
    ghost var contents: map<Key, T>     // the finite map the table stands for

    ghost predicate Valid()
      reads this, buckets
    {
      && buckets.Length == numBuckets
      && Represents(buckets[..], getKey, hash, contents)
      && numItems == |contents| == |Flatten(buckets[..])|
      && numItems <= ResizeRatio * numBuckets
    }

    constructor (get: T -> Key, hFunc: Key -> nat)
      ensures Valid() && fresh(buckets) && contents == map[] && numBuckets == 4
      ensures getKey == get && hash == hFunc
    {
      getKey, hash, numItems, contents := get, hFunc, 0, map[];
      numBuckets := InitialBuckets;
      buckets := new seq<T>[InitialBuckets](i => []);
      new;
      EmptyTable(buckets[..], getKey, hash, contents);
    }

    /** Find: the item with this key, or nothing. */
    method Find(key: Key) returns (item: Option<T>)
      requires Valid()
      ensures item == if key in contents then Some(contents[key]) else None
    {
      var bucket := HashValue(hash, numBuckets, key);
      var i := FindInBucket(bucket, key);
      if key in contents {
        assert Holds(buckets[..], hash, key, contents[key]);
      }
      if i < 0 {
        return None;
      }
      return Some(buckets[bucket][i]);
    }

    /** FindInBucket, returning the position rather than the item. */
    method FindInBucket(bucket: nat, key: Key) returns (i: int)
      requires bucket < buckets.Length
      ensures -1 <= i < |buckets[bucket]|
      ensures i >= 0 ==> getKey(buckets[bucket][i]) == key
      ensures i < 0 ==> forall j :: 0 <= j < |buckets[bucket]| ==> getKey(buckets[bucket][j]) != key
    {
      i := 0;
      while i < |buckets[bucket]|
        invariant 0 <= i <= |buckets[bucket]|
        invariant forall j :: 0 <= j < i ==> getKey(buckets[bucket][j]) != key
      {
        if key == getKey(buckets[bucket][i]) {
          return i;
        }
        i := i + 1;
      }
      return -1;
    }

    /** Put an item in the table, growing the table first when it is full. */
    method Insert(item: T)
      requires Valid() && getKey(item) !in contents
      modifies this, buckets
      ensures Valid() && (buckets == old(buckets) || fresh(buckets))
      ensures contents == old(contents)[getKey(item) := item] && numItems == old(numItems) + 1
      ensures numBuckets == if old(numItems) >= 3 * old(numBuckets) then 4 * old(numBuckets) else old(numBuckets)
    {
      Load(numItems, numBuckets);
      if numItems / numBuckets >= ResizeRatio {
        ReHash();
      }
      Place(item);
    }

    /** The second half of Insert: append to the bucket. */
    method Place(item: T)
      requires Valid() && getKey(item) !in contents && numItems < ResizeRatio * numBuckets
      modifies this, buckets
      ensures Valid() && buckets == old(buckets) && numBuckets == old(numBuckets) && numItems == old(numItems) + 1
      ensures contents == old(contents)[getKey(item) := item]
    {
      var b := HashValue(hash, numBuckets, getKey(item));
      InsertRepresents(buckets[..], getKey, hash, contents, item);
      FlattenUpdate(buckets[..], b, buckets[b] + [item]);
      ghost var before := buckets[..];
      buckets[b] := buckets[b] + [item];
      assert buckets[..] == before[b := before[b] + [item]];
      contents := contents[getKey(item) := item];
      numItems := numItems + 1;
    }

    /** Move every item to a table IncreaseSizeBy times the size: nothing is lost or duplicated. */
    method ReHash()
      requires Valid()
      modifies this, buckets
      ensures Valid() && fresh(buckets) && contents == old(contents)
      ensures numBuckets == IncreaseSizeBy * old(numBuckets) && numItems == old(numItems)
    {
      var oldTable := buckets;
      numBuckets := numBuckets * IncreaseSizeBy;
      buckets := new seq<T>[numBuckets](i => []);
      EmptyTable(buckets[..], getKey, hash, contents);
      MoveAll(oldTable);
    }

    /** ReHash's loop over the old table. */
    method MoveAll(oldTable: array<seq<T>>)
      requires oldTable != buckets && numBuckets == buckets.Length
      requires Splitting(oldTable[..], buckets[..], getKey, hash, contents)
      modifies oldTable, buckets
      ensures Represents(buckets[..], getKey, hash, contents)
      ensures |Flatten(buckets[..])| == old(|Flatten(oldTable[..])| + |Flatten(buckets[..])|)
    {
      var i := 0;
      while i < oldTable.Length
        invariant 0 <= i <= oldTable.Length
        invariant forall b :: 0 <= b < i ==> oldTable[b] == []
        invariant Splitting(oldTable[..], buckets[..], getKey, hash, contents)
        invariant |Flatten(oldTable[..])| + |Flatten(buckets[..])| == old(|Flatten(oldTable[..])| + |Flatten(buckets[..])|)
      {
        MoveBucket(oldTable, i);
        i := i + 1;
      }
      SplittingDone(oldTable[..], buckets[..], getKey, hash, contents);
      FlattenEmpty(oldTable[..]);
    }

    /** ReHash's inner loop: empty one old bucket. */
    method MoveBucket(oldTable: array<seq<T>>, i: nat)
      requires i < oldTable.Length && oldTable != buckets && numBuckets == buckets.Length
      requires Splitting(oldTable[..], buckets[..], getKey, hash, contents)
      modifies oldTable, buckets
      ensures Splitting(oldTable[..], buckets[..], getKey, hash, contents)
      ensures oldTable[..] == old(oldTable[..])[i := []]
      ensures |Flatten(oldTable[..])| + |Flatten(buckets[..])| == old(|Flatten(oldTable[..])| + |Flatten(buckets[..])|)
    {
      while oldTable[i] != []
        invariant Splitting(oldTable[..], buckets[..], getKey, hash, contents)
        invariant oldTable[..] == old(oldTable[..])[i := oldTable[i]]
        invariant |Flatten(oldTable[..])| + |Flatten(buckets[..])| == old(|Flatten(oldTable[..])| + |Flatten(buckets[..])|)
        decreases |oldTable[i]|
      {
        MoveFront(oldTable, i);
      }
    }

    method MoveFront(oldTable: array<seq<T>>, i: nat)
      requires i < oldTable.Length && oldTable[i] != [] && oldTable != buckets && numBuckets == buckets.Length
      requires Splitting(oldTable[..], buckets[..], getKey, hash, contents)
      modifies oldTable, buckets
      ensures Splitting(oldTable[..], buckets[..], getKey, hash, contents)
      ensures oldTable[..] == old(oldTable[..])[i := old(oldTable[i])[1..]]
      ensures |Flatten(oldTable[..])| + |Flatten(buckets[..])| == old(|Flatten(oldTable[..])| + |Flatten(buckets[..])|)
    {
      ghost var olds, news := oldTable[..], buckets[..];
      MoveKeepsSplitting(olds, news, getKey, hash, contents, i);
      var item := oldTable[i][0];
      oldTable[i] := oldTable[i][1..];
      var b := HashValue(hash, numBuckets, getKey(item));
      FlattenUpdate(olds, i, olds[i][1..]);
      FlattenUpdate(news, b, news[b] + [item]);
      buckets[b] := buckets[b] + [item];
      assert oldTable[..] == olds[i := olds[i][1..]];
      assert buckets[..] == news[b := news[b] + [item]];
    }

    /** Take the item with this key out; it must be in the table. */
    method Remove(key: Key) returns (item: T)
      requires Valid() && key in contents
      modifies this, buckets
      ensures Valid() && buckets == old(buckets)
      ensures item == old(contents)[key] && contents == old(contents) - {key}
    {
      var bucket := HashValue(hash, numBuckets, key);
      assert Holds(buckets[..], hash, key, contents[key]);
      var i := FindInBucket(bucket, key);
      item := buckets[bucket][i];
      ghost var before := buckets[..];
      var rest := buckets[bucket][..i] + buckets[bucket][i + 1..];
      RemoveRepresents(before, getKey, hash, contents, key, i);
      FlattenUpdate(before, bucket, rest);
      buckets[bucket] := rest;
      assert buckets[..] == before[bucket := rest];
      contents := contents - {key};
      numItems := numItems - 1;
    }

    /** The first bucket from `bucket` on that has any items in it. */
    method FindNextFullBucket(bucket: nat) returns (b: nat)
      requires bucket <= numBuckets == buckets.Length
      ensures bucket <= b <= numBuckets
      ensures b < numBuckets ==> buckets[b] != []
      ensures forall c :: bucket <= c < b ==> buckets[c] == []
    {
      b := bucket;
      while b < numBuckets
        invariant bucket <= b <= numBuckets
        invariant forall c :: bucket <= c < b ==> buckets[c] == []
      {
        if buckets[b] != [] {
          break;
        }
        b := b + 1;
      }
    }
  }

  lemma {:induction false} SkipEmpty<T>(bs: seq<seq<T>>, start: nat, end: nat)
    requires start <= end <= |bs| && forall c :: start <= c < end ==> bs[c] == []
    ensures Flatten(bs[start..]) == Flatten(bs[end..])
  {
    if start < end {
      SkipEmpty(bs, start, end - 1);
      assert bs[end - 1..][0] == [] && bs[end - 1..][1..] == bs[end..];
    }
  }

  /** The items from position pos of bucket b on. */
  ghost function ItemsFrom<T>(bs: seq<seq<T>>, b: nat, pos: nat): seq<T>
    requires b < |bs| ==> pos < |bs[b]|
  {
    if b < |bs| then bs[b][pos..] + Flatten(bs[b + 1..]) else []
  }

  lemma StartOfBucket<T>(bs: seq<seq<T>>, b: nat)
    requires b <= |bs| && (b < |bs| ==> 0 < |bs[b]|)
    ensures ItemsFrom(bs, b, 0) == Flatten(bs[b..])
  {
    if b < |bs| {
      assert bs[b..][0] == bs[b] && bs[b..][1..] == bs[b + 1..];
    }
  }

  lemma EndOfBucket<T>(bs: seq<seq<T>>, b: nat, next: nat)
    requires b < next <= |bs| && bs[b] != [] && (next < |bs| ==> bs[next] != [])
    requires forall c :: b < c < next ==> bs[c] == []
    ensures ItemsFrom(bs, b, |bs[b]| - 1)[1..] == ItemsFrom(bs, next, 0)
  {
    SkipEmpty(bs, b + 1, next);
    StartOfBucket(bs, next);
    assert bs[b][|bs[b]| - 1..] == [bs[b][|bs[b]| - 1]];
  }

  lemma WithinBucket<T>(bs: seq<seq<T>>, b: nat, pos: nat)
    requires b < |bs| && pos + 1 < |bs[b]|
    ensures ItemsFrom(bs, b, pos)[1..] == ItemsFrom(bs, b, pos + 1)
  {
    assert bs[b][pos..] == [bs[b][pos]] + bs[b][pos + 1..];
  }

  /** Steps through a table. `pos` is where the bucket's own iterator stands. */
  class HashIterator<Key(==), T(==)> {
    const table: HashTable<Key, T>
    var bucket: nat
    var pos: nat

    ghost predicate Valid()
      reads this, table, table.buckets
    {
      && bucket <= table.numBuckets == table.buckets.Length
      && (bucket < table.numBuckets ==> pos < |table.buckets[bucket]|)
    }

    /** The items still to come, the current one first. */
    ghost function Remaining(): seq<T>
      requires Valid()
      reads this, table, table.buckets
    {
      ItemsFrom(table.buckets[..], bucket, pos)
    }

    constructor (tbl: HashTable<Key, T>)
      requires tbl.Valid()
      ensures Valid() && table == tbl
      ensures Remaining() == Flatten(tbl.buckets[..])
    {
      table := tbl;
      pos := 0;
      bucket := tbl.numBuckets;
      new;
      bucket := tbl.FindNextFullBucket(0);
      SkipEmpty(tbl.buckets[..], 0, bucket);
      StartOfBucket(tbl.buckets[..], bucket);
      assert tbl.buckets[..][0..] == tbl.buckets[..];
    }

    method IsDone() returns (done: bool)
      requires Valid()
      ensures done <==> Remaining() == []
    {
      done := bucket == table.numBuckets;
    }

    method Item() returns (item: T)
      requires Valid() && Remaining() != []
      ensures item == Remaining()[0]
    {
      item := table.buckets[bucket][pos];
    }

    method Next()
      requires Valid() && Remaining() != []
      modifies this
      ensures Valid() && Remaining() == old(Remaining())[1..]
    {
      ghost var bs, b := table.buckets[..], bucket;
      if pos + 1 < |table.buckets[bucket]| {
        WithinBucket(bs, bucket, pos);
        pos := pos + 1;
      } else {
        pos := 0;
        bucket := table.FindNextFullBucket(bucket + 1);
        EndOfBucket(bs, b, bucket);
      }
    }
  }
}

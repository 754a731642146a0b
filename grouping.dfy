/**
 * The store's `$group` stage over Readings, as the aggregation endpoints use
 * it: one bucket per (sensor id, time bucket) key, accumulating `$sum` of the
 * counts, `$sum: 1`, `$min` and `$max`.
 */
module Grouping {
  import opened Calendar
  import opened Readings
  import opened Sums

  /** The time bucket that is part of the grouping key; `PerSensor` groups by sensor id alone. */
  datatype Granularity = PerMinute | PerHour | PerDay | PerSensor

  function BucketIndex(g: Granularity, t: int): int
  {
    match g
    case PerMinute => MinuteOf(t)
    case PerHour => HourOf(t)
    case PerDay => DayOf(t)
    case PerSensor => 0
  }

  /** A grouping key: the sensor id and the epoch index of the time bucket. */
  datatype Key = Key(sensorId: string, index: int)

  function KeyOf(g: Granularity, r: Reading): Key
  {
    Key(r.sensorId, BucketIndex(g, r.timestamp))
  }

  /** The counts of the readings of `s` that fall under key `k`, in store order. */
  function CountsOf(s: seq<Reading>, g: Granularity, k: Key): seq<int>
  {
    if s == [] then []
    else CountsOf(s[..|s| - 1], g, k) + (if KeyOf(g, s[|s| - 1]) == k then [s[|s| - 1].count] else [])
  }

  /** The keys that occur among the readings of `s`. */
  function ReadingKeys(s: seq<Reading>, g: Granularity): set<Key>
  {
    set r | r in s :: KeyOf(g, r)
  }

  lemma CountsOfSnoc(s: seq<Reading>, r: Reading, g: Granularity, k: Key)
    ensures CountsOf(s + [r], g, k) == CountsOf(s, g, k) + (if KeyOf(g, r) == k then [r.count] else [])
  {
    assert (s + [r])[..|s|] == s;
  }

  /** A key has no counts exactly when no reading falls under it. */
  lemma {:induction false} CountsOfEmpty(s: seq<Reading>, g: Granularity, k: Key)
    ensures CountsOf(s, g, k) == [] <==> k !in ReadingKeys(s, g)
  {
    if s != [] {
      var init, last := s[..|s| - 1], s[|s| - 1];
      assert s == init + [last];
      assert ReadingKeys(s, g) == ReadingKeys(init, g) + {KeyOf(g, last)};
      CountsOfEmpty(init, g, k);
    }
  }

  /** A count as a term of `$sum`. */
  function Itself(c: int): int
  {
    c
  }

  /** One output document of `$group`: its key and its accumulators. */
  datatype Bucket = Bucket(key: Key, total: int, points: nat, min: int, max: int)

  function Total(b: Bucket): int
  {
    b.total
  }

  function Points(b: Bucket): int
  {
    b.points
  }

  /** Feeds one more count into a bucket's accumulators. */
  function Extend(b: Bucket, c: int): Bucket
  {
    Bucket(b.key, b.total + c, b.points + 1, if c < b.min then c else b.min, if c > b.max then c else b.max)
  }

  /**
   * The accumulators of a bucket that received the counts `cs`: their sum,
   * their number, their least and their greatest value.
   */
  function Stats(k: Key, cs: seq<int>): (b: Bucket)
    requires cs != []
    ensures b.key == k && b.points == |cs| && b.total == SumOf(cs, Itself)
    ensures forall i :: 0 <= i < |cs| ==> b.min <= cs[i] <= b.max
    ensures b.min in cs && b.max in cs
  {
    if |cs| == 1 then
      assert cs[1..] == [];
      Bucket(k, cs[0], 1, cs[0], cs[0])
    else
      var init, c := cs[..|cs| - 1], cs[|cs| - 1];
      assert cs == init + [c];
      assert [c][1..] == [];
      SumOfAppend(init, [c], Itself);
      Extend(Stats(k, init), c)
  }

  /** A sum of `|cs|` terms, each within [lo, hi], lies within [lo * |cs|, hi * |cs|]. */
  lemma {:induction false} SumBounds(cs: seq<int>, lo: int, hi: int)
    requires forall i :: 0 <= i < |cs| ==> lo <= cs[i] <= hi
    ensures lo * |cs| <= SumOf(cs, Itself) <= hi * |cs|
  {
    if cs != [] {
      assert forall i :: 0 <= i < |cs[1..]| ==> cs[1..][i] == cs[i + 1];
      SumBounds(cs[1..], lo, hi);
      assert lo * |cs| == lo + lo * (|cs| - 1);
      assert hi * |cs| == hi + hi * (|cs| - 1);
    }
  }

  /** A bucket's total lies between its points times its minimum and its points times its maximum. */
  lemma StatsBounds(k: Key, cs: seq<int>)
    requires cs != []
    ensures var b := Stats(k, cs); b.min * b.points <= b.total <= b.max * b.points
  {
    var b := Stats(k, cs);
    SumBounds(cs, b.min, b.max);
  }

  lemma StatsSnoc(k: Key, cs: seq<int>, c: int)
    requires cs != []
    ensures Stats(k, cs + [c]) == Extend(Stats(k, cs), c)
  {
    assert (cs + [c])[..|cs|] == cs;
  }

  /** No two buckets share a key. */
  predicate DistinctKeys(bs: seq<Bucket>)
  {
    forall i, j :: 0 <= i < j < |bs| ==> bs[i].key != bs[j].key
  }

  function KeySet(bs: seq<Bucket>): set<Key>
  {
    set b | b in bs :: b.key
  }

  /** A sequence with distinct keys holds any bucket at most once. */
  lemma {:induction false} DistinctOnce(bs: seq<Bucket>, x: Bucket)
    requires DistinctKeys(bs)
    ensures multiset(bs)[x] <= 1
  {
    if bs != [] {
      var rest := bs[1..];
      assert bs == [bs[0]] + rest;
      assert forall j :: 0 <= j < |rest| ==> rest[j] == bs[j + 1];
      DistinctOnce(rest, x);
      if bs[0] == x {
        forall j | 0 <= j < |rest| ensures rest[j] != x {
          assert bs[0].key != bs[j + 1].key;
        }
      }
    }
  }

  /** A bucket occurring at two positions is counted twice. */
  lemma CountAtTwo(b: seq<Bucket>, i: int, j: int)
    requires 0 <= i < j < |b|
    ensures multiset(b)[b[i]] >= if b[i] == b[j] then 2 else 1
  {
    assert b == b[..j] + b[j..];
    assert b[i] == b[..j][i];
    assert b[j] == b[j..][0];
  }

  /** Reordering the output of `$group` keeps its keys distinct. */
  lemma PermutedDistinct(a: seq<Bucket>, b: seq<Bucket>)
    requires multiset(a) == multiset(b) && DistinctKeys(a)
    ensures DistinctKeys(b)
  {
    forall i, j | 0 <= i < j < |b| ensures b[i].key != b[j].key {
      DistinctOnce(a, b[i]);
      CountAtTwo(b, i, j);
      assert b[i] != b[j];
      assert b[i] in multiset(a) && b[j] in multiset(a);
      var p :| 0 <= p < |a| && a[p] == b[i];
      var q :| 0 <= q < |a| && a[q] == b[j];
      assert p != q;
    }
  }

  /** Reordering exact buckets with distinct keys keeps them exact and distinct, with the same keys and totals. */
  lemma PermutedBuckets(a: seq<Bucket>, b: seq<Bucket>, s: seq<Reading>, g: Granularity)
    requires multiset(a) == multiset(b) && DistinctKeys(a) && Exact(a, s, g)
    ensures DistinctKeys(b)
    ensures forall x :: x in b ==> ExactAt(x, s, g)
    ensures KeySet(b) == KeySet(a)
    ensures SumOf(b, Total) == SumOf(a, Total) && SumOf(b, Points) == SumOf(a, Points)
  {
    PermutedDistinct(a, b);
    SumOfPermutation(a, b, Total);
    SumOfPermutation(a, b, Points);
    SameMembers(a, b);
    forall x | x in b ensures ExactAt(x, s, g) {
      var i :| 0 <= i < |a| && a[i] == x;
    }
  }

  /** Permutations of each other hold the same buckets. */
  lemma SameMembers(a: seq<Bucket>, b: seq<Bucket>)
    requires multiset(a) == multiset(b)
    ensures forall x :: x in b <==> x in a
    ensures KeySet(b) == KeySet(a)
  {
    forall x ensures x in b <==> x in a {
      assert x in b <==> x in multiset(b);
      assert x in a <==> x in multiset(a);
    }
  }

  /** With distinct keys there are as many buckets as keys. */
  lemma {:induction false} DistinctKeysCount(bs: seq<Bucket>)
    requires DistinctKeys(bs)
    ensures |KeySet(bs)| == |bs|
  {
    if bs != [] {
      KeysCons(bs);
      DistinctKeysCount(bs[1..]);
    }
  }

  /** The first bucket's key is new to the rest, which keep distinct keys. */
  lemma KeysCons(bs: seq<Bucket>)
    requires bs != [] && DistinctKeys(bs)
    ensures DistinctKeys(bs[1..])
    ensures KeySet(bs) == {bs[0].key} + KeySet(bs[1..])
    ensures bs[0].key !in KeySet(bs[1..])
  {
    var tail := bs[1..];
    assert bs == [bs[0]] + tail;
    forall i, j | 0 <= i < j < |tail| ensures tail[i].key != tail[j].key {
      assert tail[i] == bs[i + 1] && tail[j] == bs[j + 1];
    }
    forall b | b in tail ensures b.key != bs[0].key {
      var j :| 0 <= j < |tail| && tail[j] == b;
      assert b == bs[j + 1];
    }
  }

  /** Every bucket holds exactly the accumulators of the counts of the readings of `s` under its key. */
  predicate Exact(bs: seq<Bucket>, s: seq<Reading>, g: Granularity)
  {
    forall i :: 0 <= i < |bs| ==> ExactAt(bs[i], s, g)
  }

  predicate ExactAt(b: Bucket, s: seq<Reading>, g: Granularity)
  {
    CountsOf(s, g, b.key) != [] && b == Stats(b.key, CountsOf(s, g, b.key))
  }

  /** A bucket under another key than the new reading's stays exact. */
  lemma ExactAtSnoc(b: Bucket, s: seq<Reading>, g: Granularity, r: Reading)
    requires ExactAt(b, s, g) && b.key != KeyOf(g, r)
    ensures ExactAt(b, s + [r], g)
  {
    CountsOfSnoc(s, r, g, b.key);
    assert CountsOf(s + [r], g, b.key) == CountsOf(s, g, b.key) + [];
    assert CountsOf(s, g, b.key) + [] == CountsOf(s, g, b.key);
  }

  /** Feeds the count `c` of a reading with key `k` into its bucket, opening the bucket if it is new. */
  function Accumulate(bs: seq<Bucket>, k: Key, c: int): (r: seq<Bucket>)
    requires DistinctKeys(bs)
    ensures DistinctKeys(r)
    ensures KeySet(r) == KeySet(bs) + {k}
    ensures SumOf(r, Total) == SumOf(bs, Total) + c
    ensures SumOf(r, Points) == SumOf(bs, Points) + 1
  {
    if bs == [] then [Stats(k, [c])]
    else if bs[0].key == k then
      KeysCons(bs);
      ConsKeys(Extend(bs[0], c), bs[1..]);
      [Extend(bs[0], c)] + bs[1..]
    else
      KeysCons(bs);
      var rest := Accumulate(bs[1..], k, c);
      ConsKeys(bs[0], rest);
      [bs[0]] + rest
  }

  /** A bucket under a key new to `rest`, put in front of it. */
  lemma ConsKeys(b: Bucket, rest: seq<Bucket>)
    requires DistinctKeys(rest) && b.key !in KeySet(rest)
    ensures DistinctKeys([b] + rest)
    ensures KeySet([b] + rest) == {b.key} + KeySet(rest)
    ensures ([b] + rest)[1..] == rest
  {
    var r := [b] + rest;
    assert r[1..] == rest;
    forall i, j | 0 <= i < j < |r| ensures r[i].key != r[j].key {
      assert r[j] == rest[j - 1];
      if i > 0 {
        assert r[i] == rest[i - 1];
      }
    }
  }

  /** Accumulating a reading keeps every bucket exact for the store extended by that reading. */
  lemma {:induction false} AccumulateExact(bs: seq<Bucket>, s: seq<Reading>, g: Granularity, r: Reading)
    requires DistinctKeys(bs) && Exact(bs, s, g)
    requires KeyOf(g, r) !in KeySet(bs) ==> CountsOf(s, g, KeyOf(g, r)) == []
    ensures Exact(Accumulate(bs, KeyOf(g, r), r.count), s + [r], g)
    decreases |bs|, 1
  {
    if bs == [] {
      FirstBucketExact(s, g, r);
    } else if bs[0].key == KeyOf(g, r) {
      HitBucketExact(bs, s, g, r);
    } else {
      MissBucketExact(bs, s, g, r);
    }
  }

  /** A reading under another key than the first bucket's leaves that bucket alone and goes on to the rest. */
  lemma {:induction false} MissBucketExact(bs: seq<Bucket>, s: seq<Reading>, g: Granularity, r: Reading)
    requires bs != [] && bs[0].key != KeyOf(g, r)
    requires DistinctKeys(bs) && Exact(bs, s, g)
    requires KeyOf(g, r) !in KeySet(bs) ==> CountsOf(s, g, KeyOf(g, r)) == []
    ensures Exact(Accumulate(bs, KeyOf(g, r), r.count), s + [r], g)
    decreases |bs|, 0
  {
    var k, c := KeyOf(g, r), r.count;
    TailFacts(bs, s, g);
    AccumulateExact(bs[1..], s, g, r);
    ExactAtSnoc(bs[0], s, g, r);
    assert Accumulate(bs, k, c) == [bs[0]] + Accumulate(bs[1..], k, c);
    ConsExact(bs[0], Accumulate(bs[1..], k, c), s + [r], g);
  }

  /** What the buckets after the first inherit from all of them. */
  lemma TailFacts(bs: seq<Bucket>, s: seq<Reading>, g: Granularity)
    requires bs != [] && DistinctKeys(bs) && Exact(bs, s, g)
    ensures DistinctKeys(bs[1..]) && Exact(bs[1..], s, g) && ExactAt(bs[0], s, g)
    ensures KeySet(bs) == {bs[0].key} + KeySet(bs[1..])
  {
    KeysCons(bs);
    var tail := bs[1..];
    forall i | 0 <= i < |tail| ensures ExactAt(tail[i], s, g) {
      assert tail[i] == bs[i + 1];
    }
  }

  /** An exact bucket in front of exact buckets. */
  lemma ConsExact(b: Bucket, rest: seq<Bucket>, s: seq<Reading>, g: Granularity)
    requires ExactAt(b, s, g) && Exact(rest, s, g)
    ensures Exact([b] + rest, s, g)
  {
    var all := [b] + rest;
    forall i | 0 <= i < |all| ensures ExactAt(all[i], s, g) {
      if i > 0 {
        assert all[i] == rest[i - 1];
      }
    }
  }

  /** A reading under a key no earlier reading had opens an exact bucket of its own. */
  lemma FirstBucketExact(s: seq<Reading>, g: Granularity, r: Reading)
    requires CountsOf(s, g, KeyOf(g, r)) == []
    ensures ExactAt(Stats(KeyOf(g, r), [r.count]), s + [r], g)
  {
    var k := KeyOf(g, r);
    CountsOfSnoc(s, r, g, k);
    assert CountsOf(s + [r], g, k) == [] + [r.count];
    assert [] + [r.count] == [r.count];
  }

  /** A reading under the first bucket's key extends that bucket and leaves the others exact. */
  lemma HitBucketExact(bs: seq<Bucket>, s: seq<Reading>, g: Granularity, r: Reading)
    requires bs != [] && bs[0].key == KeyOf(g, r)
    requires DistinctKeys(bs) && Exact(bs, s, g)
    ensures Exact(Accumulate(bs, KeyOf(g, r), r.count), s + [r], g)
  {
    var k, c := KeyOf(g, r), r.count;
    var result := Accumulate(bs, k, c);
    assert result == [Extend(bs[0], c)] + bs[1..];
    assert ExactAt(bs[0], s, g);
    CountsOfSnoc(s, r, g, k);
    StatsSnoc(k, CountsOf(s, g, k), c);
    assert ExactAt(result[0], s + [r], g);
    forall i | 1 <= i < |result| ensures ExactAt(result[i], s + [r], g) {
      assert result[i] == bs[i] && ExactAt(bs[i], s, g);
      ExactAtSnoc(bs[i], s, g, r);
    }
  }

  /**
   * The `$group` stage: buckets in order of the first reading under each key,
   * one per key that occurs, each exact; together they hold every count once.
   */
  function Group(s: seq<Reading>, g: Granularity): (r: seq<Bucket>)
    ensures DistinctKeys(r)
    ensures KeySet(r) == ReadingKeys(s, g)
    ensures Exact(r, s, g)
    ensures SumOf(r, Total) == SumOf(s, CountOf)
    ensures SumOf(r, Points) == |s|
  {
    if s == [] then []
    else
      var prev := Group(s[..|s| - 1], g);
      GroupStep(s, g, prev);
      Accumulate(prev, KeyOf(g, s[|s| - 1]), s[|s| - 1].count)
  }

  /** Accumulating the last reading into the buckets of the others yields the buckets of all. */
  lemma GroupStep(s: seq<Reading>, g: Granularity, prev: seq<Bucket>)
    requires s != []
    requires DistinctKeys(prev) && Exact(prev, s[..|s| - 1], g)
    requires KeySet(prev) == ReadingKeys(s[..|s| - 1], g)
    requires SumOf(prev, Total) == SumOf(s[..|s| - 1], CountOf)
    ensures var r := Accumulate(prev, KeyOf(g, s[|s| - 1]), s[|s| - 1].count);
      && KeySet(r) == ReadingKeys(s, g)
      && Exact(r, s, g)
      && SumOf(r, Total) == SumOf(s, CountOf)
  {
    var init, last := s[..|s| - 1], s[|s| - 1];
    assert s == init + [last];
    LastReadingKey(s, g);
    CountsOfEmpty(init, g, KeyOf(g, last));
    AccumulateExact(prev, init, g, last);
    LastReadingCount(s);
  }

  lemma LastReadingKey(s: seq<Reading>, g: Granularity)
    requires s != []
    ensures ReadingKeys(s, g) == ReadingKeys(s[..|s| - 1], g) + {KeyOf(g, s[|s| - 1])}
  {
    assert s == s[..|s| - 1] + [s[|s| - 1]];
  }

  lemma LastReadingCount(s: seq<Reading>)
    requires s != []
    ensures SumOf(s, CountOf) == SumOf(s[..|s| - 1], CountOf) + s[|s| - 1].count
  {
    assert s == s[..|s| - 1] + [s[|s| - 1]];
    SumOfAppend(s[..|s| - 1], [s[|s| - 1]], CountOf);
  }
}

/**
 * A JavaScript object used as a counter, `t[k] = (t[k] || 0) + 1`: its keys
 * in insertion order and the count stored under each key.
 */
module Tally {

  datatype Tally<K> = Tally(keys: seq<K>, counts: map<K, nat>)

  /** Keys are listed once each, the listed keys are the stored ones, and
      every stored count is at least one. */
  ghost predicate Valid<K(!new)>(t: Tally<K>) {
    (forall i, j :: 0 <= i < j < |t.keys| ==> t.keys[i] != t.keys[j]) &&
    (forall k :: k in t.counts <==> k in t.keys) &&
    (forall k :: k in t.counts ==> t.counts[k] >= 1)
  }

  /** `t[k] || 0` */
  function CountOf<K(!new)>(t: Tally<K>, k: K): nat {
    if k in t.counts then t.counts[k] else 0
  }

  /** `t[k] = (t[k] || 0) + 1`: a new key goes to the end of the key order. */
  function Bump<K(!new)>(t: Tally<K>, k: K): (r: Tally<K>)
    requires Valid(t)
    ensures Valid(r)
  {
    if k in t.counts then Tally(t.keys, t.counts[k := t.counts[k] + 1])
    else Tally(t.keys + [k], t.counts[k := 1])
  }

  lemma BumpCounts<K(!new)>(t: Tally<K>, k: K)
    requires Valid(t)
    ensures CountOf(Bump(t, k), k) == CountOf(t, k) + 1
    ensures forall j :: j != k ==> CountOf(Bump(t, k), j) == CountOf(t, j)
  {
  }

  /** The sum of `counts` over the listed keys. */
  function SumOver<K(!new)>(keys: seq<K>, counts: map<K, nat>): nat
    decreases |keys|
  {
    if keys == [] then 0
    else SumOver(keys[..|keys| - 1], counts) + (if keys[|keys| - 1] in counts then counts[keys[|keys| - 1]] else 0)
  }

  /** The sum of all stored counts. */
  function Total<K(!new)>(t: Tally<K>): nat {
    SumOver(t.keys, t.counts)
  }

  lemma {:induction false} SumOverUnaffected<K(!new)>(keys: seq<K>, counts: map<K, nat>, k: K, v: nat)
    requires k !in keys
    ensures SumOver(keys, counts[k := v]) == SumOver(keys, counts)
    decreases |keys|
  {
    if keys != [] {
      SumOverUnaffected(keys[..|keys| - 1], counts, k, v);
    }
  }

  lemma {:induction false} SumOverIncrement<K(!new)>(keys: seq<K>, counts: map<K, nat>, k: K)
    requires k in counts
    requires forall i, j :: 0 <= i < j < |keys| ==> keys[i] != keys[j]
    requires k in keys
    ensures SumOver(keys, counts[k := counts[k] + 1]) == SumOver(keys, counts) + 1
    decreases |keys|
  {
    var init := keys[..|keys| - 1];
    if keys[|keys| - 1] == k {
      assert k !in init;
      SumOverUnaffected(init, counts, k, counts[k] + 1);
    } else {
      assert k in init;
      SumOverIncrement(init, counts, k);
    }
  }

  lemma BumpTotal<K(!new)>(t: Tally<K>, k: K)
    requires Valid(t)
    ensures Total(Bump(t, k)) == Total(t) + 1
  {
    if k in t.counts {
      assert k in t.keys;
      SumOverIncrement(t.keys, t.counts, k);
    } else {
      assert k !in t.keys;
      var ks, m := t.keys + [k], t.counts[k := 1];
      assert ks[..|ks| - 1] == t.keys;
      assert SumOver(ks, m) == SumOver(t.keys, m) + 1;
      SumOverUnaffected(t.keys, t.counts, k, 1);
    }
  }

  /** The counter after counting every element of `ks`, left to right. */
  function TallyOf<K(!new)>(ks: seq<K>): (t: Tally<K>)
    ensures Valid(t)
    decreases |ks|
  {
    if ks == [] then Tally([], map[]) else Bump(TallyOf(ks[..|ks| - 1]), ks[|ks| - 1])
  }

  lemma TallyOfSnoc<K(!new)>(ks: seq<K>, k: K)
    ensures TallyOf(ks + [k]) == Bump(TallyOf(ks), k)
  {
    assert (ks + [k])[..|ks|] == ks;
  }

  /** Counting a sequence stores, under each key, how often it occurs. */
  lemma {:induction false} TallyOfCounts<K(!new)>(ks: seq<K>)
    ensures forall k :: CountOf(TallyOf(ks), k) == multiset(ks)[k]
    decreases |ks|
  {
    if ks != [] {
      var init, last := ks[..|ks| - 1], ks[|ks| - 1];
      TallyOfCounts(init);
      assert ks == init + [last];
      BumpCounts(TallyOf(init), last);
      forall k ensures CountOf(TallyOf(ks), k) == multiset(ks)[k] {
        assert multiset(ks)[k] == multiset(init)[k] + multiset([last])[k];
      }
    }
  }

  /** Only elements of the counted sequence become keys. */
  lemma {:induction false} TallyOfKeys<K(!new)>(ks: seq<K>)
    ensures forall k :: k in TallyOf(ks).counts ==> k in ks
    decreases |ks|
  {
    if ks != [] {
      var init := ks[..|ks| - 1];
      TallyOfKeys(init);
      BumpCounts(TallyOf(init), ks[|ks| - 1]);
      forall k | k in TallyOf(ks).counts ensures k in ks {
        if k != ks[|ks| - 1] {
          assert CountOf(TallyOf(ks), k) == CountOf(TallyOf(init), k);
          assert k in init;
        }
      }
    }
  }

  /** The counts add up to the length of the counted sequence. */
  lemma {:induction false} TallyOfTotal<K(!new)>(ks: seq<K>)
    ensures Total(TallyOf(ks)) == |ks|
    decreases |ks|
  {
    if ks != [] {
      var init := ks[..|ks| - 1];
      TallyOfTotal(init);
      BumpTotal(TallyOf(init), ks[|ks| - 1]);
    }
  }

  lemma {:induction false} TallyOfAppend<K(!new)>(a: seq<K>, b: seq<K>)
    ensures forall k :: CountOf(TallyOf(a + b), k) == CountOf(TallyOf(a), k) + CountOf(TallyOf(b), k)
  {
    TallyOfCounts(a);
    TallyOfCounts(b);
    TallyOfCounts(a + b);
  }
}

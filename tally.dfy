/**
 * A plain object used as a counter, `map[k] = (map[k] || 0) + 1`, read back
 * with `Object.entries(map)`. It is kept as the list of its entries in
 * insertion order, which is the order `Object.entries` reports.
 */
module Tally {
  import Lists

  datatype Entry = Entry(key: string, count: nat)

  type Counter = seq<Entry>

  function Keys(t: Counter): seq<string> {
    seq(|t|, i requires 0 <= i < |t| => t[i].key)
  }

  ghost predicate KeysDistinct(t: Counter) {
    Lists.NoDuplicates(Keys(t))
  }

  /** `map[k] || 0`. */
  function Get(t: Counter, k: string): nat
    decreases |t|
  {
    if |t| == 0 then 0 else if t[0].key == k then t[0].count else Get(t[1..], k)
  }

  /** `map[k] = v`: an existing key keeps its place, a new key goes last. */
  function Put(t: Counter, k: string, v: nat): Counter
    decreases |t|
  {
    if |t| == 0 then [Entry(k, v)]
    else if t[0].key == k then [Entry(k, v)] + t[1..]
    else [t[0]] + Put(t[1..], k, v)
  }

  /** `map[k] = (map[k] || 0) + 1`. */
  function Bump(t: Counter, k: string): Counter {
    Put(t, k, Get(t, k) + 1)
  }

  /** The sum of all counts. */
  function Total(t: Counter): nat
    decreases |t|
  {
    if |t| == 0 then 0 else t[0].count + Total(t[1..])
  }

  /** Counting every key of `ks`, in order, into `t`. */
  function Tabulate(t: Counter, ks: seq<string>): Counter
    decreases |ks|
  {
    if |ks| == 0 then t else Bump(Tabulate(t, ks[..|ks| - 1]), ks[|ks| - 1])
  }

  /** `Put` sets the count of `k` and of no other key. */
  lemma {:induction false} PutGet(t: Counter, k: string, v: nat, j: string)
    ensures Get(Put(t, k, v), j) == if j == k then v else Get(t, j)
    decreases |t|
  {
    if |t| > 0 && t[0].key != k {
      PutGet(t[1..], k, v, j);
    }
  }

  /** `Put` moves the total by the change of the one count. */
  lemma {:induction false} PutTotal(t: Counter, k: string, v: nat)
    ensures Total(Put(t, k, v)) + Get(t, k) == Total(t) + v
    decreases |t|
  {
    if |t| > 0 && t[0].key != k {
      PutTotal(t[1..], k, v);
    }
  }

  /** Old keys keep their order; a new key is appended. */
  lemma {:induction false} PutKeys(t: Counter, k: string, v: nat)
    ensures Keys(Put(t, k, v)) == if k in Keys(t) then Keys(t) else Keys(t) + [k]
    decreases |t|
  {
    var r := Put(t, k, v);
    if |t| > 0 {
      assert Keys(t) == [t[0].key] + Keys(t[1..]);
      if t[0].key != k {
        PutKeys(t[1..], k, v);
        assert Keys(r) == [t[0].key] + Keys(Put(t[1..], k, v));
      } else {
        assert Keys(r) == [k] + Keys(t[1..]);
      }
    }
  }

  lemma PutDistinct(t: Counter, k: string, v: nat)
    requires KeysDistinct(t)
    ensures KeysDistinct(Put(t, k, v))
  {
    PutKeys(t, k, v);
  }

  /** Counting adds to each key the number of times it occurs. */
  lemma {:induction false} TabulateGet(t: Counter, ks: seq<string>, k: string)
    ensures Get(Tabulate(t, ks), k) == Get(t, k) + multiset(ks)[k]
    decreases |ks|
  {
    if |ks| > 0 {
      var n := |ks| - 1;
      var before := Tabulate(t, ks[..n]);
      TabulateGet(t, ks[..n], k);
      PutGet(before, ks[n], Get(before, ks[n]) + 1, k);
      assert ks == ks[..n] + [ks[n]];
      assert multiset(ks) == multiset(ks[..n]) + multiset{ks[n]};
    }
  }

  /** Counting adds the number of keys counted to the total. */
  lemma {:induction false} TabulateTotal(t: Counter, ks: seq<string>)
    ensures Total(Tabulate(t, ks)) == Total(t) + |ks|
    decreases |ks|
  {
    if |ks| > 0 {
      var n := |ks| - 1;
      var before := Tabulate(t, ks[..n]);
      TabulateTotal(t, ks[..n]);
      PutTotal(before, ks[n], Get(before, ks[n]) + 1);
    }
  }

  /** Counting keeps the keys free of duplicates. */
  lemma {:induction false} TabulateDistinct(t: Counter, ks: seq<string>)
    requires KeysDistinct(t)
    ensures KeysDistinct(Tabulate(t, ks))
    decreases |ks|
  {
    if |ks| > 0 {
      var n := |ks| - 1;
      var before := Tabulate(t, ks[..n]);
      TabulateDistinct(t, ks[..n]);
      assert Tabulate(t, ks) == Put(before, ks[n], Get(before, ks[n]) + 1);
      PutDistinct(before, ks[n], Get(before, ks[n]) + 1);
    }
  }

  /** A key is listed after counting exactly when it was listed before or was counted. */
  lemma {:induction false} TabulateHas(t: Counter, ks: seq<string>, k: string)
    ensures k in Keys(Tabulate(t, ks)) <==> k in Keys(t) || k in ks
    decreases |ks|
  {
    if |ks| > 0 {
      var n := |ks| - 1;
      var before := Tabulate(t, ks[..n]);
      TabulateHas(t, ks[..n], k);
      assert Tabulate(t, ks) == Put(before, ks[n], Get(before, ks[n]) + 1);
      PutKeys(before, ks[n], Get(before, ks[n]) + 1);
      assert ks == ks[..n] + [ks[n]];
    }
  }

  /** Counting lists the keys already there and the keys counted, each once. */
  lemma TabulateKeys(t: Counter, ks: seq<string>)
    ensures KeysDistinct(t) ==> KeysDistinct(Tabulate(t, ks))
    ensures forall k :: k in Keys(Tabulate(t, ks)) <==> k in Keys(t) || k in ks
  {
    if KeysDistinct(t) {
      TabulateDistinct(t, ks);
    }
    forall k ensures k in Keys(Tabulate(t, ks)) <==> k in Keys(t) || k in ks {
      TabulateHas(t, ks, k);
    }
  }

  /**
   * Counting a list of keys adds, for every key, the number of times it
   * occurs, and adds the length of the list to the total.
   */
  lemma TabulateSpec(t: Counter, ks: seq<string>)
    ensures forall k :: Get(Tabulate(t, ks), k) == Get(t, k) + multiset(ks)[k]
    ensures Total(Tabulate(t, ks)) == Total(t) + |ks|
    ensures KeysDistinct(t) ==> KeysDistinct(Tabulate(t, ks))
    ensures forall k :: k in Keys(Tabulate(t, ks)) <==> k in Keys(t) || k in ks
  {
    forall k ensures Get(Tabulate(t, ks), k) == Get(t, k) + multiset(ks)[k] {
      TabulateGet(t, ks, k);
    }
    TabulateTotal(t, ks);
    TabulateKeys(t, ks);
  }

  /** Counting into an empty object lists the keys in the order they first occur. */
  lemma {:induction false} TabulateKeysOrder(ks: seq<string>)
    ensures Keys(Tabulate([], ks)) == Lists.Distinct(ks)
    decreases |ks|
  {
    if |ks| > 0 {
      var n := |ks| - 1;
      var before := Tabulate([], ks[..n]);
      TabulateKeysOrder(ks[..n]);
      assert Tabulate([], ks) == Put(before, ks[n], Get(before, ks[n]) + 1);
      PutKeys(before, ks[n], Get(before, ks[n]) + 1);
      assert Lists.Distinct(ks)
          == if ks[n] in Lists.Distinct(ks[..n]) then Lists.Distinct(ks[..n]) else Lists.Distinct(ks[..n]) + [ks[n]];
    }
  }

  /** Setting a count never moves the keys already listed. */
  lemma PutKeepsPrefix(t: Counter, k: string, v: nat)
    ensures |Keys(t)| <= |Keys(Put(t, k, v))| && Keys(Put(t, k, v))[..|Keys(t)|] == Keys(t)
  {
    PutKeys(t, k, v);
  }

  /** Counting never moves the keys already listed. */
  lemma {:induction false} TabulateKeepsPrefix(t: Counter, ks: seq<string>)
    ensures |Keys(t)| <= |Keys(Tabulate(t, ks))|
    ensures Keys(Tabulate(t, ks))[..|Keys(t)|] == Keys(t)
    decreases |ks|
  {
    if |ks| > 0 {
      var n := |ks| - 1;
      var before := Tabulate(t, ks[..n]);
      TabulateKeepsPrefix(t, ks[..n]);
      PutKeepsPrefix(before, ks[n], Get(before, ks[n]) + 1);
      Lists.PrefixTransitive(Keys(t), Keys(before), Keys(Tabulate(t, ks)));
    }
  }
}

/** A JavaScript object used as a dictionary: an association list whose
    keys are enumerated in insertion order (`Object.entries`,
    `Object.values`). Assigning to a key that is already present replaces
    its value and keeps its position; a new key goes to the end. */
module Dict {
  import opened Wrappers
  import Seqs

  function Keys<K, V>(d: seq<(K, V)>): (ks: seq<K>)
    ensures |ks| == |d|
    ensures forall i :: 0 <= i < |d| ==> ks[i] == d[i].0
  {
    seq(|d|, i requires 0 <= i < |d| => d[i].0)
  }

  /** An entry in front puts its key in front. */
  lemma KeysCons<K, V>(e: (K, V), d: seq<(K, V)>)
    ensures Keys([e] + d) == [e.0] + Keys(d)
  {
  }

  /** One more entry adds its key at the end. */
  lemma KeysSnoc<K, V>(d: seq<(K, V)>, e: (K, V))
    ensures Keys(d + [e]) == Keys(d) + [e.0]
  {
  }

  /** `Object.values(d)`. */
  function Values<K, V>(d: seq<(K, V)>): (vs: seq<V>)
    ensures |vs| == |d|
    ensures forall i :: 0 <= i < |d| ==> vs[i] == d[i].1
  {
    seq(|d|, i requires 0 <= i < |d| => d[i].1)
  }

  /** `d[k]`, with `None` standing for `undefined`. */
  function Lookup<K(==), V>(d: seq<(K, V)>, k: K): Option<V> {
    if d == [] then None
    else if d[0].0 == k then Some(d[0].1)
    else Lookup(d[1..], k)
  }

  /** A key that is present reads the value of its first entry; any other
      key reads `undefined`. */
  lemma {:induction false} LookupFirst<K, V>(d: seq<(K, V)>, k: K)
    ensures Lookup(d, k) ==
            if k in Keys(d) then Some(d[Seqs.FirstIndex(Keys(d), k)].1) else None
  {
    if d != [] && d[0].0 != k {
      var ks, rest := Keys(d), Keys(d[1..]);
      assert rest == ks[1..];
      assert ks[0] != k;
      assert k in ks <==> k in rest;
      LookupFirst(d[1..], k);
      if k in rest {
        assert Seqs.FirstIndex(ks, k) == 1 + Seqs.FirstIndex(rest, k);
      }
    }
  }

  /** With distinct keys, every entry is what its key looks up. */
  lemma {:induction false} LookupEntry<K, V>(d: seq<(K, V)>, i: nat)
    requires Seqs.NoDup(Keys(d))
    requires i < |d|
    ensures Lookup(d, d[i].0) == Some(d[i].1)
  {
    if i > 0 {
      assert Keys(d)[0] != Keys(d)[i];
      assert Keys(d[1..]) == Keys(d)[1..];
      LookupEntry(d[1..], i - 1);
    }
  }

  /** `d[k] = v`: an existing key keeps its position, a new one goes last. */
  function Put<K(==), V>(d: seq<(K, V)>, k: K, v: V): (r: seq<(K, V)>)
    ensures Keys(r) == if k in Keys(d) then Keys(d) else Keys(d) + [k]
  {
    if d == [] then [(k, v)]
    else if d[0].0 == k then
      var r := [(k, v)] + d[1..];
      assert Keys(r) == Keys(d);
      r
    else
      var rest := Put(d[1..], k, v);
      KeysTail(d, k, rest);
      [d[0]] + rest
  }

  /** The key bookkeeping shared by `Put` and `Increment` when the first
      entry is kept and the rest is updated. */
  lemma KeysTail<K, V>(d: seq<(K, V)>, k: K, rest: seq<(K, V)>)
    requires d != [] && d[0].0 != k
    requires Keys(rest) == if k in Keys(d[1..]) then Keys(d[1..]) else Keys(d[1..]) + [k]
    ensures Keys([d[0]] + rest) == if k in Keys(d) then Keys(d) else Keys(d) + [k]
  {
    assert [d[0]] + d[1..] == d;
    KeysCons(d[0], d[1..]);
    KeysCons(d[0], rest);
    Seqs.AppendAssoc([d[0].0], Keys(d[1..]), [k]);
  }

  /** After `d[k] = v`, `k` reads `v` and every other key reads as before. */
  lemma {:induction false} PutLookup<K, V>(d: seq<(K, V)>, k: K, v: V, k': K)
    ensures Lookup(Put(d, k, v), k') == if k' == k then Some(v) else Lookup(d, k')
  {
    if d != [] && d[0].0 != k {
      PutLookup(d[1..], k, v, k');
      assert ([d[0]] + Put(d[1..], k, v))[1..] == Put(d[1..], k, v);
    } else if d != [] {
      assert ([(k, v)] + d[1..])[1..] == d[1..];
    }
  }

  /** Insertion keeps the keys distinct. */
  lemma PutKeepsKeysDistinct<K, V>(d: seq<(K, V)>, k: K, v: V)
    requires Seqs.NoDup(Keys(d))
    ensures Seqs.NoDup(Keys(Put(d, k, v)))
  {
  }

  /** `d[k] = (d[k] || 0) + 1`: the tally step, `Put` with one more than
      the key's current count. */
  function Increment<K(==)>(d: seq<(K, int)>, k: K): (r: seq<(K, int)>)
    ensures Keys(r) == if k in Keys(d) then Keys(d) else Keys(d) + [k]
  {
    if d == [] then [(k, 1)]
    else if d[0].0 == k then
      var r := [(k, d[0].1 + 1)] + d[1..];
      assert Keys(r) == Keys(d);
      r
    else
      var rest := Increment(d[1..], k);
      KeysTail(d, k, rest);
      [d[0]] + rest
  }

  /** The tally step is the assignment of the incremented count. */
  lemma {:induction false} IncrementIsPut<K>(d: seq<(K, int)>, k: K)
    ensures Increment(d, k) == Put(d, k, Lookup(d, k).GetOr(0) + 1)
  {
    if d == [] {
    } else if d[0].0 == k {
      assert Lookup(d, k) == Some(d[0].1);
    } else {
      var v := Lookup(d, k).GetOr(0) + 1;
      assert Lookup(d, k) == Lookup(d[1..], k);
      IncrementIsPut(d[1..], k);
      assert Increment(d, k) == [d[0]] + Increment(d[1..], k);
      assert Put(d, k, v) == [d[0]] + Put(d[1..], k, v);
    }
  }

  /** After the tally step `k` reads one more than before (an absent key
      counting as zero) and every other key reads as before. */
  lemma {:induction false} IncrementLookup<K>(d: seq<(K, int)>, k: K, k': K)
    ensures Lookup(Increment(d, k), k') ==
            if k' == k then Some(Lookup(d, k).GetOr(0) + 1) else Lookup(d, k')
  {
    IncrementIsPut(d, k);
    PutLookup(d, k, Lookup(d, k).GetOr(0) + 1, k');
  }

  function SumValues<K>(d: seq<(K, int)>): int {
    if d == [] then 0 else d[0].1 + SumValues(d[1..])
  }

  /** Each tally step adds exactly one to the sum of all counts. */
  lemma {:induction false} IncrementAddsOne<K>(d: seq<(K, int)>, k: K)
    ensures SumValues(Increment(d, k)) == SumValues(d) + 1
  {
    if d == [] {
    } else if d[0].0 == k {
      var r := Increment(d, k);
      assert r == [(k, d[0].1 + 1)] + d[1..];
      assert r[1..] == d[1..];
    } else {
      var r := Increment(d, k);
      assert Lookup(d, k) == Lookup(d[1..], k);
      assert r == [d[0]] + Increment(d[1..], k);
      assert r[1..] == Increment(d[1..], k);
      IncrementAddsOne(d[1..], k);
    }
  }

  /** The entries assigned one after another, `d[k] = v` for each in turn,
      starting from `{}`. */
  function StoreAll<K(==), V>(entries: seq<(K, V)>): seq<(K, V)> {
    if entries == [] then []
    else Put(StoreAll(entries[..|entries| - 1]), entries[|entries| - 1].0, entries[|entries| - 1].1)
  }

  /** One assignment more. */
  lemma StoreAllSnoc<K, V>(entries: seq<(K, V)>, i: nat)
    requires i < |entries|
    ensures StoreAll(entries[..i + 1]) == Put(StoreAll(entries[..i]), entries[i].0, entries[i].1)
  {
    assert entries[..i + 1][..i] == entries[..i];
  }

  /** The keys end up in the order each first occurs, each once. */
  lemma {:induction false} StoreAllKeys<K(!new), V>(entries: seq<(K, V)>)
    ensures Keys(StoreAll(entries)) == Seqs.Dedup(Keys(entries))
    decreases |entries|
  {
    if entries != [] {
      var init := entries[..|entries| - 1];
      StoreAllKeys(init);
      assert Keys(entries)[..|entries| - 1] == Keys(init);
    }
  }

  /** A key holds the value of its last assignment. */
  lemma {:induction false} StoreAllLookup<K, V>(entries: seq<(K, V)>, k: K)
    ensures Lookup(StoreAll(entries), k) ==
            if k in Keys(entries) then Some(entries[Seqs.LastIndex(Keys(entries), k)].1) else None
    decreases |entries|
  {
    if entries != [] {
      var init := entries[..|entries| - 1];
      var last := entries[|entries| - 1];
      assert Keys(entries) == Keys(init) + [last.0];
      Seqs.LastIndexSnoc(Keys(init), last.0, k);
      var prev := StoreAll(init);
      assert StoreAll(entries) == Put(prev, last.0, last.1);
      PutLookup(prev, last.0, last.1, k);
      if k != last.0 {
        StoreAllLookup(init, k);
      }
    }
  }

  /** Assigning a key that is not present appends the entry. */
  lemma PutAppends<K, V>(d: seq<(K, V)>, k: K, v: V)
    requires k !in Keys(d)
    ensures Put(d, k, v) == d + [(k, v)]
  {
    assert forall i :: 0 <= i < |d| ==> Keys(d)[i] == d[i].0;
    PutNewKey(d, k, v);
  }

  lemma {:induction false} PutNewKey<K, V>(d: seq<(K, V)>, k: K, v: V)
    requires forall i :: 0 <= i < |d| ==> d[i].0 != k
    ensures Put(d, k, v) == d + [(k, v)]
  {
    if d != [] {
      var rest := d[1..];
      assert forall i :: 0 <= i < |rest| ==> rest[i] == d[i + 1];
      PutNewKey(rest, k, v);
      assert Put(d, k, v) == [d[0]] + Put(rest, k, v);
      Seqs.AppendAssoc([d[0]], rest, [(k, v)]);
      assert [d[0]] + rest == d;
    }
  }

  /** Entries with distinct keys are stored as given. */
  lemma {:induction false} StoreAllDistinct<K(!new), V>(entries: seq<(K, V)>)
    requires Seqs.NoDup(Keys(entries))
    ensures StoreAll(entries) == entries
    decreases |entries|
  {
    if entries != [] {
      var init := entries[..|entries| - 1];
      var last := entries[|entries| - 1];
      assert init + [last] == entries;
      KeysSnoc(init, last);
      Seqs.NoDupSnoc(Keys(init), last.0);
      StoreAllDistinct(init);
      PutAppends(init, last.0, last.1);
    }
  }

  /** Counts of each value, keys in the order each value first occurs: what
      `t[k] = (t[k] || 0) + 1` builds over the stream `xs`, from `{}`. */
  function Tally<K(==)>(xs: seq<K>): seq<(K, int)> {
    if xs == [] then [] else Increment(Tally(xs[..|xs| - 1]), xs[|xs| - 1])
  }

  lemma TallySnoc<K>(xs: seq<K>, x: K)
    ensures Tally(xs + [x]) == Increment(Tally(xs), x)
  {
    assert (xs + [x])[..|xs|] == xs;
  }

  /** How many times `k` occurs in `xs`. */
  function Occurrences<K(==)>(xs: seq<K>, k: K): (n: nat)
    ensures n <= |xs|
    ensures n == 0 <==> k !in xs
  {
    if xs == [] then 0
    else
      assert xs == xs[..|xs| - 1] + [xs[|xs| - 1]];
      Occurrences(xs[..|xs| - 1], k) + (if xs[|xs| - 1] == k then 1 else 0)
  }

  /** Occurrences add up over a concatenation. */
  lemma {:induction false} OccurrencesAppend<K>(xs: seq<K>, ys: seq<K>, k: K)
    ensures Occurrences(xs + ys, k) == Occurrences(xs, k) + Occurrences(ys, k)
    decreases |ys|
  {
    if ys == [] {
      assert xs + ys == xs;
    } else {
      var init := ys[..|ys| - 1];
      assert (xs + ys)[..|xs + ys| - 1] == xs + init;
      assert (xs + ys)[|xs + ys| - 1] == ys[|ys| - 1];
      OccurrencesAppend(xs, init, k);
    }
  }

  /** Each value's count is its number of occurrences (an absent key
      counting as zero). */
  lemma {:induction false} TallyCounts<K>(xs: seq<K>, k: K)
    ensures Lookup(Tally(xs), k).GetOr(0) == Occurrences(xs, k)
    decreases |xs|
  {
    if xs != [] {
      var init := xs[..|xs| - 1];
      TallyCounts(init, k);
      IncrementLookup(Tally(init), xs[|xs| - 1], k);
    }
  }

  /** The tally's keys are the values in first-occurrence order. */
  lemma {:induction false} TallyKeys<K(!new)>(xs: seq<K>)
    ensures Keys(Tally(xs)) == Seqs.Dedup(xs)
    decreases |xs|
  {
    if xs != [] {
      TallyKeys(xs[..|xs| - 1]);
    }
  }

  /** A value is tallied exactly when it occurs. */
  lemma TallyHasKey<K(!new)>(xs: seq<K>, k: K)
    ensures Lookup(Tally(xs), k).Some? <==> k in xs
  {
    TallyKeys(xs);
    LookupFirst(Tally(xs), k);
  }

  /** Every tally step adds one, so the counts add up to the stream length. */
  lemma {:induction false} TallySum<K>(xs: seq<K>)
    ensures SumValues(Tally(xs)) == |xs|
    decreases |xs|
  {
    if xs != [] {
      TallySum(xs[..|xs| - 1]);
      IncrementAddsOne(Tally(xs[..|xs| - 1]), xs[|xs| - 1]);
    }
  }
}

/** Generic facts about sequences: duplicate-freedom and "keep the first
    occurrence" de-duplication, which is what `if (!list.includes(x)) list.push(x)`
    computes when it is run over a stream of candidates. */
module Seqs {

  /** No element occurs twice. */
  predicate NoDup<T(==)>(s: seq<T>) {
    forall i, j :: 0 <= i < j < |s| ==> s[i] != s[j]
  }

  /** A duplicate-free sequence minus its last element is still
      duplicate-free and does not hold that element. */
  lemma NoDupSnoc<T>(xs: seq<T>, x: T)
    requires NoDup(xs + [x])
    ensures NoDup(xs) && x !in xs
  {
    forall i | 0 <= i < |xs| ensures xs[i] != x {
      assert (xs + [x])[i] == xs[i] && (xs + [x])[|xs|] == x;
    }
    forall i, j | 0 <= i < j < |xs| ensures xs[i] != xs[j] {
      assert (xs + [x])[i] == xs[i] && (xs + [x])[j] == xs[j];
    }
  }

  /** Two duplicate-free sequences with no element in common concatenate
      to a duplicate-free sequence. */
  lemma NoDupAppend<T>(xs: seq<T>, ys: seq<T>)
    requires NoDup(xs) && NoDup(ys)
    requires forall x :: x in xs ==> x !in ys
    ensures NoDup(xs + ys)
  {
    forall i, j | 0 <= i < j < |xs + ys|
      ensures (xs + ys)[i] != (xs + ys)[j]
    {
      if j < |xs| {
        assert (xs + ys)[i] == xs[i] && (xs + ys)[j] == xs[j];
      } else if i >= |xs| {
        assert (xs + ys)[i] == ys[i - |xs|] && (xs + ys)[j] == ys[j - |xs|];
      } else {
        assert (xs + ys)[i] == xs[i] && (xs + ys)[j] == ys[j - |xs|];
        assert xs[i] in xs;
      }
    }
  }

  /** Concatenation regroups freely; stated once for any element type so
      that callers need not compare their sequences element by element. */
  lemma AppendAssoc<T>(a: seq<T>, b: seq<T>, c: seq<T>)
    ensures (a + b) + c == a + (b + c)
    ensures a + [] == a
  {
  }

  /** The elements of `xs`, each kept at its first occurrence, in order. */
  function Dedup<T(==, !new)>(xs: seq<T>): (d: seq<T>)
    ensures NoDup(d)
    ensures forall x :: x in d <==> x in xs
    ensures |d| <= |xs|
  {
    if xs == [] then []
    else
      var prev := Dedup(xs[..|xs| - 1]);
      var x := xs[|xs| - 1];
      assert forall y :: y in xs <==> y in xs[..|xs| - 1] || y == x;
      if x in prev then prev else prev + [x]
  }

  /** One push step: appending a candidate extends the de-duplicated list
      exactly when the candidate is new. */
  lemma DedupSnoc<T(!new)>(xs: seq<T>, x: T)
    ensures Dedup(xs + [x]) == if x in Dedup(xs) then Dedup(xs) else Dedup(xs) + [x]
  {
    assert (xs + [x])[..|xs|] == xs;
  }

  /** Candidates that were all seen already leave the list unchanged. */
  lemma {:induction false} DedupAbsorbs<T(!new)>(xs: seq<T>, ys: seq<T>)
    requires forall y :: y in ys ==> y in xs
    ensures Dedup(xs + ys) == Dedup(xs)
  {
    if ys != [] {
      var init := ys[..|ys| - 1];
      var last := ys[|ys| - 1];
      assert ys == init + [last];
      assert xs + ys == (xs + init) + [last];
      DedupAbsorbs(xs, init);
      DedupSnoc(xs + init, last);
    } else {
      assert xs + ys == xs;
    }
  }

  /** A list without duplicates is its own de-duplication. */
  lemma {:induction false} DedupOfNoDup<T(!new)>(xs: seq<T>)
    requires NoDup(xs)
    ensures Dedup(xs) == xs
  {
    if xs != [] {
      var init := xs[..|xs| - 1];
      assert NoDup(init);
      DedupOfNoDup(init);
      assert xs[|xs| - 1] !in init;
      assert init + [xs[|xs| - 1]] == xs;
    }
  }

  /** Position of the first occurrence of `x` in `xs`. */
  function FirstIndex<T(==)>(xs: seq<T>, x: T): (i: nat)
    requires x in xs
    ensures i < |xs| && xs[i] == x
    ensures forall j :: 0 <= j < i ==> xs[j] != x
  {
    if xs[0] == x then 0 else 1 + FirstIndex(xs[1..], x)
  }

  lemma {:induction false} FirstIndexSnoc<T>(xs: seq<T>, x: T, y: T)
    requires y in xs
    ensures FirstIndex(xs + [x], y) == FirstIndex(xs, y)
  {
    if xs[0] != y {
      assert (xs + [x])[1..] == xs[1..] + [x];
      FirstIndexSnoc(xs[1..], x, y);
    }
  }

  /** First-discovery order: the de-duplicated list orders its elements by
      where each first occurs in the input. */
  lemma {:induction false} DedupKeepsFirstOccurrenceOrder<T(!new)>(xs: seq<T>, i: nat, j: nat)
    requires i < j < |Dedup(xs)|
    ensures FirstIndex(xs, Dedup(xs)[i]) < FirstIndex(xs, Dedup(xs)[j])
  {
    var init := xs[..|xs| - 1];
    var x := xs[|xs| - 1];
    assert xs == init + [x];
    var d := Dedup(init);
    DedupSnoc(init, x);
    if j < |d| {
      DedupKeepsFirstOccurrenceOrder(init, i, j);
      FirstIndexSnoc(init, x, d[i]);
      FirstIndexSnoc(init, x, d[j]);
    } else {
      assert Dedup(xs)[j] == x && x !in init;
      FirstIndexSnoc(init, x, d[i]);
      var k := FirstIndex(xs, x);
      assert forall m :: 0 <= m < |init| ==> xs[m] == init[m];
      assert k == |init|;
    }
  }

  /** Position of the last occurrence of `x` in `xs`. */
  function LastIndex<T(==)>(xs: seq<T>, x: T): (i: nat)
    requires x in xs
    ensures i < |xs| && xs[i] == x
    ensures forall j :: i < j < |xs| ==> xs[j] != x
  {
    if xs[|xs| - 1] == x then |xs| - 1
    else
      assert x in xs[..|xs| - 1];
      LastIndex(xs[..|xs| - 1], x)
  }

  /** Pushing the same candidates after equal de-duplicated lists gives equal
      lists: only what was kept so far matters, not how it was reached. */
  lemma {:induction false} DedupCongruence<T(!new)>(xs1: seq<T>, xs2: seq<T>, ys: seq<T>)
    requires Dedup(xs1) == Dedup(xs2)
    ensures Dedup(xs1 + ys) == Dedup(xs2 + ys)
    decreases |ys|
  {
    if ys == [] {
      assert xs1 + ys == xs1 && xs2 + ys == xs2;
    } else {
      var init := ys[..|ys| - 1];
      var y := ys[|ys| - 1];
      assert xs1 + ys == (xs1 + init) + [y];
      assert xs2 + ys == (xs2 + init) + [y];
      DedupCongruence(xs1, xs2, init);
      DedupSnoc(xs1 + init, y);
      DedupSnoc(xs2 + init, y);
    }
  }

  /** More candidates only extend the de-duplicated list: what was kept
      stays, in the same order, at the front. */
  lemma {:induction false} DedupPrefix<T(!new)>(xs: seq<T>, ys: seq<T>)
    ensures |Dedup(xs)| <= |Dedup(xs + ys)| && Dedup(xs + ys)[..|Dedup(xs)|] == Dedup(xs)
    decreases |ys|
  {
    if ys == [] {
      assert xs + ys == xs;
    } else {
      var init := ys[..|ys| - 1];
      var y := ys[|ys| - 1];
      assert xs + ys == (xs + init) + [y];
      DedupPrefix(xs, init);
      DedupSnoc(xs + init, y);
    }
  }

  lemma LastIndexSnoc<T>(xs: seq<T>, y: T, x: T)
    ensures x == y ==> LastIndex(xs + [y], x) == |xs|
    ensures x != y ==> (x in xs + [y] <==> x in xs)
    ensures x != y && x in xs ==> LastIndex(xs + [y], x) == LastIndex(xs, x)
  {
    assert (xs + [y])[..|xs|] == xs;
  }
}

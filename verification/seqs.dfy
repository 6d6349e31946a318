/** Order-preserving sequence combinators used to state the shape of the
    list comprehensions and append-loops of the source. */
module Seqs {

  /** `[x for x in xs if p(x)]`. */
  function Filter<T>(p: T -> bool, xs: seq<T>): (r: seq<T>)
    ensures |r| <= |xs|
    ensures forall i :: 0 <= i < |r| ==> p(r[i])
    ensures forall i :: 0 <= i < |r| ==> r[i] in xs
    ensures forall i :: 0 <= i < |xs| && p(xs[i]) ==> xs[i] in r
  {
    if |xs| == 0 then [] else (if p(xs[0]) then [xs[0]] else []) + Filter(p, xs[1..])
  }

  /** `[f(x) for x in xs]`. */
  function Map<A, B>(f: A -> B, xs: seq<A>): (r: seq<B>)
    ensures |r| == |xs|
    ensures forall i :: 0 <= i < |xs| ==> r[i] == f(xs[i])
  {
    seq(|xs|, i requires 0 <= i < |xs| => f(xs[i]))
  }

  /** Filtering distributes over concatenation: the kept elements of a
      prefix come first, in their original order. */
  lemma {:induction false} FilterAppend<T>(p: T -> bool, xs: seq<T>, ys: seq<T>)
    ensures Filter(p, xs + ys) == Filter(p, xs) + Filter(p, ys)
  {
    if |xs| == 0 {
      assert xs + ys == ys;
    } else {
      assert (xs + ys)[1..] == xs[1..] + ys;
      FilterAppend(p, xs[1..], ys);
    }
  }

  /** A filter every element passes keeps everything. */
  lemma {:induction false} FilterKeepsAll<T>(p: T -> bool, xs: seq<T>)
    requires forall i :: 0 <= i < |xs| ==> p(xs[i])
    ensures Filter(p, xs) == xs
  {
    if |xs| > 0 {
      FilterKeepsAll(p, xs[1..]);
      assert [xs[0]] + xs[1..] == xs;
    }
  }

  /** Mapping distributes over concatenation. */
  lemma MapAppend<A, B>(f: A -> B, xs: seq<A>, ys: seq<A>)
    ensures Map(f, xs + ys) == Map(f, xs) + Map(f, ys)
  {
  }

  lemma MapOne<A, B>(f: A -> B, x: A)
    ensures Map(f, [x]) == [f(x)]
  {
    assert Map(f, [x])[0] == f([x][0]);
  }

  /** The comprehension `[f(x) for x in xs if p(x)]` taken apart at its
      first element. */
  lemma MapFilterCons<A, B>(p: A -> bool, f: A -> B, x: A, xs: seq<A>)
    ensures Map(f, Filter(p, [x] + xs)) == (if p(x) then [f(x)] else []) + Map(f, Filter(p, xs))
  {
    assert ([x] + xs)[1..] == xs;
    var head := if p(x) then [x] else [];
    MapAppend(f, head, Filter(p, xs));
    if p(x) {
      MapOne(f, x);
    }
  }

  /** Filtering one more element keeps it or drops it. */
  lemma FilterSnoc<T>(p: T -> bool, xs: seq<T>, x: T)
    ensures Filter(p, xs + [x]) == Filter(p, xs) + (if p(x) then [x] else [])
  {
    FilterAppend(p, xs, [x]);
    assert [x][1..] == [];
  }

  /** The append-loop `for x in xs: if p(x): out.append(f(x))`, one element
      at a time. */
  lemma MapFilterSnoc<A, B>(p: A -> bool, f: A -> B, xs: seq<A>, x: A)
    ensures Map(f, Filter(p, xs + [x])) == Map(f, Filter(p, xs)) + (if p(x) then [f(x)] else [])
  {
    FilterSnoc(p, xs, x);
    var tail := if p(x) then [x] else [];
    MapAppend(f, Filter(p, xs), tail);
    if p(x) {
      MapOne(f, x);
    }
  }

  /** The append-loop `for x in xs: y := f(x); if p(y): out.append(y)`, one
      element at a time. */
  lemma FilterMapSnoc<A, B>(f: A -> B, p: B -> bool, xs: seq<A>, x: A)
    ensures Filter(p, Map(f, xs + [x])) == Filter(p, Map(f, xs)) + (if p(f(x)) then [f(x)] else [])
  {
    MapAppend(f, xs, [x]);
    MapOne(f, x);
    FilterSnoc(p, Map(f, xs), f(x));
  }

  /** A sequence is its prefix followed by the rest. */
  lemma SplitAt<T>(s: seq<T>, k: int)
    requires 0 <= k <= |s|
    ensures s == s[..k] + s[k..]
  {
  }

  /** Concatenation peels off the head of a non-empty left operand. */
  lemma ConsSplit<T>(w: seq<T>, r: seq<T>)
    requires |w| > 0
    ensures w + r == [w[0]] + (w[1..] + r)
  {
  }

  /** The empty sequence is the unit of concatenation. */
  lemma EmptyConcat<T>(a: seq<T>, e: seq<T>)
    requires |e| == 0
    ensures a + e == a && e + a == a
  {
  }

  /** A non-empty sequence is its front followed by its last element. */
  lemma SplitLast<T>(s: seq<T>)
    requires |s| > 0
    ensures s == s[..|s| - 1] + [s[|s| - 1]]
  {
  }

  /** One step of a loop that builds `Map(f, Filter(p, whole))`, for a
      caller whose own definition adds the last element to the result for
      the elements before it. */
  lemma MapFilterStep<A, B>(p: A -> bool, f: A -> B, whole: seq<A>, prev: seq<B>, next: seq<B>)
    requires |whole| > 0
    requires prev == Map(f, Filter(p, whole[..|whole| - 1]))
    requires next == prev + (if p(whole[|whole| - 1]) then [f(whole[|whole| - 1])] else [])
    ensures next == Map(f, Filter(p, whole))
  {
    var xs, x := whole[..|whole| - 1], whole[|whole| - 1];
    SplitLast(whole);
    MapFilterSnoc(p, f, xs, x);
  }

  /** One step of a loop that builds `Filter(p, Map(f, whole))`. */
  lemma FilterMapStep<A, B>(f: A -> B, p: B -> bool, whole: seq<A>, prev: seq<B>, next: seq<B>)
    requires |whole| > 0
    requires prev == Filter(p, Map(f, whole[..|whole| - 1]))
    requires next == prev + (if p(f(whole[|whole| - 1])) then [f(whole[|whole| - 1])] else [])
    ensures next == Filter(p, Map(f, whole))
  {
    var xs, x := whole[..|whole| - 1], whole[|whole| - 1];
    SplitLast(whole);
    FilterMapSnoc(f, p, xs, x);
  }

  /** `any(p(x) for x in xs)`. */
  predicate Any<T>(p: T -> bool, xs: seq<T>) {
    exists i :: 0 <= i < |xs| && p(xs[i])
  }

  /** One more element satisfies `p` or leaves the answer as it was. */
  lemma AnySnoc<T>(p: T -> bool, xs: seq<T>, x: T)
    ensures Any(p, xs + [x]) <==> Any(p, xs) || p(x)
  {
    var ys := xs + [x];
    if Any(p, xs) {
      var i :| 0 <= i < |xs| && p(xs[i]);
      assert ys[i] == xs[i];
    }
    if p(x) {
      assert ys[|xs|] == x;
    }
  }

  /** A filter keeps something exactly when some element passes it. */
  lemma FilterNonEmpty<T>(p: T -> bool, xs: seq<T>)
    ensures |Filter(p, xs)| > 0 <==> Any(p, xs)
  {
    if Any(p, xs) {
      var i :| 0 <= i < |xs| && p(xs[i]);
      assert xs[i] in Filter(p, xs);
    }
    if |Filter(p, xs)| > 0 {
      var r := Filter(p, xs);
      assert r[0] in xs;
      var i :| 0 <= i < |xs| && xs[i] == r[0];
      assert p(xs[i]);
    }
  }

  /** `all(p(x) for x in xs)`. */
  predicate All<T>(p: T -> bool, xs: seq<T>) {
    forall i :: 0 <= i < |xs| ==> p(xs[i])
  }

  /** A property every image has holds of every element of a mapped list. */
  lemma AllMap<A, B>(f: A -> B, p: B -> bool, xs: seq<A>)
    requires forall x :: p(f(x))
    ensures All(p, Map(f, xs))
  {
  }

  /** `xs` is an order-preserving subsequence of `ys`. */
  predicate IsSubsequence<T(==)>(xs: seq<T>, ys: seq<T>)
    decreases |ys|
  {
    |xs| == 0 || (|ys| > 0 && (if xs[0] == ys[0] then IsSubsequence(xs[1..], ys[1..]) else IsSubsequence(xs, ys[1..])))
  }

  /** Whatever a filter keeps, it keeps in the original relative order. */
  lemma {:induction false} FilterIsSubsequence<T>(p: T -> bool, xs: seq<T>)
    ensures IsSubsequence(Filter(p, xs), xs)
  {
    if |xs| > 0 {
      FilterIsSubsequence(p, xs[1..]);
      if p(xs[0]) {
        assert Filter(p, xs) == [xs[0]] + Filter(p, xs[1..]);
        assert Filter(p, xs)[1..] == Filter(p, xs[1..]);
      } else {
        assert Filter(p, xs) == Filter(p, xs[1..]);
      }
    }
  }

  /** `xs[:k]` with Python's slicing of a non-negative or negative stop. */
  function PyTake<T>(xs: seq<T>, k: int): (r: seq<T>)
    ensures k >= 0 ==> |r| == if k < |xs| then k else |xs|
    ensures k < 0 ==> |r| == if |xs| + k > 0 then |xs| + k else 0
    ensures r == xs[..|r|]
  {
    if k >= 0 then (if k < |xs| then xs[..k] else xs)
    else if |xs| + k > 0 then xs[..|xs| + k] else []
  }
}

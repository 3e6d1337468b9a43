/** Finite models of the reactive operators the client composes: a stream is a
    finite sequence of items plus how it ended (still open, completed, or errored). */
module Streams {
  import opened Wrappers

  datatype End = Open | Completed | Errored(message: string)

  /** What a subscriber has observed of one stream so far. */
  datatype Trace<T> = Trace(items: seq<T>, end: End)

  predicate NoAdjacentDuplicates<T(==)>(xs: seq<T>) {
    forall i :: 0 < i < |xs| ==> xs[i - 1] != xs[i]
  }

  /** The items that differ from the item before them, the first one being compared
      with `prev` (the item last let through, if any): `DistinctUntilChanged` resumed
      after `prev`. */
  function DistinctAfter<T(==)>(prev: Option<T>, xs: seq<T>): (r: seq<T>)
    ensures |r| <= |xs|
    ensures NoAdjacentDuplicates(r)
    ensures |r| > 0 ==> prev != Some(r[0])
    ensures forall y :: y in r ==> y in xs
    ensures forall y :: y in xs ==> y in r || prev == Some(y)
    decreases |xs|
  {
    if xs == [] then []
    else if prev == Some(xs[0]) then DistinctAfter(prev, xs[1..])
    else [xs[0]] + DistinctAfter(Some(xs[0]), xs[1..])
  }

  /** `DistinctUntilChanged`: an item equal to the one before it is dropped. */
  function DistinctUntilChanged<T(==)>(xs: seq<T>): (r: seq<T>)
    ensures |r| <= |xs|
    ensures NoAdjacentDuplicates(r)
    ensures |xs| > 0 ==> |r| > 0 && r[0] == xs[0]
    ensures forall y :: y in r ==> y in xs
    ensures forall y :: y in xs ==> y in r
  {
    DistinctAfter(None, xs)
  }

  /** The item `DistinctAfter` compares the next one with: the last item of `xs`, or
      `prev` when `xs` is empty (a dropped item equals the one let through before it). */
  function LastOf<T>(prev: Option<T>, xs: seq<T>): (r: Option<T>)
    ensures xs == [] ==> r == prev
    ensures xs != [] ==> r == Some(xs[|xs| - 1])
  {
    if xs == [] then prev else Some(xs[|xs| - 1])
  }

  lemma AppendAssociates<T>(a: seq<T>, b: seq<T>, c: seq<T>)
    ensures a + (b + c) == (a + b) + c
  {
  }

  /** The operator as items arrive: each new item is compared with the last one seen
      (or with `prev` before any) and let through when it differs. */
  function DistinctArriving<T(==)>(prev: Option<T>, xs: seq<T>): seq<T>
    decreases |xs|
  {
    if xs == [] then []
    else
      var init := xs[..|xs| - 1];
      DistinctArriving(prev, init) + (if LastOf(prev, init) == Some(xs[|xs| - 1]) then [] else [xs[|xs| - 1]])
  }

  /** Read from the front, the arriving items give the same output as `DistinctAfter`'s
      first step. */
  lemma {:induction false} DistinctArrivingCons<T>(prev: Option<T>, y: T, ys: seq<T>)
    ensures DistinctArriving(prev, [y] + ys)
         == if prev == Some(y) then DistinctArriving(prev, ys) else [y] + DistinctArriving(Some(y), ys)
    decreases |ys|
  {
    var next := if prev == Some(y) then prev else Some(y);
    var xs := [y] + ys;
    if ys == [] {
      assert xs[..0] == [];
    } else {
      var init, z := ys[..|ys| - 1], ys[|ys| - 1];
      assert xs[..|xs| - 1] == [y] + init && xs[|xs| - 1] == z;
      assert LastOf(prev, [y] + init) == LastOf(next, init);
      DistinctArrivingCons(prev, y, init);
      var extra: seq<T> := if LastOf(next, init) == Some(z) then [] else [z];
      assert DistinctArriving(next, ys) == DistinctArriving(next, init) + extra;
      AppendAssociates([y], DistinctArriving(next, init), extra);
    }
  }

  /** `DistinctAfter` is the operator as items arrive. */
  lemma {:induction false} DistinctAfterIsArriving<T>(prev: Option<T>, xs: seq<T>)
    ensures DistinctAfter(prev, xs) == DistinctArriving(prev, xs)
    decreases |xs|
  {
    if xs != [] {
      var y, tail := xs[0], xs[1..];
      assert xs == [y] + tail;
      DistinctArrivingCons(prev, y, tail);
      DistinctAfterIsArriving(if prev == Some(y) then prev else Some(y), tail);
    }
  }

  /** The operator one item at a time: a new item is let through exactly when it differs
      from the item before it. With `DistinctAfter(prev, []) == []` this determines
      every output, in order. */
  lemma DistinctAfterSnoc<T>(prev: Option<T>, xs: seq<T>, x: T)
    ensures DistinctAfter(prev, xs + [x])
         == DistinctAfter(prev, xs) + (if LastOf(prev, xs) == Some(x) then [] else [x])
  {
    DistinctAfterIsArriving(prev, xs + [x]);
    DistinctAfterIsArriving(prev, xs);
    assert (xs + [x])[..|xs|] == xs;
  }

  /** `DistinctUntilChanged` one item at a time: the first item always passes, and a
      later one passes exactly when it differs from its predecessor. */
  lemma DistinctUntilChangedSnoc<T>(xs: seq<T>, x: T)
    ensures DistinctUntilChanged(xs + [x])
         == DistinctUntilChanged(xs) + (if xs != [] && xs[|xs| - 1] == x then [] else [x])
  {
    DistinctAfterSnoc(None, xs, x);
  }

  /** A sequence with no repeated neighbours that does not start with `prev` passes
      through unchanged, and only such a sequence does. */
  lemma {:induction false} DistinctAfterIdentity<T>(prev: Option<T>, xs: seq<T>)
    ensures DistinctAfter(prev, xs) == xs <==>
              NoAdjacentDuplicates(xs) && (|xs| > 0 ==> prev != Some(xs[0]))
    decreases |xs|
  {
    if xs != [] {
      var tail := xs[1..];
      if prev == Some(xs[0]) {
        assert |DistinctAfter(prev, xs)| <= |tail| < |xs|;
      } else {
        DistinctAfterIdentity(Some(xs[0]), tail);
        assert xs == [xs[0]] + tail;
        assert DistinctAfter(prev, xs) == xs <==> DistinctAfter(Some(xs[0]), tail) == tail by {
          if DistinctAfter(prev, xs) == xs {
            assert DistinctAfter(Some(xs[0]), tail) == DistinctAfter(prev, xs)[1..];
          }
        }
        assert NoAdjacentDuplicates(xs) <==>
                 NoAdjacentDuplicates(tail) && (|tail| > 0 ==> Some(xs[0]) != Some(tail[0])) by {
          if NoAdjacentDuplicates(xs) {
            forall i | 0 < i < |tail| ensures tail[i - 1] != tail[i] {
              assert tail[i - 1] == xs[i] && tail[i] == xs[i + 1];
            }
            if |tail| > 0 { assert xs[1 - 1] != xs[1]; }
          }
          if NoAdjacentDuplicates(tail) && (|tail| > 0 ==> Some(xs[0]) != Some(tail[0])) {
            forall i | 0 < i < |xs| ensures xs[i - 1] != xs[i] {
              if i > 1 {
                assert xs[i - 1] == tail[i - 2] && xs[i] == tail[i - 1];
              }
            }
          }
        }
      }
    }
  }

  /** A sequence with no repeated neighbours passes `DistinctUntilChanged` unchanged,
      and only such a sequence does. */
  lemma DistinctUntilChangedIdentity<T>(xs: seq<T>)
    ensures DistinctUntilChanged(xs) == xs <==> NoAdjacentDuplicates(xs)
  {
    DistinctAfterIdentity(None, xs);
  }

  /** Deduplicating twice is the same as deduplicating once. */
  lemma DistinctUntilChangedIdempotent<T>(xs: seq<T>)
    ensures DistinctUntilChanged(DistinctUntilChanged(xs)) == DistinctUntilChanged(xs)
  {
    DistinctUntilChangedIdentity(DistinctUntilChanged(xs));
  }

  /** The items up to and including the first one satisfying `stop` (all of them if
      there is none): what `TakeUntil` lets through when its signal is raised by the
      stopping item itself. */
  function TakeThrough<T>(xs: seq<T>, stop: T -> bool): (r: seq<T>)
    ensures r <= xs
    ensures forall i :: 0 <= i < |r| - 1 ==> !stop(r[i])
    ensures (exists i :: 0 <= i < |xs| && stop(xs[i])) ==> |r| > 0 && stop(r[|r| - 1])
    ensures (forall i :: 0 <= i < |xs| ==> !stop(xs[i])) ==> r == xs
    decreases |xs|
  {
    if xs == [] then []
    else if stop(xs[0]) then [xs[0]]
    else [xs[0]] + TakeThrough(xs[1..], stop)
  }

  /** `Indexed`: each item paired with its position, counting up from `start`. */
  function IndexedFrom<T>(xs: seq<T>, start: nat): (r: seq<(T, nat)>)
    ensures |r| == |xs|
    ensures forall i :: 0 <= i < |xs| ==> r[i] == (xs[i], start + i)
  {
    if xs == [] then [] else [(xs[0], start)] + IndexedFrom(xs[1..], start + 1)
  }

  function Indexed<T>(xs: seq<T>): (r: seq<(T, nat)>)
    ensures |r| == |xs|
    ensures forall i :: 0 <= i < |xs| ==> r[i].0 == xs[i] && r[i].1 == i
  {
    IndexedFrom(xs, 0)
  }

  /** `Skip(n)`: everything after the first `n` items (nothing if there are fewer). */
  function Skip<T>(xs: seq<T>, n: nat): (r: seq<T>)
    ensures n <= |xs| ==> r == xs[n..]
    ensures n > |xs| ==> r == []
  {
    if n <= |xs| then xs[n..] else []
  }
}

/** What several modules use: options, minimum and maximum, sequences of numbers without repetition, error numbers
    and the constants of futexes. */
module Basics {
  const EAGAIN: int := 11
  const ETIMEDOUT: int := 110

  // Why a sleeper was woken.
  const FUTEX_NONE: int := 0
  const FUTEX_EXPIRED: int := 1

  // FUTEX_BITSET_MATCH_ANY
  const MATCH_ANY: bv32 := 0xffff_ffff

  datatype Option<T> = None | Some(value: T)

  function Min(a: nat, b: nat): nat { if a < b then a else b }

  function Max(a: nat, b: nat): nat { if a < b then b else a }

  ghost predicate NoDup(q: seq<nat>) { forall a, b :: 0 <= a < b < |q| ==> q[a] != q[b] }

  // Taking the head off a queue.
  lemma Tail(q: seq<nat>, y: nat)
    requires q != [] && NoDup(q)
    ensures y in q[1..] <==> y in q && y != q[0]
    ensures NoDup(q[1..])
  {
    assert q == [q[0]] + q[1..];
  }

  // No more distinct members than there is room for.
  lemma {:induction false} FitsIn(q: seq<nat>, rooms: set<nat>)
    requires NoDup(q) && forall a :: 0 <= a < |q| ==> q[a] in rooms
    ensures |q| <= |rooms|
  {
    if q != [] {
      var m := |q| - 1;
      FitsIn(q[..m], rooms - {q[m]});
    }
  }
}

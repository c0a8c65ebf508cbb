/** Counting the calls of one kind in a recorded trace of calls. */
module Traces {

  /** Number of elements of `calls` that `kind` selects. */
  function Tally<C>(calls: seq<C>, kind: C -> bool): nat {
    if calls == [] then 0 else (if kind(calls[0]) then 1 else 0) + Tally(calls[1..], kind)
  }

  /** Tally adds up over concatenation. */
  lemma {:induction false} TallyAppend<C>(a: seq<C>, b: seq<C>, kind: C -> bool)
    ensures Tally(a + b, kind) == Tally(a, kind) + Tally(b, kind)
  {
    if a == [] {
      assert a + b == b;
    } else {
      assert (a + b)[0] == a[0] && (a + b)[1..] == a[1..] + b;
      TallyAppend(a[1..], b, kind);
    }
  }
}

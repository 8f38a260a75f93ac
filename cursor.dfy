/** The cursor of a VectorIterator, taken as a value: a position over a
    vector of a given size. This is the two-state machine behind HasMore and
    Next: "in range" while the position is below the size, "exhausted" once
    it equals the size, with no way back. */
module Cursor {

  /** The "in range" state: Current() may be called. */
  predicate InRange(pos: nat, size: nat) {
    pos < size
  }

  /** The position after one call of Next(): one further while in range,
      unchanged once exhausted. */
  function Step(pos: nat, size: nat): nat {
    if InRange(pos, size) then pos + 1 else pos
  }

  /** The position after `n` calls of Next(). */
  function Run(pos: nat, size: nat, n: nat): nat
    decreases n
  {
    if n == 0 then pos else Run(Step(pos, size), size, n - 1)
  }

  /** From any position within the vector, `n` calls of Next() advance the
      cursor by `n` but never past the end: exactly `size - pos` calls reach
      the exhausted state, and every call after that leaves it where it is. */
  lemma {:induction false} RunClampsAtEnd(pos: nat, size: nat, n: nat)
    requires pos <= size
    ensures Run(pos, size, n) == if pos + n <= size then pos + n else size
    decreases n
  {
    if n > 0 {
      RunClampsAtEnd(Step(pos, size), size, n - 1);
    }
  }

  /** The elements the traversal protocol emits when it starts at `pos`:
      while HasMore, emit Current and call Next. */
  function Emitted<T>(items: seq<T>, pos: nat): seq<T>
    decreases |items| - pos
  {
    if InRange(pos, |items|) then [items[pos]] + Emitted(items, Step(pos, |items|)) else []
  }

  /** The protocol emits exactly the elements from `pos` on, in order, each
      once; from an exhausted cursor it emits nothing. */
  lemma {:induction false} EmittedIsSuffix<T>(items: seq<T>, pos: nat)
    requires pos <= |items|
    ensures Emitted(items, pos) == items[pos..]
    decreases |items| - pos
  {
    if pos < |items| {
      EmittedIsSuffix(items, pos + 1);
      assert items[pos..] == [items[pos]] + items[pos + 1..];
    }
  }
}

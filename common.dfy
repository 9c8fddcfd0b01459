/** Small value wrappers shared by every module of the engine-metrics model. */
module Common {

  /** An optional value: Python's `None` or a present value. */
  datatype Option<+T> = None | Some(value: T)

  /** An integer extended with positive infinity, the model of Python's `float("inf")`. */
  datatype ExtInt = Finite(value: int) | Infinite

  /** A real extended with positive infinity. */
  datatype ExtReal = FiniteReal(value: real) | InfiniteReal

  /** Strictly positive integers (used for divisors). */
  type Positive = n: int | n > 0 witness 1

  /** The concatenation of a sequence of sequences, in order (repeated `list.extend`). */
  function Flatten<T>(parts: seq<seq<T>>): seq<T> {
    if parts == [] then [] else parts[0] + Flatten(parts[1..])
  }

  /** Flattening two batches gives the two results one after the other. */
  lemma {:induction false} FlattenAppend<T>(a: seq<seq<T>>, b: seq<seq<T>>)
    ensures Flatten(a + b) == Flatten(a) + Flatten(b)
  {
    if a == [] {
      assert a + b == b;
    } else {
      assert (a + b)[1..] == a[1..] + b;
      FlattenAppend(a[1..], b);
    }
  }
}

/** Facts about sequences that hold whatever their elements are; stated
    generically so that proofs about byte and frame traces need no bit
    reasoning to use them. */
module Seqs {

  /** Splitting a nonempty tail off a concatenation. */
  lemma AppendLast<T>(a: seq<T>, b: seq<T>)
    requires b != []
    ensures (a + b)[..|a + b| - 1] == a + b[..|b| - 1]
    ensures (a + b)[|a + b| - 1] == b[|b| - 1]
  {
  }

  lemma Assoc<T>(x: seq<T>, y: seq<T>, z: seq<T>)
    ensures (x + y) + z == x + (y + z)
  {
  }

  /** A sequence is its front and its last element. */
  lemma FrontLast<T>(s: seq<T>)
    requires s != []
    ensures s[..|s| - 1] + [s[|s| - 1]] == s
  {
  }

  /** A slice that lies within the left part of a concatenation. */
  lemma SliceLeft<T>(x: seq<T>, y: seq<T>, i: nat, j: nat)
    requires i <= j <= |x|
    ensures (x + y)[i..j] == x[i..j]
  {
  }

  /** What follows the left part of a concatenation is the right part. */
  lemma SliceRight<T>(x: seq<T>, y: seq<T>)
    ensures (x + y)[|x|..] == y
  {
  }

  /** Two singletons make a pair. */
  lemma Pair<T>(a: T, b: T)
    ensures [a] + [b] == [a, b]
  {
  }
}

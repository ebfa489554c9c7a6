/**
 * Small facts about sequences: associativity, taking and dropping across a
 * concatenation, indexing into one. They model nothing of the generator;
 * the proofs about path segments, (tag, document) pairs and page lists cite
 * them by name, each as a plain equation, instead of redoing the
 * element-wise argument among their own terms.
 */
module Seqs {
  /** Concatenation is associative. */
  lemma SeqAssoc<T>(x: seq<T>, y: seq<T>, z: seq<T>)
    ensures x + (y + z) == (x + y) + z
  {
  }

  /** A sequence that agrees with the start of a longer one is its prefix. */
  lemma PrefixByElements<T>(x: seq<T>, y: seq<T>)
    requires |x| <= |y| && forall i :: 0 <= i < |x| ==> x[i] == y[i]
    ensures x == y[..|x|]
  {
  }

  /** A prefix of `x + y` no longer than `x` is a prefix of `x`. */
  lemma TakeAppend<T>(x: seq<T>, y: seq<T>, k: nat)
    requires k <= |x|
    ensures (x + y)[..k] == x[..k]
  {
  }

  /** Dropping no more than `x` from `x + y` leaves the rest of `x`, then `y`. */
  lemma DropAppend<T>(x: seq<T>, y: seq<T>, k: nat)
    requires k <= |x|
    ensures (x + y)[k..] == x[k..] + y
  {
  }

  /** Taking nothing from `y` adds nothing to `x`. */
  lemma AppendTakeNone<T>(x: seq<T>, y: seq<T>)
    ensures x + y[..0] == x
  {
  }

  /** Taking one more element of `y` appends it. */
  lemma AppendTakeNext<T>(x: seq<T>, y: seq<T>, j: nat)
    requires j < |y|
    ensures (x + y[..j]) + [y[j]] == x + y[..j + 1]
  {
  }

  /** Taking all of `y` appends `y`. */
  lemma AppendTakeAll<T>(x: seq<T>, y: seq<T>)
    ensures x + y[..|y|] == x + y
  {
  }

  /** The prefix of length `|x|` is `x` itself. */
  lemma TakeAll<T>(x: seq<T>)
    ensures x[..|x|] == x
  {
  }

  /** The prefix of length `i + 1` is the prefix of length `i` and the element at `i`. */
  lemma TakeNext<T>(x: seq<T>, i: nat)
    requires i < |x|
    ensures x[..i + 1] == x[..i] + [x[i]] && x[..i + 1][..i] == x[..i]
  {
  }

  /** A prefix of a prefix is a prefix. */
  lemma TakeTake<T>(x: seq<T>, n: nat, m: nat)
    requires m <= n <= |x|
    ensures x[..n][..m] == x[..m]
  {
  }

  /** An index into the first part of `x + y`. */
  lemma AppendIndexLeft<T>(x: seq<T>, y: seq<T>, n: nat)
    requires n < |x|
    ensures (x + y)[n] == x[n]
  {
  }

  /** An index into the second part of `x + y`. */
  lemma AppendIndexRight<T>(x: seq<T>, y: seq<T>, n: nat)
    requires |x| <= n < |x| + |y|
    ensures (x + y)[n] == y[n - |x|]
  {
  }

  /** Dropping the last element of `x + y`, with `y` non-empty, drops it from `y`. */
  lemma DropLastAppend<T>(x: seq<T>, y: seq<T>)
    requires |y| > 0
    ensures (x + y)[..|x| + |y| - 1] == x + y[..|y| - 1]
  {
  }
}

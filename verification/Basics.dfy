/** Notions shared by the models. */
module Basics {

  datatype Option<+T> = None | Some(value: T)

  /** A 32-bit word as a number. */
  type Word = w: int | 0 <= w < 0x1_0000_0000

  ghost predicate Distinct<T>(s: seq<T>) {
    forall i, j :: 0 <= i < j < |s| ==> s[i] != s[j]
  }

  lemma Regroup<T>(a: seq<T>, b: seq<T>, c: seq<T>)
    ensures (a + b) + c == a + (b + c)
  {}
}

/** Shared odds and ends. */
module Basics {

  datatype Option<T> = None | Some(value: T)

  /** The largest value of Go's int on a 64-bit machine. */
  const MAX_INT := 0x7FFF_FFFF_FFFF_FFFF

  lemma Regroup<T>(a: seq<T>, b: seq<T>, c: seq<T>)
    ensures a + (b + c) == (a + b) + c
  {
  }

  lemma Glue<T>(whole: seq<T>, first: seq<T>, rest: seq<T>, middle: seq<T>, last: seq<T>, front: seq<T>)
    requires whole == first + rest && rest == middle + last && front == first + middle
    ensures whole == front + last
  {
  }

  lemma HeadAndTail<T>(s: seq<T>)
    requires s != []
    ensures s == [s[0]] + s[1..]
  {
  }
}

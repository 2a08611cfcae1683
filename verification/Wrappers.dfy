/** What the models share: options, bounds, and concatenation. */
module Wrappers {
  datatype Option<+T> = None | Some(value: T)

  function Max(a: nat, b: nat): nat {
    if a < b then b else a
  }

  function Min(a: nat, b: nat): nat {
    if a < b then a else b
  }

  lemma ConcatAssoc<T>(a: seq<T>, b: seq<T>, c: seq<T>)
    ensures (a + b) + c == a + (b + c)
  {
  }

  lemma HeadAndTail<T>(x: T, xs: seq<T>)
    ensures [x] + xs != [] && ([x] + xs)[0] == x && ([x] + xs)[1..] == xs
  {
  }
}

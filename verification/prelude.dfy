/** Shared value types: the usual optional value and sequence helpers used by every module. */
module Prelude {
  datatype Option<+T> = None | Some(value: T)

  /** One listed item: the id of a post or user, and the time it is ordered by. */
  datatype Entry = Entry(id: nat, score: int)

  /** The first n elements, or all of them when there are fewer. */
  function Take<T>(n: nat, s: seq<T>): seq<T> {
    if n <= |s| then s[..n] else s
  }

  lemma TakeAgain<T>(n: nat, s: seq<T>)
    ensures Take(n, Take(n, s)) == Take(n, s)
  {
  }

  lemma HeadAndTail<T>(s: seq<T>, n: nat)
    requires n <= |s|
    ensures s[..n] + s[n..] == s
  {
  }

  function Min(a: int, b: int): int {
    if a < b then a else b
  }

  function Max(a: int, b: int): int {
    if a < b then b else a
  }
}

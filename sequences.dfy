/** Order-keeping selection from a sequence, shared by the list filter and
    the menu filter. */
module Sequences {
  /** `r` is `s` with some elements left out, in the same order. */
  ghost predicate Subsequence<T>(r: seq<T>, s: seq<T>)
    decreases |s|
  {
    if r == [] then true
    else if s == [] then false
    else (r[0] == s[0] && Subsequence(r[1..], s[1..])) || Subsequence(r, s[1..])
  }
}

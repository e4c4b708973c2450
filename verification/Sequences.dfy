/** Facts about slices and concatenation that the solver needs to be told one at a time. */
module Sequences {
  lemma SliceFront<T>(a: seq<T>, b: seq<T>, i: nat, j: nat)
    requires i <= j <= |a|
    ensures (a + b)[i..j] == a[i..j]
  {
  }

  lemma SliceBack<T>(a: seq<T>, b: seq<T>)
    ensures (a + b)[|a|..] == b && (a + b)[|a|..|a| + |b|] == b
    ensures (a + b)[..|a|] == a
  {
  }

  lemma SliceJoin<T>(s: seq<T>, i: nat, j: nat, k: nat)
    requires i <= j <= k <= |s|
    ensures s[i..k] == s[i..j] + s[j..k]
  {
  }

  lemma SliceSame<T>(s: seq<T>, t: seq<T>, i: nat, j: nat)
    requires i <= j <= |s| && j <= |t| && forall k :: i <= k < j ==> s[k] == t[k]
    ensures s[i..j] == t[i..j]
  {
  }

  lemma Regroup<T>(whole: seq<T>, done: seq<T>, added: seq<T>, rest: seq<T>)
    requires whole == done + (added + rest)
    ensures whole == (done + added) + rest
  {
  }
}

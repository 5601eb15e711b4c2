/** Insertion into a list, for the sorts that stand for those of the C++ library. */
module Insertion {

  lemma InsertKeepsElements<T>(r: seq<T>, k: nat, s: seq<T>, n: nat)
    requires k <= |r| && n < |s| && multiset(r) == multiset(s[..n])
    ensures multiset(r[..k] + [s[n]] + r[k..]) == multiset(s[..n + 1])
  {
    assert r == r[..k] + r[k..];
    assert s[..n + 1] == s[..n] + [s[n]];
  }
}

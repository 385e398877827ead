/**
 What several modules need and none of them owns.
 */
module Common {
  function Min(a: nat, b: nat): nat {
    if a < b then a else b
  }

  function Max(a: nat, b: nat): nat {
    if a < b then b else a
  }

  lemma CountTwice<T>(s: seq<T>, i: nat, j: nat)
    requires i < j < |s| && s[i] == s[j]
    ensures multiset(s)[s[i]] >= 2
  {
    var u := s[..j];
    assert s == u + [s[j]] + s[j + 1..];
    assert u[i] in multiset(u);
  }
}

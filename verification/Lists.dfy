/** Filtering a list, as loops do that unlink what has expired. */
module Lists {

  /** The elements that `keep` accepts, in order. */
  function Filtered<T>(s: seq<T>, keep: T -> bool): seq<T> {
    if s == [] then [] else (if keep(s[0]) then [s[0]] else []) + Filtered(s[1..], keep)
  }

  /** One step of a loop that removes the others from the list as it goes. */
  lemma FilteredHere<T>(s: seq<T>, i: nat, keep: T -> bool)
    requires i < |s|
    ensures var cut := s[..i] + s[i + 1..];
            s[..i] + Filtered(s[i..], keep)
            == if keep(s[i]) then s[..i + 1] + Filtered(s[i + 1..], keep) else cut[..i] + Filtered(cut[i..], keep)
  {
    var cut := s[..i] + s[i + 1..];
    assert s[i..][1..] == s[i + 1..] && cut[i..] == s[i + 1..] && cut[..i] == s[..i];
    assert Filtered(s[i..], keep) == (if keep(s[i]) then [s[i]] else []) + Filtered(s[i + 1..], keep);
    hide Filtered;
    assert s[..i + 1] == s[..i] + [s[i]];
  }

  lemma FilteredEnds<T>(s: seq<T>, keep: T -> bool)
    ensures s[..0] + Filtered(s[0..], keep) == Filtered(s, keep)
    ensures s[..|s|] + Filtered(s[|s|..], keep) == s
  {
    assert s[0..] == s;
  }

  lemma {:induction false} FilteredMembers<T>(s: seq<T>, keep: T -> bool, x: T)
    ensures x in Filtered(s, keep) <==> x in s && keep(x)
  {
    if s != [] {
      FilteredMembers(s[1..], keep, x);
      assert x in s <==> x == s[0] || x in s[1..];
    }
  }

  lemma {:induction false} FilteredTwice<T>(s: seq<T>, keep: T -> bool)
    ensures Filtered(Filtered(s, keep), keep) == Filtered(s, keep)
    decreases |s|
  {
    if s != [] {
      FilteredTwice(s[1..], keep);
      var rest := Filtered(s[1..], keep);
      if keep(s[0]) {
        assert Filtered(s, keep) == [s[0]] + rest && ([s[0]] + rest)[1..] == rest;
      } else {
        assert Filtered(s, keep) == rest;
      }
    }
  }

  /** No two elements have one key. */
  predicate Distinct<T, K(==)>(s: seq<T>, key: T -> K) {
    forall i, j :: 0 <= i < j < |s| ==> key(s[i]) != key(s[j])
  }

  lemma ConsDistinct<T, K>(x: T, s: seq<T>, key: T -> K)
    requires Distinct(s, key) && forall y :: y in s ==> key(y) != key(x)
    ensures Distinct([x] + s, key)
  {
    var l := [x] + s;
    forall i, j | 0 <= i < j < |l| ensures key(l[i]) != key(l[j]) {
      if i == 0 {
        assert l[j] in s;
      }
    }
  }

  lemma {:induction false} FilteredDistinct<T, K>(s: seq<T>, keep: T -> bool, key: T -> K)
    requires Distinct(s, key)
    ensures Distinct(Filtered(s, keep), key)
  {
    if s != [] {
      var rest := Filtered(s[1..], keep);
      FilteredDistinct(s[1..], keep, key);
      forall y | y in rest ensures key(y) != key(s[0]) {
        FilteredMembers(s[1..], keep, y);
      }
      ConsDistinct(s[0], rest, key);
      assert Filtered(s, keep) == if keep(s[0]) then [s[0]] + rest else rest;
    }
  }
}

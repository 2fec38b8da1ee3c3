/** The two array update operators the user handlers send to the database:
    `$addToSet` (append unless already present) and `$pull` (remove every
    element equal to the argument). */
module ListOps {

  import opened Common

  /** No element occurs twice. */
  predicate NoDup(s: seq<UserId>) {
    forall i, j :: 0 <= i < j < |s| ==> s[i] != s[j]
  }

  /** `$addToSet`: the array gains `x` at its end unless it already holds it. */
  function AddToSet(s: seq<UserId>, x: UserId): (r: seq<UserId>)
    ensures x in r
    ensures forall y :: y in r <==> y in s || y == x
    ensures x in s ==> r == s
    ensures x !in s ==> r == s + [x]
    ensures NoDup(s) ==> NoDup(r)
  {
    if x in s then s else s + [x]
  }

  /** `$pull`: every element equal to `x` is removed; every other element
      stays, as often as it occurred. */
  function Pull(s: seq<UserId>, x: UserId): (r: seq<UserId>)
    ensures forall y :: y in r <==> y in s && y != x
    ensures multiset(r) == multiset(s)[x := 0]
    ensures |r| <= |s|
  {
    if s == [] then []
    else
      assert s == [s[0]] + s[1..];
      if s[0] == x then Pull(s[1..], x)
      else [s[0]] + Pull(s[1..], x)
  }

  /** `$pull` of an element the array does not hold changes nothing. */
  lemma {:induction false} PullAbsent(s: seq<UserId>, x: UserId)
    requires x !in s
    ensures Pull(s, x) == s
  {
    if s != [] {
      assert s == [s[0]] + s[1..];
      PullAbsent(s[1..], x);
    }
  }

  /** A second `$pull` of the same element is a no-op. */
  lemma PullIdempotent(s: seq<UserId>, x: UserId)
    ensures Pull(Pull(s, x), x) == Pull(s, x)
  {
    PullAbsent(Pull(s, x), x);
  }

  /** `$pull` keeps an array free of duplicates. */
  lemma {:induction false} PullKeepsNoDup(s: seq<UserId>, x: UserId)
    requires NoDup(s)
    ensures NoDup(Pull(s, x))
  {
    if s != [] {
      assert NoDup(s[1..]) by {
        forall i, j | 0 <= i < j < |s[1..]| ensures s[1..][i] != s[1..][j] {
          assert s[1..][i] == s[i + 1] && s[1..][j] == s[j + 1];
        }
      }
      PullKeepsNoDup(s[1..], x);
      if s[0] != x {
        var t := Pull(s[1..], x);
        assert s[0] !in s[1..] by {
          forall k | 0 <= k < |s[1..]| ensures s[1..][k] != s[0] {
            assert s[1..][k] == s[k + 1];
          }
        }
        assert s[0] !in t;
        var r := [s[0]] + t;
        forall i, j | 0 <= i < j < |r| ensures r[i] != r[j] {
          if i == 0 {
            assert r[j] == t[j - 1];
            assert r[j] in t;
          } else {
            assert r[i] == t[i - 1] && r[j] == t[j - 1];
          }
        }
      }
    }
  }

  /** A second `$addToSet` of the same element is a no-op. */
  lemma AddToSetIdempotent(s: seq<UserId>, x: UserId)
    ensures AddToSet(AddToSet(s, x), x) == AddToSet(s, x)
  {
  }
}

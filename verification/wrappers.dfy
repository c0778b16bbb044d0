/** The optional value used wherever the source stores `None` or an object,
    and the removal `kill()` performs on a sprite group. */
module Wrappers {
  datatype Option<T> = None | Some(value: T)

  /** s with every occurrence of e removed and the rest kept in order: what
      `kill()` does to a sprite group. */
  function Without<T(==)>(s: seq<T>, e: T): (r: seq<T>)
    ensures |r| <= |s|
    ensures forall x :: x in r ==> x in s && x != e
    ensures forall x :: x in s && x != e ==> x in r
    ensures e !in s ==> r == s
  {
    if s == [] then []
    else if s[0] == e then Without(s[1..], e)
    else [s[0]] + Without(s[1..], e)
  }

  /** No element of s occurs twice, as in a sprite group. */
  predicate Distinct<T(==)>(s: seq<T>)
  {
    forall i, j :: 0 <= i < j < |s| ==> s[i] != s[j]
  }

  /** `kill()` of a member of a group that holds each sprite once removes
      exactly one entry, and the group still holds each sprite once. */
  lemma {:induction false} WithoutMember<T>(s: seq<T>, e: T)
    requires Distinct(s) && e in s
    ensures |Without(s, e)| == |s| - 1 && Distinct(Without(s, e))
  {
    if s[0] == e {
      assert e !in s[1..];
    } else {
      assert Distinct(s[1..]);
      WithoutMember(s[1..], e);
      var r := Without(s[1..], e);
      forall i, j | 0 <= i < j < |[s[0]] + r| ensures ([s[0]] + r)[i] != ([s[0]] + r)[j] {
        if i == 0 {
          assert ([s[0]] + r)[j] in s[1..];
        }
      }
    }
  }
}

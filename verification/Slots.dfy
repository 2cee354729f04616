/** Fixed arrays of slots that may be in use: how the tables of the source find and count them. */
module Slots {
  import opened Wrappers

  // The first slot that satisfies p, as the slot scans find it.
  function First<T>(s: seq<T>, p: T -> bool): (r: Option<nat>)
    ensures r.Some? ==> r.value < |s| && p(s[r.value]) && forall k :: 0 <= k < r.value ==> !p(s[k])
    ensures r.None? ==> forall k :: 0 <= k < |s| ==> !p(s[k])
  {
    if |s| == 0 then None
    else if p(s[0]) then Some(0)
    else match First(s[1..], p)
      case Some(i) => assert forall k :: 0 < k <= i ==> s[k] == s[1..][k - 1]; Some(i + 1)
      case None => assert forall k :: 0 < k < |s| ==> s[k] == s[1..][k - 1]; None
  }

  function Count<T>(s: seq<T>, p: T -> bool): nat {
    if |s| == 0 then 0 else Count(s[..|s| - 1], p) + (if p(s[|s| - 1]) then 1 else 0)
  }

  lemma {:induction false} CountUpdate<T>(s: seq<T>, p: T -> bool, i: nat, e: T)
    requires i < |s|
    ensures Count(s[i := e], p) == Count(s, p) - (if p(s[i]) then 1 else 0) + (if p(e) then 1 else 0)
  {
    var n := |s| - 1;
    if i == n {
      assert s[i := e][..n] == s[..n];
    } else {
      assert s[i := e][..n] == s[..n][i := e];
      CountUpdate(s[..n], p, i, e);
    }
  }

  // Bounds, and what the extreme counts mean.
  lemma {:induction false} CountBounds<T>(s: seq<T>, p: T -> bool)
    ensures 0 <= Count(s, p) <= |s|
    ensures Count(s, p) == 0 <==> forall i :: 0 <= i < |s| ==> !p(s[i])
    ensures Count(s, p) == |s| <==> forall i :: 0 <= i < |s| ==> p(s[i])
  {
    if |s| > 0 {
      var n := |s| - 1;
      CountBounds(s[..n], p);
      assert forall i :: 0 <= i < n ==> s[..n][i] == s[i];
      if p(s[n]) && Count(s[..n], p) < n {
        var i :| 0 <= i < n && !p(s[..n][i]);
        assert !p(s[i]);
      }
      if !p(s[n]) && Count(s[..n], p) > 0 {
        var i :| 0 <= i < n && p(s[..n][i]);
        assert p(s[i]);
      }
    }
  }

  lemma CountStep<T>(s: seq<T>, p: T -> bool, n: nat)
    requires n < |s|
    ensures Count(s[..n + 1], p) == Count(s[..n], p) + (if p(s[n]) then 1 else 0)
  {
    assert s[..n + 1][..n] == s[..n];
  }
}

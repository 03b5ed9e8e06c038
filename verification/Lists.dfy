/** Work lists that are removed from by moving the last element into the hole. */
module Lists {

  // `v[k] = v.back(); v.pop_back();`
  function SwapOut<T>(s: seq<T>, k: nat): seq<T>
    requires k < |s|
  {
    s[k := s[|s| - 1]][..|s| - 1]
  }

  ghost predicate Distinct<T>(s: seq<T>) {
    forall i, j | 0 <= i < j < |s| :: s[i] != s[j]
  }

  // Removal loses nothing but the one occurrence, and invents nothing.
  lemma SwapOutMembers<T>(s: seq<T>, k: nat)
    requires k < |s|
    ensures forall x | x in s && x != s[k] :: x in SwapOut(s, k)
    ensures forall x | x in SwapOut(s, k) :: x in s
  {
    var r := SwapOut(s, k);
    forall x | x in s && x != s[k] ensures x in r {
      var i :| 0 <= i < |s| && s[i] == x;
      assert if i == |s| - 1 then r[k] == x else r[i] == x;
    }
  }

  lemma SwapOutDistinct<T>(s: seq<T>, k: nat)
    requires k < |s| && Distinct(s)
    ensures Distinct(SwapOut(s, k))
    ensures s[k] !in SwapOut(s, k)
    ensures forall x :: x in SwapOut(s, k) <==> x in s && x != s[k]
  {
    SwapOutMembers(s, k);
  }

  lemma PushDistinct<T>(s: seq<T>, x: T)
    requires Distinct(s) && x !in s
    ensures Distinct(s + [x])
  {
  }
}

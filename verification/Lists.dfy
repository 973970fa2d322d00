/** The places in a list at which something holds, in order. */
module Lists {
  ghost predicate Places<T>(s: seq<T>, p: T -> bool, at: seq<nat>)
  {
    && (forall k :: 0 <= k < |at| ==> at[k] < |s| && p(s[at[k]]))
    && (forall k, l :: 0 <= k < l < |at| ==> at[k] < at[l])
    && forall i :: 0 <= i < |s| && p(s[i]) ==> i in at
  }

  lemma NoPlace<T>(s: seq<T>, p: T -> bool)
    requires s == []
    ensures Places(s, p, [])
  {
  }

  lemma OneMorePlace<T>(s: seq<T>, p: T -> bool, at: seq<nat>)
    requires s != [] && Places(s[..|s| - 1], p, at)
    ensures Places(s, p, if p(s[|s| - 1]) then at + [|s| - 1] else at)
  {
    var n := |s| - 1;
    var next := if p(s[n]) then at + [n] else at;
    forall k | 0 <= k < |next| ensures next[k] < |s| && p(s[next[k]])
    {
      if k < |at| { assert s[..n][at[k]] == s[at[k]]; }
    }
    forall i | 0 <= i < |s| && p(s[i]) ensures i in next
    {
      if i < n { assert s[..n][i] == s[i]; }
    }
  }
}

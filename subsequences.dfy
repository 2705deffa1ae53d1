/** Order-preserving subsequences, shared by the follow-list filters and the gallery filter. */
module Subsequences {

  /** r picks elements of s at the strictly increasing positions idx. */
  ghost predicate SubsequenceAt<T>(r: seq<T>, s: seq<T>, idx: seq<int>) {
    && |idx| == |r|
    && (forall k | 0 <= k < |idx| :: 0 <= idx[k] < |s| && r[k] == s[idx[k]])
    && (forall k, l | 0 <= k < l < |idx| :: idx[k] < idx[l])
  }

  ghost predicate IsSubsequence<T>(r: seq<T>, s: seq<T>) {
    exists idx :: SubsequenceAt(r, s, idx)
  }

  lemma SubsequenceReflexive<T>(s: seq<T>)
    ensures IsSubsequence(s, s)
  {
    var idx := seq(|s|, k => k);
    assert SubsequenceAt(s, s, idx);
  }

  /** Positions in s[1..] become positions in s, each one further on. */
  lemma ShiftIndices<T>(r: seq<T>, s: seq<T>, idx: seq<int>) returns (shifted: seq<int>)
    requires s != [] && SubsequenceAt(r, s[1..], idx)
    ensures SubsequenceAt(r, s, shifted)
    ensures forall k | 0 <= k < |shifted| :: 1 <= shifted[k]
  {
    shifted := seq(|idx|, k requires 0 <= k < |idx| => idx[k] + 1);
    forall k | 0 <= k < |shifted| ensures 0 <= shifted[k] < |s| && r[k] == s[shifted[k]] {
      assert s[1..][idx[k]] == s[idx[k] + 1];
    }
  }

  /** A subsequence of the tail of s, with its positions moved one to the right, is one of s; so is it with s[0] in front. */
  lemma ShiftSubsequence<T>(r: seq<T>, s: seq<T>, idx: seq<int>) returns (shifted: seq<int>)
    requires s != [] && SubsequenceAt(r, s[1..], idx)
    ensures SubsequenceAt(r, s, shifted)
    ensures SubsequenceAt([s[0]] + r, s, [0] + shifted)
  {
    shifted := ShiftIndices(r, s, idx);
    var r', idx' := [s[0]] + r, [0] + shifted;
    forall k | 0 < k < |idx'| ensures 0 <= idx'[k] < |s| && r'[k] == s[idx'[k]] {
      assert idx'[k] == shifted[k - 1] && r'[k] == r[k - 1];
    }
    forall k, l | 0 <= k < l < |idx'| ensures idx'[k] < idx'[l] {
      if k > 0 {
        assert idx'[k] == shifted[k - 1];
      }
      assert idx'[l] == shifted[l - 1];
    }
  }
}

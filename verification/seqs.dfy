/** Counting and ordering facts about sequences used by several components. */
module Seqs {

  /** How many entries are true. */
  function CountTrue(bs: seq<bool>): (n: nat)
    ensures n <= |bs|
  {
    if bs == [] then 0 else (if bs[0] then 1 else 0) + CountTrue(bs[1..])
  }

  /** `sub` is `full` with some elements deleted and the rest kept in order. */
  predicate IsSubsequence<T(==)>(sub: seq<T>, full: seq<T>)
    decreases |full|
  {
    if sub == [] then true
    else if full == [] then false
    else if sub[0] == full[0] then IsSubsequence(sub[1..], full[1..])
    else IsSubsequence(sub, full[1..])
  }

  /** A row of `n` flags in which exactly the first `k` are set holds
      `k` set flags, clamped to `0..n`. */
  lemma {:induction false} CountPrefixFlags(n: nat, k: int)
    ensures CountTrue(seq(n, i => i < k)) == (if k <= 0 then 0 else if k >= n then n else k)
  {
    if n > 0 {
      CountPrefixFlags(n - 1, k - 1);
      assert seq(n, i => i < k)[1..] == seq(n - 1, i => i < k - 1);
    }
  }

  /** A row of `n` flags in which only position `k` is set holds one set
      flag when `k` is a position of the row, and none otherwise. */
  lemma {:induction false} CountSingleFlag(n: nat, k: int)
    ensures CountTrue(seq(n, i => i == k)) == (if 0 <= k < n then 1 else 0)
  {
    if n > 0 {
      CountSingleFlag(n - 1, k - 1);
      assert seq(n, i => i == k)[1..] == seq(n - 1, i => i == k - 1);
    }
  }

  lemma {:induction false} SubsequenceOfItself<T>(s: seq<T>)
    ensures IsSubsequence(s, s)
    decreases |s|
  {
    if s != [] {
      SubsequenceOfItself(s[1..]);
    }
  }

  /** Dropping the head of the longer list keeps the subsequence relation. */
  lemma {:induction false} SubsequenceOfTail<T>(sub: seq<T>, full: seq<T>)
    requires full != []
    requires IsSubsequence(sub, full[1..])
    ensures IsSubsequence(sub, full)
    decreases |full|, |sub|
  {
    if sub != [] && sub[0] == full[0] {
      SubsequenceDropHead(sub, full[1..]);
    }
  }

  /** Whatever `sub` is a subsequence of, so is `sub[1..]`. */
  lemma {:induction false} SubsequenceDropHead<T>(sub: seq<T>, full: seq<T>)
    requires sub != []
    requires IsSubsequence(sub, full)
    ensures IsSubsequence(sub[1..], full)
    decreases |full|, |sub|
  {
    if sub[0] == full[0] {
      if full[1..] != [] {
        SubsequenceOfTail(sub[1..], full);
      }
    } else {
      SubsequenceDropHead(sub, full[1..]);
      if sub[1..] != [] {
        SubsequenceOfTail(sub[1..], full);
      }
    }
  }

  /** Head and tail of a concatenation whose left part is non-empty. */
  lemma HeadTailOfAppend<T>(a: seq<T>, b: seq<T>)
    requires a != []
    ensures (a + b)[0] == a[0] && (a + b)[1..] == a[1..] + b
  {
  }
}

/** Facts about slices of concatenated sequences, used by the byte-layout
    and text-layout proofs. */
module Seqs {

  /** A sequence is its prefix followed by the rest. */
  lemma PrefixSuffix<T>(s: seq<T>, i: nat)
    requires i <= |s|
    ensures s[..i] + s[i..] == s
  {
  }

  /** The prefix of length `i + 1` is the prefix of length `i` and one more
      element. */
  lemma PrefixSnoc<T>(s: seq<T>, i: nat)
    requires i < |s|
    ensures s[..i + 1] == s[..i] + [s[i]]
  {
  }

  /** A slice that lies inside the second part of a concatenation. */
  lemma SliceRight<T>(a: seq<T>, b: seq<T>, lo: nat, hi: nat)
    requires |a| <= lo <= hi <= |a| + |b|
    ensures (a + b)[lo..hi] == b[lo - |a|..hi - |a|]
  {
  }

  /** A piece found at `start` in the second part of a concatenation is
      found `|head|` further on in the whole. */
  lemma SliceAfter<T>(whole: seq<T>, head: seq<T>, rest: seq<T>, start: nat, piece: seq<T>)
    requires whole == head + rest
    requires start + |piece| <= |rest| && rest[start..start + |piece|] == piece
    ensures |head| + start + |piece| <= |whole|
    ensures whole[|head| + start..|head| + start + |piece|] == piece
  {
    SliceRight(head, rest, |head| + start, |head| + start + |piece|);
  }
}

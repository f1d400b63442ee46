/** The string keys under which source and destination names are grouped. */
module PairKeys {
  import opened Strings

  const NUL: char := '\0'

  function PairKey(src: string, dst: string): string {
    src + [NUL] + dst
  }

  /** strings.SplitN(pk, NUL, 2), with an empty second part when there is no separator. */
  function SplitPair(pk: string): (string, string) {
    var i := FirstIndex(pk, NUL);
    if i < |pk| then (pk[..i], pk[i + 1..]) else (pk, "")
  }

  /** A pair survives joining and splitting exactly when its source name is free of NUL. */
  lemma PairRoundTrip(src: string, dst: string)
    ensures SplitPair(PairKey(src, dst)) == (src, dst) <==> NUL !in src
  {
    var pk := PairKey(src, dst);
    var i := FirstIndex(pk, NUL);
    assert pk[..|src|] == src && pk[|src|] == NUL && pk[|src| + 1..] == dst;
    assert forall k :: 0 <= k < i ==> pk[k] == pk[..i][k] != NUL;
    assert forall k :: 0 <= k < |src| ==> pk[k] == src[k];
  }

  /** Every key that holds a separator is rebuilt from its parts, so distinct keys have distinct parts. */
  lemma SplitRoundTrip(pk: string)
    requires NUL in pk
    ensures PairKey(SplitPair(pk).0, SplitPair(pk).1) == pk
  {
    var i := FirstIndex(pk, NUL);
    assert pk[..|pk|] == pk;
    assert pk == pk[..i] + [pk[i]] + pk[i + 1..];
  }

  /** Distinct pairs with NUL-free sources never share a key. */
  lemma PairKeyInjective(src: string, dst: string, src': string, dst': string)
    requires NUL !in src && NUL !in src'
    requires PairKey(src, dst) == PairKey(src', dst')
    ensures src == src' && dst == dst'
  {
    PairRoundTrip(src, dst);
    PairRoundTrip(src', dst');
  }
}

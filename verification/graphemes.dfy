/**
 * Text as the unicode_segmentation crate hands it to the name validator: a
 * sequence of extended grapheme clusters (Unicode Standard Annex #29,
 * section 3). The segmentation rules themselves are not modelled; every
 * property proved over a sequence of clusters holds for whichever
 * segmentation the annex picks.
 */
module Graphemes {

  /** One user-perceived character: a non-empty run of chars. */
  type Cluster = s: string | |s| > 0 witness "a"

  /** The string that a sequence of clusters spells out. */
  function Concat(g: seq<Cluster>): (s: string)
    ensures |s| >= |g|
  {
    if g == [] then [] else g[0] + Concat(g[1..])
  }

  /** A character occurs in the text exactly when it occurs in one of its clusters. */
  lemma {:induction false} ConcatMembership(g: seq<Cluster>, c: char)
    ensures c in Concat(g) <==> exists k :: 0 <= k < |g| && c in g[k]
  {
    if g != [] {
      ConcatMembership(g[1..], c);
      assert c in Concat(g) <==> c in g[0] || c in Concat(g[1..]);
      if c in Concat(g[1..]) {
        var k :| 0 <= k < |g[1..]| && c in g[1..][k];
        assert c in g[k + 1];
      }
      if exists k :: 0 < k < |g| && c in g[k] {
        var k :| 0 < k < |g| && c in g[k];
        assert c in g[1..][k - 1];
      }
    }
  }

  /**
   * n copies of the cluster c. This is how the annex segments c.repeat(n)
   * only when no rule joins the end of one copy to the start of the next:
   * true for a precomposed letter or a letter with a combining mark, not for
   * regional indicators, Hangul jamo or Prepend characters.
   */
  function Repeat(c: Cluster, n: nat): (g: seq<Cluster>)
    ensures |g| == n
    ensures forall k :: 0 <= k < n ==> g[k] == c
  {
    seq(n, _ => c)
  }

  /** The segmentation that puts every char in a cluster of its own. */
  function Chars(s: string): (g: seq<Cluster>)
    ensures |g| == |s|
    ensures Concat(g) == s
  {
    if s == [] then [] else [[s[0]]] + Chars(s[1..])
  }
}

/**
 * The character class and the trimming that the name validator takes from
 * Rust's standard library: char::is_whitespace and str::trim.
 */
module Unicode {

  /**
   * The White_Space property of the Unicode Character Database (PropList.txt),
   * which char::is_whitespace, and so str::trim, follow.
   */
  predicate IsWhitespace(c: char): (w: bool)
    ensures w <==> c in WhiteSpaceCodePoints
  {
    || ('\U{0009}' <= c <= '\U{000D}')
    || c == '\U{0020}'
    || c == '\U{0085}'
    || c == '\U{00A0}'
    || c == '\U{1680}'
    || ('\U{2000}' <= c <= '\U{200A}')
    || c == '\U{2028}'
    || c == '\U{2029}'
    || c == '\U{202F}'
    || c == '\U{205F}'
    || c == '\U{3000}'
  }

  /** The 25 code points of White_Space, listed one by one. */
  const WhiteSpaceCodePoints: set<char> := {
    '\U{0009}', '\U{000A}', '\U{000B}', '\U{000C}', '\U{000D}', '\U{0020}',
    '\U{0085}', '\U{00A0}', '\U{1680}',
    '\U{2000}', '\U{2001}', '\U{2002}', '\U{2003}', '\U{2004}', '\U{2005}',
    '\U{2006}', '\U{2007}', '\U{2008}', '\U{2009}', '\U{200A}',
    '\U{2028}', '\U{2029}', '\U{202F}', '\U{205F}', '\U{3000}'
  }

  /** Every character of s at an index in [lo, hi) is whitespace. */
  predicate WhitespaceBetween(s: string, lo: int, hi: int)
    requires 0 <= lo <= hi <= |s|
  {
    forall k :: lo <= k < hi ==> IsWhitespace(s[k])
  }

  predicate AllWhitespace(s: string) {
    WhitespaceBetween(s, 0, |s|)
  }

  /**
   * Where the front scan of str::trim stops: the index of the first
   * non-whitespace character at or after lo, or |s| when there is none.
   */
  function SkipWhitespaceForward(s: string, lo: int): (i: int)
    requires 0 <= lo <= |s|
    ensures lo <= i <= |s|
    ensures WhitespaceBetween(s, lo, i)
    ensures i == |s| || !IsWhitespace(s[i])
    decreases |s| - lo
  {
    if lo < |s| && IsWhitespace(s[lo]) then SkipWhitespaceForward(s, lo + 1) else lo
  }

  /**
   * Where the back scan of str::trim stops: the end of the last
   * non-whitespace character in [lo, hi), or lo when there is none.
   */
  function SkipWhitespaceBackward(s: string, lo: int, hi: int): (j: int)
    requires 0 <= lo <= hi <= |s|
    ensures lo <= j <= hi
    ensures WhitespaceBetween(s, j, hi)
    ensures j == lo || !IsWhitespace(s[j - 1])
    decreases hi - lo
  {
    if lo < hi && IsWhitespace(s[hi - 1]) then SkipWhitespaceBackward(s, lo, hi - 1) else hi
  }

  /**
   * s[i..j] is what is left of s once leading and trailing whitespace are
   * removed: everything outside it is whitespace, and it neither starts nor
   * ends with whitespace.
   */
  predicate TrimsTo(s: string, i: int, j: int) {
    && 0 <= i <= j <= |s|
    && WhitespaceBetween(s, 0, i)
    && WhitespaceBetween(s, j, |s|)
    && (i < j ==> !IsWhitespace(s[i]) && !IsWhitespace(s[j - 1]))
  }

  /**
   * str::trim: scans from the front past whitespace, then from the back,
   * never crossing the front position, and keeps what lies between.
   */
  function Trim(s: string): (r: string)
    ensures exists i, j :: TrimsTo(s, i, j) && r == s[i..j]
  {
    var i := SkipWhitespaceForward(s, 0);
    var j := SkipWhitespaceBackward(s, i, |s|);
    assert TrimsTo(s, i, j);
    s[i..j]
  }

  /** TrimsTo pins down a single substring, so Trim is determined by it. */
  lemma TrimUnique(s: string, i: int, j: int)
    requires TrimsTo(s, i, j)
    ensures Trim(s) == s[i..j]
  {
    var r := Trim(s);
    var i', j' :| TrimsTo(s, i', j') && r == s[i'..j'];
    if i < j && i' < j' {
      assert i == i' && j == j';
    }
  }

  /** The trimmed string is empty exactly when every character is whitespace. */
  lemma TrimEmptyIffAllWhitespace(s: string)
    ensures Trim(s) == [] <==> AllWhitespace(s)
  {
    var r := Trim(s);
    var i, j :| TrimsTo(s, i, j) && r == s[i..j];
    if i < j {
      assert !IsWhitespace(s[i]);
    }
  }
}

/**
 * The subscriber name smart constructor: a SubscriberName exists only for
 * text that is not blank, has at most 256 grapheme clusters and contains
 * none of the characters / ( ) " < > \ { }.
 */
module SubscriberNames {
  import opened Wrappers
  import opened Unicode
  import opened Graphemes

  /** The largest accepted length, counted in grapheme clusters. */
  const MaxGraphemes: nat := 256

  const ForbiddenCharacters: seq<char> := ['/', '(', ')', '"', '<', '>', '\\', '{', '}']

  /** What parse appends to the rejected input to form its error text. */
  const ErrorSuffix: string := " is not a valid subscriber name."

  predicate IsForbidden(c: char) {
    c in ForbiddenCharacters
  }

  /**
   * s.chars().any(..): scans the characters in order; true exactly when
   * some character of s is forbidden.
   */
  function ContainsForbidden(s: string): (b: bool)
    ensures b <==> exists c :: c in s && IsForbidden(c)
  {
    if s == [] then false
    else
      var rest := ContainsForbidden(s[1..]);
      assert forall c :: c in s <==> c == s[0] || c in s[1..];
      IsForbidden(s[0]) || rest
  }

  /** Some character of s is not whitespace. */
  predicate HasNonWhitespace(s: string) {
    !AllWhitespace(s)
  }

  /** No character of s is forbidden. */
  predicate FreeOfForbidden(s: string) {
    forall c :: c in s ==> !IsForbidden(c)
  }

  /**
   * The three rejection conditions of parse, over the raw, untrimmed text:
   * none holds exactly when some character is not whitespace, there are at
   * most MaxGraphemes clusters and no character is forbidden.
   */
  predicate IsValid(g: seq<Cluster>): (ok: bool)
    ensures ok <==>
      && HasNonWhitespace(Concat(g))
      && |g| <= MaxGraphemes
      && FreeOfForbidden(Concat(g))
  {
    var s := Concat(g);
    TrimEmptyIffAllWhitespace(s);
    var isEmptyOrWhitespace := Trim(s) == [];
    var isTooLong := |g| > MaxGraphemes;
    var containsForbiddenCharacters := ContainsForbidden(s);
    !(isEmptyOrWhitespace || isTooLong || containsForbiddenCharacters)
  }

  /** Text that parse accepts; there is no other way to obtain one. */
  type SubscriberName = g: seq<Cluster> | IsValid(g) witness (SingleLetterIsValid(); ["J"])

  lemma SingleLetterIsValid()
    ensures IsValid(["J"])
  {
    var g: seq<Cluster> := ["J"];
    assert g[1..] == [];
    assert Concat(g) == "J";
    TrimEmptyIffAllWhitespace("J");
    assert !IsWhitespace("J"[0]);
    assert !IsForbidden('J');
    assert "J"[1..] == [];
    assert !ContainsForbidden("J");
  }

  /**
   * SubscriberName::parse. Accepts exactly the text with a non-whitespace
   * character, at most MaxGraphemes clusters and no forbidden character,
   * wrapping it unchanged; anything else gets the error text naming it.
   */
  function Parse(g: seq<Cluster>): (r: Result<SubscriberName, string>)
    ensures r.Ok? <==>
      && HasNonWhitespace(Concat(g))
      && |g| <= MaxGraphemes
      && FreeOfForbidden(Concat(g))
    ensures r.Ok? ==> r.value == g
    ensures r.Err? ==> r.error == Concat(g) + ErrorSuffix
  {
    if IsValid(g) then Ok(g) else Err(Concat(g) + ErrorSuffix)
  }

  /** AsRef<str>::as_ref: the text a name wraps, which is never blank and never holds a forbidden character. */
  function AsRef(n: SubscriberName): (s: string)
    ensures HasNonWhitespace(s) && FreeOfForbidden(s)
  {
    Concat(n)
  }

  /** On success the wrapped name reads back as exactly the input text: nothing is trimmed or normalised. */
  lemma ParseThenAsRef(g: seq<Cluster>)
    requires Parse(g).Ok?
    ensures AsRef(Parse(g).value) == Concat(g)
  {
  }

  /** Every SubscriberName is something parse returns, and parsing it again gives it back. */
  lemma AsRefThenParse(n: SubscriberName)
    ensures Parse(n) == Ok(n)
  {
  }

  /** Blank text, empty or whitespace only, is rejected with the error naming it. */
  lemma RejectsBlank(g: seq<Cluster>)
    requires AllWhitespace(Concat(g))
    ensures Parse(g) == Err(Concat(g) + ErrorSuffix)
  {
  }

  /** The empty string is blank, so it is rejected and the error text is the suffix alone. */
  lemma RejectsEmpty()
    ensures Parse([]) == Err(ErrorSuffix)
  {
    assert Concat([]) + ErrorSuffix == ErrorSuffix;
    RejectsBlank([]);
  }

  /** The unit test's single space is rejected. */
  lemma RejectsSpace()
    ensures Parse([" "]) == Err(" " + ErrorSuffix)
  {
    assert Concat([" "]) == " ";
    RejectsBlank([" "]);
  }

  /** A forbidden character at any position of the raw text, inside leading or trailing whitespace included, rejects. */
  lemma RejectsForbiddenAnywhere(g: seq<Cluster>, i: int)
    requires 0 <= i < |Concat(g)| && IsForbidden(Concat(g)[i])
    ensures Parse(g) == Err(Concat(g) + ErrorSuffix)
  {
    assert Concat(g)[i] in Concat(g);
  }

  /** The unit test's "Xa>ier". */
  lemma RejectsXaier()
    ensures Parse(Chars("Xa>ier")) == Err("Xa>ier" + ErrorSuffix)
  {
    var s := "Xa>ier";
    assert IsForbidden(s[2]);
    RejectsForbiddenAnywhere(Chars(s), 2);
  }

  /**
   * With a cluster that is not blank and holds no forbidden character,
   * a text of n such clusters is accepted exactly when 1 <= n <= MaxGraphemes:
   * the length bound is inclusive and counts clusters. This speaks of n
   * clusters; n copies of the cluster's string may segment into fewer.
   */
  lemma RepeatedClusterBoundary(c: Cluster, n: nat)
    requires HasNonWhitespace(c) && FreeOfForbidden(c)
    ensures Parse(Repeat(c, n)).Ok? <==> 1 <= n <= MaxGraphemes
  {
    var g := Repeat(c, n);
    forall x | x in Concat(g) ensures !IsForbidden(x) {
      ConcatMembership(g, x);
    }
    if n >= 1 {
      var k :| 0 <= k < |c| && !IsWhitespace(c[k]);
      ConcatMembership(g, c[k]);
      assert c[k] in g[0];
      var i :| 0 <= i < |Concat(g)| && Concat(g)[i] == c[k];
    } else {
      assert Concat(g) == [];
    }
  }

  /** The unit tests' boundary: "Ö" repeated 256 times is accepted, 257 times rejected. */
  lemma UmlautBoundary()
    ensures Parse(Repeat("Ö", 256)).Ok?
    ensures Parse(Repeat("Ö", 257)).Err?
  {
    assert !IsWhitespace("Ö"[0]);
    RepeatedClusterBoundary("Ö", 256);
    RepeatedClusterBoundary("Ö", 257);
  }

  /**
   * An O followed by a combining diaeresis is one cluster of two chars:
   * 256 of them, 512 chars, are still accepted.
   */
  lemma DecomposedUmlautsCountOnce()
    ensures |Concat(Repeat("O\U{0308}", 256))| == 512
    ensures Parse(Repeat("O\U{0308}", 256)).Ok?
  {
    assert !IsWhitespace("O\U{0308}"[0]);
    RepeatedClusterBoundary("O\U{0308}", 256);
    RepeatLength("O\U{0308}", 256);
  }

  lemma {:induction false} RepeatLength(c: Cluster, n: nat)
    ensures |Concat(Repeat(c, n))| == n * |c|
  {
    if n > 0 {
      assert Repeat(c, n)[1..] == Repeat(c, n - 1);
      RepeatLength(c, n - 1);
    }
  }

  /** The unit test's "James" is accepted and reads back unchanged. */
  lemma AcceptsJames()
    ensures Parse(Chars("James")) == Ok(Chars("James"))
    ensures AsRef(Parse(Chars("James")).value) == "James"
  {
    var s := "James";
    assert !IsWhitespace(s[0]);
    assert forall x :: x in s ==> !IsForbidden(x);
  }

  /** Surrounding whitespace does not make a name blank, and is kept in the wrapped value. */
  lemma KeepsSurroundingWhitespace()
    ensures Parse(Chars(" J ")).Ok?
    ensures AsRef(Parse(Chars(" J ")).value) == " J "
  {
    var s := " J ";
    assert !IsWhitespace(s[1]);
    assert forall x :: x in s ==> !IsForbidden(x);
  }

  /** The error text determines the rejected input: different inputs get different messages. */
  lemma ErrorNamesInput(g: seq<Cluster>, h: seq<Cluster>)
    requires Parse(g).Err? && Parse(h).Err?
    requires Parse(g).error == Parse(h).error
    ensures Concat(g) == Concat(h)
  {
    var m := Parse(g).error;
    assert Concat(g) == m[..|m| - |ErrorSuffix|];
    assert Concat(h) == m[..|m| - |ErrorSuffix|];
  }
}

/**
 * The subscriber email smart constructor. The address syntax is decided by
 * validate_email of the validator crate, which is not part of this model:
 * it is passed in as a parameter, and nothing is assumed about it except
 * where a lemma states an assumption in its requires.
 */
module SubscriberEmails {
  import opened Wrappers

  /** ValidateEmail::validate_email: the address-syntax verdict. */
  type EmailCheck = string -> bool

  /** What parse appends to the rejected input to form its error text. */
  const ErrorSuffix: string := " is not a valid subscriber email."

  /** A wrapped address; Parse builds one only for text the check accepts. */
  datatype SubscriberEmail = SubscriberEmail(address: string)

  /** AsRef<str>::as_ref: the wrapped address, which is all an address holds. */
  function AsRef(e: SubscriberEmail): (s: string)
    ensures SubscriberEmail(s) == e
  {
    e.address
  }

  /**
   * SubscriberEmail::parse: accepts exactly what the check accepts, wraps
   * the input unchanged, and otherwise returns the error text naming it.
   * Being a function of the check and the input, the verdict is the same
   * on every call.
   */
  function Parse(validateEmail: EmailCheck, s: string): (r: Result<SubscriberEmail, string>)
    ensures r.Ok? <==> validateEmail(s)
    ensures r.Ok? ==> AsRef(r.value) == s
    ensures r.Err? ==> r.error == s + ErrorSuffix
  {
    if validateEmail(s) then Ok(SubscriberEmail(s)) else Err(s + ErrorSuffix)
  }

  /** Every address parse hands out satisfies the check. */
  lemma ParsedAddressPassesCheck(validateEmail: EmailCheck, s: string)
    requires Parse(validateEmail, s).Ok?
    ensures validateEmail(AsRef(Parse(validateEmail, s).value))
  {
  }

  /** Parsing an address that reads back as one that passes the check gives that address back. */
  lemma AsRefThenParse(validateEmail: EmailCheck, e: SubscriberEmail)
    requires validateEmail(AsRef(e))
    ensures Parse(validateEmail, AsRef(e)) == Ok(e)
  {
  }

  /** The error text determines the rejected input: different inputs get different messages. */
  lemma ErrorNamesInput(validateEmail: EmailCheck, s: string, t: string)
    requires Parse(validateEmail, s).Err? && Parse(validateEmail, t).Err?
    requires Parse(validateEmail, s).error == Parse(validateEmail, t).error
    ensures s == t
  {
    var m := Parse(validateEmail, s).error;
    assert s == m[..|m| - |ErrorSuffix|];
    assert t == m[..|m| - |ErrorSuffix|];
  }

  /**
   * An assumption on the check, true of the validator crate: it accepts
   * only text with an '@' that has at least one character on each side.
   */
  ghost predicate NeedsLocalAndDomainPart(validateEmail: EmailCheck) {
    forall s :: validateEmail(s) ==> exists i :: 0 < i < |s| - 1 && s[i] == '@'
  }

  /**
   * Under that assumption the unit tests' inputs are rejected: the empty
   * string, "jaydomain.com" (no '@') and "@google.com" (no local part).
   */
  lemma RejectsTestedMalformed(validateEmail: EmailCheck)
    requires NeedsLocalAndDomainPart(validateEmail)
    ensures Parse(validateEmail, "") == Err(ErrorSuffix)
    ensures Parse(validateEmail, "jaydomain.com") == Err("jaydomain.com" + ErrorSuffix)
    ensures Parse(validateEmail, "@google.com") == Err("@google.com" + ErrorSuffix)
  {
    assert [] + ErrorSuffix == ErrorSuffix;
    var noAt := "jaydomain.com";
    assert forall i :: 0 <= i < |noAt| ==> noAt[i] != '@';
    var noLocal := "@google.com";
    assert forall i :: 0 < i < |noLocal| ==> noLocal[i] != '@';
  }
}

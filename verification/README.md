# Subscriber sign-up validators

A Dafny model of the two domain "smart constructors" of the zero2prod
newsletter service, which turn the raw strings of a sign-up form into
validated values:

- `SubscriberName::parse` (`src/domain/subscriber_name.rs`) rejects a name
  that is empty or whitespace once trimmed, that has more than 256 extended
  grapheme clusters, or that contains any of `/ ( ) " < > \ { }` anywhere in
  the raw string; otherwise it wraps the input unchanged. The rejection
  text is the input followed by `" is not a valid subscriber name."`.
- `SubscriberEmail::parse` (`src/domain/subscriber_email.rs`) wraps the
  input exactly when the `validator` crate's `validate_email` accepts it,
  and otherwise returns the input followed by
  `" is not a valid subscriber email."`.

Both values expose their string only through `AsRef<str>`.

Files and modules:

- `wrappers.dfy` (`Wrappers`): `Result`, standing for Rust's `Result<T, String>`.
- `unicode.dfy` (`Unicode`): `char::is_whitespace` as the Unicode
  `White_Space` property, written out from `PropList.txt`, and `str::trim`
  as a scan from the front followed by a scan from the back. `Trim` is characterised by `TrimsTo`:
  everything outside the kept part is whitespace, and the kept part neither
  starts nor ends with whitespace. `TrimUnique` shows that this
  characterisation determines `Trim`.
- `graphemes.dfy` (`Graphemes`): the text as a sequence of extended
  grapheme clusters (Unicode Standard Annex #29, section 3), each a
  non-empty `string`, and `Concat`, the string they spell out. The
  segmentation rules are not implemented. The name validator takes the
  already-segmented text, so every property holds for whatever segmentation
  the annex produces. `Chars` is the one-char-per-cluster segmentation. The
  annex gives this segmentation for the ASCII test inputs used here,
  because none of them contains CR LF. `Repeat(c, n)` is `n` copies of
  the cluster `c`. It is the annex's segmentation of `c.repeat(n)` only
  when adjacent copies do not join into one cluster. That holds for `Ö` and
  for `O` followed by U+0308. It fails for regional indicators, Hangul
  jamo and Prepend characters.
- `subscriber_name.dfy` (`SubscriberNames`): the three conditions of `parse`
  (`IsValid`), the type `SubscriberName` whose values are exactly the
  texts that satisfy them, `Parse`, `AsRef`, and the lemmas.
- `subscriber_email.dfy` (`SubscriberEmails`): `validate_email` is a
  parameter of type `EmailCheck`. `Parse`, `AsRef`, and lemmas relating them.

Two facts about the code shape what the model claims:

- `SubscriberEmail::parse` leaves the whole decision to `validate_email`
  (`src/domain/subscriber_email.rs:8`). The model assumes nothing about the
  domain part of an address; in particular no `.` is required.
- The `subscribe` handler in `src/routes/subscriptions.rs` passes the raw
  form fields to `insert_subscriber`. It calls neither validator, so the
  model makes no claim that validation happens before storage.

## Model

| member | source | states |
|---|---|---|
| Unicode.IsWhitespace | src/domain/subscriber_name.rs:5 | `char::is_whitespace`, which `trim` strips, holds exactly for the 25 code points of the Unicode White_Space property |
| Unicode.SkipWhitespaceForward | src/domain/subscriber_name.rs:5 | the front scan of `trim()` stops at the first non-whitespace character at or after its start, or at the end, having passed only whitespace |
| Unicode.SkipWhitespaceBackward | src/domain/subscriber_name.rs:5 | the back scan of `trim()` stops just after the last non-whitespace character of its range, or at the range's start, having passed only whitespace |
| Unicode.Trim | src/domain/subscriber_name.rs:5 | `trim()` returns a substring `s[i..j]` with only whitespace outside it and non-whitespace at both of its ends |
| Unicode.TrimUnique | src/domain/subscriber_name.rs:5 | any `i, j` meeting that description give exactly `Trim(s)`, so the description is a complete reference definition of trimming |
| Unicode.TrimEmptyIffAllWhitespace | src/domain/subscriber_name.rs:5 | `s.trim().is_empty()` holds exactly when every character of `s` is whitespace, in both directions |
| Graphemes.Concat | src/domain/subscriber_name.rs:6 | a text never has more grapheme clusters than characters |
| Graphemes.ConcatMembership | src/domain/subscriber_name.rs:8 | a character occurs in the text exactly when it occurs in one of its clusters |
| Graphemes.Chars | src/domain/subscriber_name.rs:6 | the one-char-per-cluster segmentation has as many clusters as chars and spells the string back out |
| Graphemes.Repeat | src/domain/subscriber_name.rs:34-40 | `n` copies of one cluster: exactly `n` clusters, each the given one; for `"Ö"` this is how `"Ö".repeat(n)` segments |
| SubscriberNames.ContainsForbidden | src/domain/subscriber_name.rs:7-8 | the `chars().any(..)` scan over the raw string is true exactly when one of the nine characters `/ ( ) " < > \ { }` occurs in it |
| SubscriberNames.IsValid | src/domain/subscriber_name.rs:5-10 | none of the three rejection conditions (blank after `trim`, more than 256 clusters, a forbidden character) holds exactly when some character is not whitespace, there are at most 256 clusters and no forbidden character occurs |
| SubscriberNames.Parse | src/domain/subscriber_name.rs:4-15 | Ok exactly when some character is not whitespace, there are at most 256 clusters, and no forbidden character occurs in the raw string; Ok wraps the input unchanged; Err carries the input followed by " is not a valid subscriber name." |
| SubscriberNames.AsRef | src/domain/subscriber_name.rs:18-21 | the string a name exposes always has a non-whitespace character and never a forbidden one |
| SubscriberNames.ParseThenAsRef | src/domain/subscriber_name.rs:13-20 | after a successful parse, `as_ref` returns exactly the input string, with no trimming or normalisation |
| SubscriberNames.AsRefThenParse | src/domain/subscriber_name.rs:25 | every `SubscriberName` value is accepted by `parse`, which gives the same value back, so the type holds only validated names |
| SubscriberNames.RejectsBlank | src/domain/subscriber_name.rs:5 | any empty or whitespace-only text is rejected, with the error text naming it |
| SubscriberNames.RejectsEmpty | src/domain/subscriber_name.rs:5 | the empty string is rejected, and its error text is `" is not a valid subscriber name."` alone |
| SubscriberNames.RejectsSpace | src/domain/subscriber_name.rs:44-48 | `" "` is rejected with its error text |
| SubscriberNames.RejectsForbiddenAnywhere | src/domain/subscriber_name.rs:7-8 | a forbidden character at any index of the raw string rejects, including one inside leading or trailing whitespace |
| SubscriberNames.RejectsXaier | src/domain/subscriber_name.rs:50-54 | `"Xa>ier"` is rejected |
| SubscriberNames.RepeatedClusterBoundary | src/domain/subscriber_name.rs:6 | for an admissible cluster, a text of `n` such clusters is accepted exactly when `1 <= n <= 256`, so the bound is inclusive; this is about `n` clusters, not `n` copies of a string, which may join into fewer clusters |
| SubscriberNames.UmlautBoundary | src/domain/subscriber_name.rs:32-42 | `"Ö"` repeated 256 times is accepted and 257 times rejected |
| SubscriberNames.DecomposedUmlautsCountOnce | src/domain/subscriber_name.rs:6 | 256 clusters of O plus a combining diaeresis are 512 chars and are still accepted: length counts clusters, not chars |
| SubscriberNames.AcceptsJames | src/domain/subscriber_name.rs:56-60 | `"James"`, one cluster per char, is accepted and reads back as `"James"` |
| SubscriberNames.KeepsSurroundingWhitespace | src/domain/subscriber_name.rs:5-13 | `" J "` is accepted, because trimming only decides blankness, and the wrapped value keeps the spaces |
| SubscriberNames.ErrorNamesInput | src/domain/subscriber_name.rs:11 | two rejected inputs with the same error text are the same string |
| SubscriberEmails.Parse | src/domain/subscriber_email.rs:7-13 | Ok exactly when `validate_email` accepts the input; Ok wraps the input unchanged; Err carries the input followed by " is not a valid subscriber email."; the verdict depends only on the input |
| SubscriberEmails.ParsedAddressPassesCheck | src/domain/subscriber_email.rs:4-13 | every address that `parse` returns satisfies `validate_email` |
| SubscriberEmails.AsRef | src/domain/subscriber_email.rs:16-20 | `as_ref` returns the whole wrapped address: wrapping the returned string again gives the same value |
| SubscriberEmails.AsRefThenParse | src/domain/subscriber_email.rs:16-20 | parsing the string an accepted address exposes gives back that same address |
| SubscriberEmails.ErrorNamesInput | src/domain/subscriber_email.rs:11 | two rejected inputs with the same error text are the same string |
| SubscriberEmails.RejectsTestedMalformed | src/domain/subscriber_email.rs:28-44 | if `validate_email` accepts only text with an `@` that has a character on each side, then `""`, `"jaydomain.com"` and `"@google.com"` are rejected with their error texts |

## Left out

- Grapheme segmentation (Unicode Standard Annex #29) is not implemented. The name validator receives the text already split into clusters. `UmlautBoundary` assumes that each precomposed `Ö` is one cluster, as rule GB999 of the annex gives for two letters in a row. `Repeat` stands for `str::repeat` only for such clusters; for regional indicators, Hangul jamo or Prepend characters, `c.repeat(n)` segments into fewer than `n` clusters, and that case is not modelled.
- SubscriberNames.RepeatedClusterBoundary: the result is about a text of `n` clusters. It does not carry over to `parse(c.repeat(n))` when copies of `c` join. For example, `"🇦".repeat(300)` is 150 clusters and is accepted.
- `validate_email` of the `validator` crate is not part of this model. It is a parameter that is left uninterpreted. The valid-email test draws random addresses from the `fake` crate, so it has no counterpart here. `Parse` still states that every address the check accepts is parsed.
- SubscriberEmails.ParsedAddressPassesCheck: Dafny has no private tuple fields without export sets. The `SubscriberEmail` constructor is therefore public in the model. The invariant is proved for every value `Parse` returns, not enforced by the type as it is for `SubscriberName`.
- Rust strings are UTF-8 bytes. The model works on sequences of Unicode scalar values (`char`), which is what `chars()`, `trim()` and the segmentation see.
- `insert_subscriber` and `subscribe` in `src/routes/subscriptions.rs`: database I/O. `insert_subscriber` is a Postgres insert with a fresh UUID and the current time, and `subscribe` maps its outcome to 200 or 500. Neither calls the validators.
- `src/email_client.rs`: HTTP I/O over `reqwest`. Its `send_email` builds a request and returns `Ok(())` without sending it.
- `src/lib.rs`, `src/startup.rs`, `src/main.rs`: router wiring, process start-up and tracing set-up.
- The `Debug` derive and the tracing attributes: they produce no behaviour beyond formatting.

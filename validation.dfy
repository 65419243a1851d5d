/** The credential checks `validateApi` and `validateUid`: single anchored regular expressions. */
module Validation {
  import opened Php

  predicate IsAlnum(c: char) {
    'a' <= c <= 'z' || 'A' <= c <= 'Z' || IsDigit(c)
  }

  predicate AllOf(s: string, cls: char -> bool) {
    forall i :: 0 <= i < |s| ==> cls(s[i])
  }

  /**
   * PCRE's `^[class]+$` without the D modifier: one or more characters of the class, and `$`
   * also matches just before a final newline.
   */
  predicate MatchesWhole(s: string, cls: char -> bool) {
    (|s| > 0 && AllOf(s, cls)) || (|s| > 1 && s[|s| - 1] == '\n' && AllOf(s[..|s| - 1], cls))
  }

  /** `preg_match('#^[0-9]+$#', $uid)`. */
  predicate ValidUid(uid: string) {
    MatchesWhole(uid, IsDigit)
  }

  /** `preg_match('#^[a-zA-Z0-9]+$#', $api)`. */
  predicate ValidApi(api: string) {
    MatchesWhole(api, IsAlnum)
  }

  /** A character outside the class anywhere but as a final newline defeats the match. */
  lemma ForeignCharRejected(s: string, cls: char -> bool, i: nat)
    requires i < |s| && !cls(s[i]) && (s[i] != '\n' || i + 1 < |s|)
    ensures !MatchesWhole(s, cls)
  {
    if |s| > 1 && s[|s| - 1] == '\n' {
      assert i < |s| - 1;
      assert s[..|s| - 1][i] == s[i];
    }
  }

  /** A key with a hyphen in it is not a valid API key. */
  lemma HyphenInKeyRejected(api: string)
    requires '-' in api
    ensures !ValidApi(api)
  {
    var i :| 0 <= i < |api| && api[i] == '-';
    ForeignCharRejected(api, IsAlnum, i);
  }

  /** A user id with a character other than a digit in it, unless a final newline, is rejected. */
  lemma NonDigitUidRejected(uid: string, i: nat)
    requires i < |uid| && !IsDigit(uid[i]) && (uid[i] != '\n' || i + 1 < |uid|)
    ensures !ValidUid(uid)
  {
    ForeignCharRejected(uid, IsDigit, i);
  }

  /** Non-empty digit strings are valid user ids. */
  lemma DigitsAccepted(uid: string)
    requires |uid| > 0 && forall i :: 0 <= i < |uid| ==> IsDigit(uid[i])
    ensures ValidUid(uid)
  {
  }

  /** Without the D modifier the pattern also accepts a user id that ends in a newline. */
  lemma TrailingNewlineAccepted()
    ensures ValidUid("42\n") && ValidApi("abc\n")
    ensures !ValidUid("42\n\n") && !ValidUid("\n")
  {
    assert "42\n\n"[..3] == "42\n";
    assert "42\n\n"[2] == '\n';
    assert "\n"[0] == '\n' && !IsDigit('\n');
  }

  /** A newline before the last character is foreign like any other character. */
  lemma InnerNewlineRejected()
    ensures !ValidUid("4\n2")
  {
    assert "4\n2"[1] == '\n' && !IsDigit('\n');
    NonDigitUidRejected("4\n2", 1);
  }
}

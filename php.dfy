/**
 * The few PHP built-ins and coercions the shelf client relies on: scalar values and their
 * conversions, `empty()` on strings, `strpos` and `strip_tags`.
 */
module Php {
  import opened Wrappers

  /** A PHP scalar, as an option value or a setter argument can hold it. */
  datatype Value = Null | Bool(b: bool) | Int(i: int) | Str(s: string)

  /** Conversion to bool (`if ($v)`): null, false, 0, "" and "0" are false, everything else true. */
  predicate Truthy(v: Value) {
    match v
    case Null => false
    case Bool(b) => b
    case Int(i) => i != 0
    case Str(s) => s != "" && s != "0"
  }

  /** `empty()` applied to a string: true for "" and for "0". */
  predicate EmptyText(s: string) {
    s == "" || s == "0"
  }

  predicate IsDigit(c: char) {
    '0' <= c <= '9'
  }

  function DigitChar(d: nat): char
    requires d < 10
  {
    "0123456789"[d]
  }

  function NatToText(n: nat): string
    decreases n
  {
    if n < 10 then [DigitChar(n)] else NatToText(n / 10) + [DigitChar(n % 10)]
  }

  /** Conversion to string (`(string)`, `sprintf('%s')`, the path argument of file functions). */
  function ToText(v: Value): string {
    match v
    case Null => ""
    case Bool(b) => if b then "1" else ""
    case Int(i) => if i < 0 then "-" + NatToText(-i) else NatToText(i)
    case Str(s) => s
  }

  /** The decimal value of the longest run of digits at the start of `s`. */
  function LeadingNumber(s: string): nat {
    LeadingNumberFrom(s, 0)
  }

  function LeadingNumberFrom(s: string, acc: nat): nat
    decreases |s|
  {
    if s != [] && IsDigit(s[0]) then LeadingNumberFrom(s[1..], acc * 10 + (s[0] as int - '0' as int))
    else acc
  }

  /** `s` without its leading whitespace. */
  function SkipSpace(s: string): string
    decreases |s|
  {
    if s != [] && IsSpace(s[0]) then SkipSpace(s[1..]) else s
  }

  /**
   * The integer a leading-numeric string stands for: leading whitespace skipped, then an
   * optional sign and the digits that follow it; 0 when no digit follows.
   */
  function LeadingInteger(s: string): int {
    var t := SkipSpace(s);
    if t != [] && t[0] == '-' then -(LeadingNumber(t[1..]) as int)
    else if t != [] && t[0] == '+' then LeadingNumber(t[1..])
    else LeadingNumber(t)
  }

  /** The number an operand of `*` turns into; a string contributes its leading integer. */
  function ToNumber(v: Value): int {
    match v
    case Null => 0
    case Bool(b) => if b then 1 else 0
    case Int(i) => i
    case Str(s) => LeadingInteger(s)
  }

  /** Reading digits that follow a run of digits continues the decimal value. */
  lemma {:induction false} LeadingNumberAppend(a: string, b: string, acc: nat)
    requires forall i :: 0 <= i < |a| ==> IsDigit(a[i])
    ensures LeadingNumberFrom(a + b, acc) == LeadingNumberFrom(b, LeadingNumberFrom(a, acc))
    decreases |a|
  {
    if a != [] {
      assert (a + b)[0] == a[0];
      assert (a + b)[1..] == a[1..] + b;
      LeadingNumberAppend(a[1..], b, acc * 10 + (a[0] as int - '0' as int));
    } else {
      assert a + b == b;
    }
  }

  lemma {:induction false} NatToTextDigits(n: nat)
    ensures |NatToText(n)| > 0
    ensures forall i :: 0 <= i < |NatToText(n)| ==> IsDigit(NatToText(n)[i])
    decreases n
  {
    if n >= 10 {
      NatToTextDigits(n / 10);
    }
  }

  /** The digits `NatToText` writes read back as the number they were written from. */
  lemma {:induction false} NatToTextReadsBack(n: nat)
    ensures LeadingNumber(NatToText(n)) == n
    decreases n
  {
    if n < 10 {
      assert NatToText(n) == [DigitChar(n)];
      assert "0123456789"[n] as int - '0' as int == n;
      assert LeadingNumberFrom([DigitChar(n)], 0) == LeadingNumberFrom([], n);
    } else {
      var d := DigitChar(n % 10);
      NatToTextDigits(n / 10);
      LeadingNumberAppend(NatToText(n / 10), [d], 0);
      NatToTextReadsBack(n / 10);
      assert "0123456789"[n % 10] as int - '0' as int == n % 10;
      assert LeadingNumberFrom([d], n / 10) == LeadingNumberFrom([], n / 10 * 10 + n % 10);
    }
  }

  /** An integer converted to a string and back is the same integer. */
  lemma IntTextRoundTrip(i: int)
    ensures ToNumber(Str(ToText(Int(i)))) == i
  {
    var n: nat := if i < 0 then -i else i;
    NatToTextReadsBack(n);
    NatToTextDigits(n);
    var t := NatToText(n);
    assert !IsSpace(t[0]) && t[0] != '-' && t[0] != '+';
    if i < 0 {
      var u := "-" + t;
      assert u[0] == '-' && !IsSpace(u[0]) && u[1..] == t;
    }
  }

  /** Leading whitespace and a sign are honoured, and text without digits reads as 0. */
  lemma LeadingIntegerExamples()
    ensures ToNumber(Str(" 12")) == 12
    ensures ToNumber(Str("-3")) == -3
    ensures ToNumber(Str("12abc")) == 12
    ensures ToNumber(Str("abc")) == 0
  {
    assert " 12"[1..] == "12" && "12"[1..] == "2" && "2"[1..] == "";
    assert "-3"[1..] == "3" && "3"[1..] == "";
    assert "12abc"[1..] == "2abc" && "2abc"[1..] == "abc";
  }


  /** `needle` occurs in `haystack` starting at index `j`. */
  predicate OccursAt(haystack: string, needle: string, j: int) {
    0 <= j && j + |needle| <= |haystack| && haystack[j..j + |needle|] == needle
  }

  /** `strpos`: the index of the first occurrence of `needle`, or None (PHP's false). */
  function StrPos(haystack: string, needle: string): (r: Option<nat>)
    ensures r.Some? ==> OccursAt(haystack, needle, r.value)
    ensures r.Some? ==> forall j :: 0 <= j < r.value ==> !OccursAt(haystack, needle, j)
    ensures r.None? ==> forall j :: !OccursAt(haystack, needle, j)
  {
    StrPosFrom(haystack, needle, 0)
  }

  function StrPosFrom(haystack: string, needle: string, k: nat): (r: Option<nat>)
    requires k <= |haystack|
    ensures r.Some? ==> k <= r.value && OccursAt(haystack, needle, r.value)
    ensures r.Some? ==> forall j :: k <= j < r.value ==> !OccursAt(haystack, needle, j)
    ensures r.None? ==> forall j :: k <= j ==> !OccursAt(haystack, needle, j)
    decreases |haystack| - k
  {
    if k + |needle| > |haystack| then None
    else if haystack[k..k + |needle|] == needle then Some(k)
    else StrPosFrom(haystack, needle, k + 1)
  }

  /** The characters C's `isspace` accepts. */
  predicate IsSpace(c: char) {
    c == ' ' || c == '\t' || c == '\n' || c == '\r' || c as int == 11 || c as int == 12
  }

  /**
   * `strip_tags` without an allow-list: a '<' that is not followed by whitespace opens a tag,
   * the next '>' closes it, and the tag is dropped; an unclosed tag runs to the end.
   */
  function StripTags(s: string): string {
    OutsideTag(s)
  }

  function OutsideTag(s: string): string
    decreases |s|
  {
    if s == [] then []
    else if s[0] == '<' && !(|s| > 1 && IsSpace(s[1])) then InsideTag(s[1..])
    else [s[0]] + OutsideTag(s[1..])
  }

  function InsideTag(s: string): string
    decreases |s|
  {
    if s == [] then []
    else if s[0] == '>' then OutsideTag(s[1..])
    else InsideTag(s[1..])
  }

  /** No tag can start in `t`: every '<' left in it is followed by whitespace. */
  predicate TagFree(t: string) {
    forall i :: 0 <= i < |t| && t[i] == '<' ==> i + 1 < |t| && IsSpace(t[i + 1])
  }

  lemma TagFreeCons(c: char, t: string)
    requires TagFree(t)
    requires c == '<' ==> |t| > 0 && IsSpace(t[0])
    ensures TagFree([c] + t)
  {
    var u := [c] + t;
    forall i | 0 <= i < |u| && u[i] == '<'
      ensures i + 1 < |u| && IsSpace(u[i + 1])
    {
      if i > 0 {
        assert u[i] == t[i - 1];
      }
    }
  }

  /** Whatever `strip_tags` returns contains no tag. */
  lemma {:induction false} StripTagsLeavesNoTag(s: string)
    ensures TagFree(StripTags(s))
  {
    OutsideLeavesNoTag(s);
  }

  lemma {:induction false} OutsideLeavesNoTag(s: string)
    ensures TagFree(OutsideTag(s))
    decreases |s|, 1
  {
    if s == [] {
    } else if s[0] == '<' && !(|s| > 1 && IsSpace(s[1])) {
      InsideLeavesNoTag(s[1..]);
    } else {
      OutsideLeavesNoTag(s[1..]);
      var rest := s[1..];
      if s[0] == '<' {
        assert rest != [] && IsSpace(rest[0]) && rest[0] != '<';
        assert OutsideTag(rest) == [rest[0]] + OutsideTag(rest[1..]);
      }
      TagFreeCons(s[0], OutsideTag(rest));
    }
  }

  lemma {:induction false} InsideLeavesNoTag(s: string)
    ensures TagFree(InsideTag(s))
    decreases |s|, 0
  {
    if s == [] {
    } else if s[0] == '>' {
      OutsideLeavesNoTag(s[1..]);
    } else {
      InsideLeavesNoTag(s[1..]);
    }
  }

  /** Text with no '<' in it passes through `strip_tags` unchanged. */
  lemma {:induction false} StripTagsKeepsPlainText(s: string)
    requires '<' !in s
    ensures StripTags(s) == s
  {
    if s != [] {
      assert s[0] != '<';
      assert '<' !in s[1..] by {
        forall i | 0 <= i < |s| - 1 ensures s[1..][i] != '<' {
          assert s[1..][i] == s[i + 1];
        }
      }
      StripTagsKeepsPlainText(s[1..]);
      assert s == [s[0]] + s[1..];
    }
  }
}

/** Option and Result, usable with `:-`. */
module Wrappers {

  datatype Option<+T> = None | Some(value: T)

  datatype Result<+T, +E> = Ok(value: T) | Err(error: E) {
    predicate IsFailure() { Err? }

    function PropagateFailure<U>(): Result<U, E>
      requires Err?
    {
      Err(error)
    }

    function Extract(): T
      requires Ok?
    {
      value
    }
  }
}

/** The exceptions the scraper can raise, as values. */
module Errors {

  /** Which parser gave up on a cell. */
  datatype Field = Days | MeetingType | SectionNumber | TimeRange | SeatsAvail | Date

  /** Why a ScraperError was raised. */
  datatype Cause =
    | Cancelled                                // the row's text contains "Cancelled"
    | Unparsable(field: Field, text: string)   // a parser found no match in the stripped text

  datatype Fault =
    | ScraperError(cause: Cause)               // errors.ScraperError: the only exception the spider catches
    | TimeOutOfRange(hour: nat, minute: nat)   // ValueError from datetime.time(hour, minute)
    | NotAnInteger(text: string)               // ValueError from int(text)
    | MissingClass                             // KeyError from tag["class"] on a row without a class attribute
    | IndexOutOfRange(index: nat)              // IndexError from a list subscript
    | NoSubjectName(value: string)             // AttributeError: .group(1) on a failed match
    | NotSerializable                          // TypeError from json.JSONEncoder.default
    | NotIterable                              // TypeError from a for loop over None

  /** Only errors.ScraperError is handled by build_item_from_group; every other fault propagates. */
  predicate Caught(f: Fault) {
    f.ScraperError?
  }
}

/** Characters and strings as Python sees them. */
module Text {

  /** str.isspace() and the `\s` class of a str regex: the Unicode whitespace characters. */
  predicate IsSpace(c: char) {
    || c == ' '
    || ('\t' <= c <= '\r')
    || ('\U{1c}' <= c <= '\U{1f}')
    || c == '\U{85}' || c == '\U{a0}' || c == '\U{1680}'
    || ('\U{2000}' <= c <= '\U{200a}')
    || c == '\U{2028}' || c == '\U{2029}' || c == '\U{202f}' || c == '\U{205f}' || c == '\U{3000}'
  }

  /** The regex class `[0-9]`. */
  predicate IsDigit(c: char) { '0' <= c <= '9' }

  /** The regex class `[A-Z]`. */
  predicate IsUpper(c: char) { 'A' <= c <= 'Z' }

  /** An ASCII letter. */
  predicate IsLetter(c: char) { IsUpper(c) || 'a' <= c <= 'z' }

  predicate AllDigits(s: string) {
    forall i :: 0 <= i < |s| ==> IsDigit(s[i])
  }

  /** Leading whitespace removed. */
  function TrimStart(s: string): (r: string)
    ensures |r| <= |s| && r == s[|s| - |r|..]
    ensures r == [] || !IsSpace(r[0])
    ensures forall i :: 0 <= i < |s| - |r| ==> IsSpace(s[i])
  {
    if s != [] && IsSpace(s[0]) then TrimStart(s[1..]) else s
  }

  /** Trailing whitespace removed. */
  function TrimEnd(s: string): (r: string)
    ensures |r| <= |s| && r == s[..|r|]
    ensures r == [] || !IsSpace(r[|r| - 1])
    ensures forall i :: |r| <= i < |s| ==> IsSpace(s[i])
  {
    if s != [] && IsSpace(s[|s| - 1]) then TrimEnd(s[..|s| - 1]) else s
  }

  /** str.strip() with no argument. */
  function Strip(s: string): (r: string)
    ensures |r| <= |s|
    ensures r == [] || (!IsSpace(r[0]) && !IsSpace(r[|r| - 1]))
  {
    TrimEnd(TrimStart(s))
  }

  /** Text with no whitespace at either end is left unchanged. */
  lemma StripUnchanged(s: string)
    requires s == [] || (!IsSpace(s[0]) && !IsSpace(s[|s| - 1]))
    ensures Strip(s) == s
  {
  }

  predicate AllSpace(s: string) {
    forall i :: 0 <= i < |s| ==> IsSpace(s[i])
  }

  /** Whitespace in front is what TrimStart removes. */
  lemma {:induction false} TrimStartPad(pad: string, s: string)
    requires AllSpace(pad)
    ensures TrimStart(pad + s) == TrimStart(s)
    decreases |pad|
  {
    if pad != [] {
      assert (pad + s)[1..] == pad[1..] + s;
      var tail := pad[1..];
      assert AllSpace(tail) by {
        forall i | 0 <= i < |tail| ensures IsSpace(tail[i]) { assert tail[i] == pad[i + 1]; }
      }
      TrimStartPad(tail, s);
    } else {
      assert pad + s == s;
    }
  }

  /** Whitespace behind is what TrimEnd removes. */
  lemma {:induction false} TrimEndPad(s: string, pad: string)
    requires AllSpace(pad)
    ensures TrimEnd(s + pad) == TrimEnd(s)
    decreases |pad|
  {
    if pad != [] {
      var n := |s + pad|;
      assert (s + pad)[..n - 1] == s + pad[..|pad| - 1];
      var init := pad[..|pad| - 1];
      assert AllSpace(init) by {
        forall i | 0 <= i < |init| ensures IsSpace(init[i]) { assert init[i] == pad[i]; }
      }
      TrimEndPad(s, init);
    } else {
      assert s + pad == s;
    }
  }

  /** Whitespace on both sides of a text with no whitespace at its ends is exactly what strip() removes. */
  lemma StripPadded(pre: string, s: string, post: string)
    requires AllSpace(pre) && AllSpace(post)
    requires s == [] || (!IsSpace(s[0]) && !IsSpace(s[|s| - 1]))
    ensures Strip(pre + s + post) == s
  {
    if s == [] {
      assert pre + s + post == pre + post;
      TrimStartPad(pre, post);
      TrimStartPad(post, []);
      assert post + [] == post;
    } else {
      assert pre + s + post == pre + (s + post);
      TrimStartPad(pre, s + post);
      assert TrimStart(s + post) == s + post;
      TrimEndPad(s, post);
    }
  }

  /** `w` starts at position i of s. */
  predicate OccursAt(s: string, w: string, i: nat) {
    i + |w| <= |s| && s[i..i + |w|] == w
  }

  /** Two strings that occur one after the other occur together. */
  lemma OccursConcat(s: string, a: string, b: string, i: nat)
    requires OccursAt(s, a, i) && OccursAt(s, b, i + |a|)
    ensures OccursAt(s, a + b, i)
  {
    assert s[i..i + |a| + |b|] == s[i..i + |a|] + s[i + |a|..i + |a| + |b|];
  }

  /** The `in` operator on strings. */
  predicate Contains(s: string, w: string) {
    exists i: nat | i <= |s| :: OccursAt(s, w, i)
  }

  /** int() of an ASCII digit string. */
  function DigitsValue(s: string): (n: nat)
    requires AllDigits(s)
  {
    if s == [] then 0 else 10 * DigitsValue(s[..|s| - 1]) + (s[|s| - 1] - '0') as nat
  }

  function DigitChar(d: nat): (c: char)
    requires d < 10
    ensures IsDigit(c) && (c - '0') as nat == d
  {
    '0' + d as char
  }

  /** str(n): the decimal numeral of n, without leading zeros. */
  function NatToString(n: nat): (s: string)
    ensures |s| > 0 && AllDigits(s)
    ensures s[0] != '0' || n == 0
  {
    if n < 10 then [DigitChar(n)] else NatToString(n / 10) + [DigitChar(n % 10)]
  }

  /** int(str(n)) == n. */
  lemma {:induction false} NatToStringValue(n: nat)
    ensures DigitsValue(NatToString(n)) == n
  {
    if n >= 10 {
      var s := NatToString(n);
      assert s[..|s| - 1] == NatToString(n / 10);
      NatToStringValue(n / 10);
    }
  }

  /** Two zero-padded digits, as "%02d" renders 0 <= n < 100. */
  function TwoDigits(n: nat): (s: string)
    requires n < 100
    ensures |s| == 2 && AllDigits(s) && DigitsValue(s) == n
  {
    var s := [DigitChar(n / 10), DigitChar(n % 10)];
    assert s[..1] == [DigitChar(n / 10)] && s[..1][..0] == [];
    assert DigitsValue(s[..1]) == n / 10;
    s
  }
}

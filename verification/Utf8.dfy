/** The byte-level text functions the transport relies on: UTF-8 validity (RFC 3629),
    Unicode white-space trimming, decimal numbers. */
module Utf8 {
  import opened Wrappers
  import opened Prelude

  type Bytes = seq<byte>

  const USIZE_MAX: nat := 0xFFFF_FFFF_FFFF_FFFF

  predicate Continuation(s: Bytes, i: nat) {
    i < |s| && 0x80 <= s[i] <= 0xBF
  }

  /** Length of the well-formed character at the front, or 0 (the table of section 4 of RFC 3629). */
  function CharLength(s: Bytes): nat {
    if s == [] then 0
    else if s[0] < 0x80 then 1
    else if 0xC2 <= s[0] <= 0xDF then (if Continuation(s, 1) then 2 else 0)
    else if 0xE0 <= s[0] <= 0xEF then
      var low := if s[0] == 0xE0 then 0xA0 else 0x80;
      var high := if s[0] == 0xED then 0x9F else 0xBF;
      if Continuation(s, 1) && low <= s[1] <= high && Continuation(s, 2) then 3 else 0
    else if 0xF0 <= s[0] <= 0xF4 then
      var low := if s[0] == 0xF0 then 0x90 else 0x80;
      var high := if s[0] == 0xF4 then 0x8F else 0xBF;
      if Continuation(s, 1) && low <= s[1] <= high && Continuation(s, 2) && Continuation(s, 3) then 4 else 0
    else 0
  }

  predicate Valid(s: Bytes) {
    s == [] || (0 < CharLength(s) <= |s| && Valid(s[CharLength(s)..]))
  }

  predicate IsAscii(s: Bytes) {
    forall i :: 0 <= i < |s| ==> s[i] < 0x80
  }

  lemma {:induction false} AsciiIsValid(s: Bytes)
    requires IsAscii(s)
    ensures Valid(s)
  {
    if s != [] { AsciiIsValid(s[1..]); }
  }

  // ---- the encoding, and what validity means ----

  /** The bytes of one character (section 3 of RFC 3629). */
  function EncodeChar(ch: char): Bytes {
    var x := ch as int;
    if x < 0x80 then [x]
    else if x < 0x800 then [0xC0 + x / 64, 0x80 + x % 64]
    else if x < 0x10000 then [0xE0 + x / 4096, 0x80 + x / 64 % 64, 0x80 + x % 64]
    else [0xF0 + x / 262144, 0x80 + x / 4096 % 64, 0x80 + x / 64 % 64, 0x80 + x % 64]
  }

  function EncodeText(t: string): Bytes {
    if t == "" then [] else EncodeChar(t[0]) + EncodeText(t[1..])
  }

  lemma EncodedLength(ch: char, rest: Bytes)
    ensures CharLength(EncodeChar(ch) + rest) == |EncodeChar(ch)|
  {
    var x := ch as int;
    if 0x800 <= x < 0x10000 {
      assert x < 0xD800 || x >= 0xE000;
    }
  }

  lemma {:induction false} EncodedIsValid(t: string)
    ensures Valid(EncodeText(t))
  {
    if t != "" {
      EncodedIsValid(t[1..]);
      EncodedLength(t[0], EncodeText(t[1..]));
      var s := EncodeText(t);
      assert s[CharLength(s)..] == EncodeText(t[1..]);
    }
  }

  lemma Decode2(a: int, b: int) returns (x: int)
    requires 0xC2 <= a <= 0xDF && 0x80 <= b <= 0xBF
    ensures 0x80 <= x < 0x800 && 0xC0 + x / 64 == a && 0x80 + x % 64 == b
  {
    x := (a - 0xC0) * 64 + (b - 0x80);
  }

  lemma Decode3(a: int, b: int, c: int) returns (x: int)
    requires 0xE0 <= a <= 0xEF && 0x80 <= b <= 0xBF && 0x80 <= c <= 0xBF
    requires (a == 0xE0 ==> b >= 0xA0) && (a == 0xED ==> b <= 0x9F)
    ensures 0x800 <= x < 0xD800 || 0xE000 <= x < 0x10000
    ensures 0xE0 + x / 4096 == a && 0x80 + x / 64 % 64 == b && 0x80 + x % 64 == c
  {
    x := (a - 0xE0) * 4096 + (b - 0x80) * 64 + (c - 0x80);
    assert x / 64 == (a - 0xE0) * 64 + (b - 0x80);
  }

  lemma Decode4(a: int, b: int, c: int, d: int) returns (x: int)
    requires 0xF0 <= a <= 0xF4 && 0x80 <= b <= 0xBF && 0x80 <= c <= 0xBF && 0x80 <= d <= 0xBF
    requires (a == 0xF0 ==> b >= 0x90) && (a == 0xF4 ==> b <= 0x8F)
    ensures 0x10000 <= x < 0x110000 && 0xF0 + x / 262144 == a
    ensures 0x80 + x / 4096 % 64 == b && 0x80 + x / 64 % 64 == c && 0x80 + x % 64 == d
  {
    x := (a - 0xF0) * 262144 + (b - 0x80) * 4096 + (c - 0x80) * 64 + (d - 0x80);
    assert x / 64 == (a - 0xF0) * 4096 + (b - 0x80) * 64 + (c - 0x80);
    assert x / 4096 == (a - 0xF0) * 64 + (b - 0x80);
  }

  lemma DecodeChar(s: Bytes) returns (ch: char)
    requires 0 < CharLength(s) <= |s|
    ensures EncodeChar(ch) == s[..CharLength(s)]
  {
    var n := CharLength(s);
    var x: int := s[0];
    if n == 2 {
      x := Decode2(s[0], s[1]);
    } else if n == 3 {
      x := Decode3(s[0], s[1], s[2]);
    } else if n == 4 {
      x := Decode4(s[0], s[1], s[2], s[3]);
    }
    ch := x as char;
  }

  lemma {:induction false} ValidIsEncoded(s: Bytes) returns (t: string)
    requires Valid(s)
    ensures EncodeText(t) == s
  {
    if s == [] {
      t := "";
    } else {
      var ch := DecodeChar(s);
      var rest := ValidIsEncoded(s[CharLength(s)..]);
      t := [ch] + rest;
    }
  }

  /** Bytes are valid exactly when they encode some text. */
  lemma ValidIffEncoded(s: Bytes)
    ensures Valid(s) <==> exists t: string :: EncodeText(t) == s
  {
    if Valid(s) { var t := ValidIsEncoded(s); }
    if t: string :| EncodeText(t) == s { EncodedIsValid(t); }
  }

  // ---- `str::trim` ----

  // The transport works on raw bytes that need not be UTF-8, so trimming is defined here on
  // the encoded white-space characters. Binding.Trim is the same function on characters, for
  // texts that are strings from the start; TextForms.TrimAgrees relates the two.

  predicate AsciiSpace(b: byte) {
    9 <= b <= 13 || b == 32
  }

  /** The white-space characters outside ASCII, by their two or three UTF-8 bytes. */
  predicate WideSpace2(a: byte, b: byte) {
    a == 0xC2 && (b == 0x85 || b == 0xA0)
  }

  predicate WideSpace3(a: byte, b: byte, c: byte) {
    || (a == 0xE1 && b == 0x9A && c == 0x80)
    || (a == 0xE2 && b == 0x80 && (0x80 <= c <= 0x8A || c == 0xA8 || c == 0xA9 || c == 0xAF))
    || (a == 0xE2 && b == 0x81 && c == 0x9F)
    || (a == 0xE3 && b == 0x80 && c == 0x80)
  }

  function LeadingSpace(s: Bytes): (n: nat)
    ensures n <= |s|
  {
    if s == [] then 0
    else if AsciiSpace(s[0]) then 1
    else if |s| >= 2 && WideSpace2(s[0], s[1]) then 2
    else if |s| >= 3 && WideSpace3(s[0], s[1], s[2]) then 3
    else 0
  }

  function TrailingSpace(s: Bytes): (n: nat)
    ensures n <= |s|
  {
    var k := |s|;
    if s == [] then 0
    else if AsciiSpace(s[k - 1]) then 1
    else if k >= 2 && WideSpace2(s[k - 2], s[k - 1]) then 2
    else if k >= 3 && WideSpace3(s[k - 3], s[k - 2], s[k - 1]) then 3
    else 0
  }

  function TrimStart(s: Bytes): Bytes {
    if LeadingSpace(s) == 0 then s else TrimStart(s[LeadingSpace(s)..])
  }

  function TrimEnd(s: Bytes): Bytes {
    if TrailingSpace(s) == 0 then s else TrimEnd(s[..|s| - TrailingSpace(s)])
  }

  function Trim(s: Bytes): Bytes {
    TrimEnd(TrimStart(s))
  }

  // ---- decimal numbers ----

  function Decimal(n: nat): Bytes {
    if n < 10 then [48 + n] else Decimal(n / 10) + [48 + n % 10]
  }

  predicate IsDigit(b: byte) {
    48 <= b <= 57
  }

  predicate AllDigits(s: Bytes) {
    forall i :: 0 <= i < |s| ==> IsDigit(s[i])
  }

  function DigitsValue(s: Bytes): nat
    requires AllDigits(s)
  {
    if s == [] then 0 else DigitsValue(s[..|s| - 1]) * 10 + (s[|s| - 1] - 48)
  }

  /** `str::parse::<usize>`: an optional plus sign, at least one digit, no overflow. */
  function ParseUsize(s: Bytes): Option<nat> {
    var digits := if s != [] && s[0] == 43 then s[1..] else s;
    if digits == [] || !AllDigits(digits) then None
    else if DigitsValue(digits) > USIZE_MAX then None
    else Some(DigitsValue(digits))
  }

  lemma {:induction false} DecimalDigits(n: nat)
    ensures Decimal(n) != [] && AllDigits(Decimal(n)) && DigitsValue(Decimal(n)) == n
  {
    if n >= 10 {
      DecimalDigits(n / 10);
      var front := Decimal(n / 10);
      assert (front + [48 + n % 10])[..|front|] == front;
    } else {
      assert DigitsValue([48 + n]) == n;
    }
  }

  /** Printing then parsing a length is the identity. */
  lemma ParseOfDecimal(n: nat)
    requires n <= USIZE_MAX
    ensures ParseUsize(Decimal(n)) == Some(n)
  {
    DecimalDigits(n);
    assert IsDigit(Decimal(n)[0]);
  }

  /** Exactly what parses: at most one plus sign, then digits and nothing else, up to the limit. */
  lemma ParseExactly(s: Bytes, n: nat)
    ensures ParseUsize(s) == Some(n) <==>
              var digits := if s != [] && s[0] == 43 then s[1..] else s;
              && digits != [] && (forall i :: 0 <= i < |digits| ==> 48 <= digits[i] <= 57)
              && DigitsValue(digits) == n <= 0xFFFF_FFFF_FFFF_FFFF
  {
  }

  /** ASCII text between ASCII non-spaces loses exactly the spaces around it. */
  lemma {:induction false} TrimAround(left: Bytes, core: Bytes, right: Bytes)
    requires core != [] && core[0] < 0x80 && !AsciiSpace(core[0])
    requires core[|core| - 1] < 0x80 && !AsciiSpace(core[|core| - 1])
    requires forall i :: 0 <= i < |left| ==> AsciiSpace(left[i])
    requires forall i :: 0 <= i < |right| ==> AsciiSpace(right[i])
    ensures Trim(left + core + right) == core
  {
    TrimStartAround(left, core + right);
    assert left + core + right == left + (core + right);
    TrimEndAround(core, right);
  }

  lemma {:induction false} TrimStartAround(left: Bytes, rest: Bytes)
    requires rest != [] && rest[0] < 0x80 && !AsciiSpace(rest[0])
    requires forall i :: 0 <= i < |left| ==> AsciiSpace(left[i])
    ensures TrimStart(left + rest) == rest
  {
    if left == [] {
      assert left + rest == rest;
      NoWideSpaceAt(rest);
    } else {
      TrimStartAround(left[1..], rest);
      assert (left + rest)[1..] == left[1..] + rest;
    }
  }

  lemma NoWideSpaceAt(s: Bytes)
    requires s != [] && s[0] < 0x80 && !AsciiSpace(s[0])
    ensures LeadingSpace(s) == 0
  {
  }

  lemma NoWideSpaceBefore(s: Bytes)
    requires s != [] && s[|s| - 1] < 0x80 && !AsciiSpace(s[|s| - 1])
    ensures TrailingSpace(s) == 0
  {
  }

  lemma {:induction false} TrimEndAround(rest: Bytes, right: Bytes)
    requires rest != [] && rest[|rest| - 1] < 0x80 && !AsciiSpace(rest[|rest| - 1])
    requires forall i :: 0 <= i < |right| ==> AsciiSpace(right[i])
    ensures TrimEnd(rest + right) == rest
  {
    if right == [] {
      assert rest + right == rest;
      NoWideSpaceBefore(rest);
    } else {
      var front := right[..|right| - 1];
      TrimEndAround(rest, front);
      var all := rest + right;
      assert all[..|all| - 1] == rest + front;
    }
  }
}

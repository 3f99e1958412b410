// Text: decimal digits and their values, and characters and their UTF-8 bytes.
module Text {
  import opened Common

  predicate IsDigit(c: char) {
    '0' <= c <= '9'
  }

  predicate AllDigits(s: string) {
    forall i :: 0 <= i < |s| ==> IsDigit(s[i])
  }

  function DigitValue(c: char): nat
    requires IsDigit(c)
  {
    c as int - '0' as int
  }

  function DigitsValue(s: string): nat
    requires AllDigits(s)
  {
    if s == "" then 0 else 10 * DigitsValue(s[..|s| - 1]) + DigitValue(s[|s| - 1])
  }

  function Digits(n: nat): string {
    if n < 10 then [('0' as int + n) as char] else Digits(n / 10) + [('0' as int + n % 10) as char]
  }

  lemma {:induction false} DigitsInverse(n: nat)
    ensures Digits(n) != "" && AllDigits(Digits(n)) && DigitsValue(Digits(n)) == n
  {
    var s := Digits(n);
    if n < 10 {
      assert s[..0] == "";
    } else {
      DigitsInverse(n / 10);
      assert s[..|s| - 1] == Digits(n / 10);
    }
  }

  // ----- zero-padded numbers

  function Zeros(k: nat): string {
    seq(k, _ => '0')
  }

  function PaddedDigits(m: nat, width: nat): string {
    var d := Digits(m);
    Zeros(if |d| < width then width - |d| else 0) + d
  }

  // `{:0w}`: the sign counts towards the width.
  function Padded(n: int, width: nat): string {
    if n < 0 then "-" + PaddedDigits(0 - n, if width > 0 then width - 1 else 0) else PaddedDigits(n, width)
  }

  lemma {:induction false} ZerosValue(k: nat, d: string)
    requires AllDigits(d)
    ensures AllDigits(Zeros(k) + d) && DigitsValue(Zeros(k) + d) == DigitsValue(d)
    decreases k + |d|
  {
    var s := Zeros(k) + d;
    if d != "" {
      ZerosValue(k, d[..|d| - 1]);
      assert s[..|s| - 1] == Zeros(k) + d[..|d| - 1];
    } else if k > 0 {
      ZerosValue(k - 1, d);
      assert s[..|s| - 1] == Zeros(k - 1) + d;
    }
  }

  lemma PaddedValue(m: nat, width: nat)
    ensures var s := PaddedDigits(m, width);
      s != "" && AllDigits(s) && DigitsValue(s) == m
  {
    DigitsInverse(m);
    ZerosValue(if |Digits(m)| < width then width - |Digits(m)| else 0, Digits(m));
  }

  // A padded number is read back from its sign and its digits.
  lemma PaddedInjective(m: int, n: int, width: nat)
    requires Padded(m, width) == Padded(n, width)
    ensures m == n
  {
    var narrow: nat := if width > 0 then width - 1 else 0;
    PaddedValue(if m < 0 then 0 - m else m, if m < 0 then narrow else width);
    PaddedValue(if n < 0 then 0 - n else n, if n < 0 then narrow else width);
    var s := Padded(m, width);
    assert s[0] == '-' <==> m < 0;
    assert s[0] == '-' <==> n < 0;
    if m < 0 {
      assert s[1..] == PaddedDigits(0 - m, narrow) == PaddedDigits(0 - n, narrow);
    }
  }

  lemma TwoDigits(n: int)
    requires 0 <= n < 100
    ensures |Padded(n, 2)| == 2 && AllDigits(Padded(n, 2)) && DigitsValue(Padded(n, 2)) == n
  {
    assert n >= 10 ==> |Digits(n / 10)| == 1;
    PaddedValue(n, 2);
  }

  // The text is a decimal number: its digits, behind a minus sign if it is
  // negative.
  predicate Reads(s: string, n: int) {
    if s != "" && s[0] == '-' then n < 0 && AllDigits(s[1..]) && DigitsValue(s[1..]) == 0 - n
    else s != "" && AllDigits(s) && DigitsValue(s) == n
  }

  lemma PaddedReads(n: int, width: nat)
    ensures Reads(Padded(n, width), n) && |Padded(n, width)| >= width
  {
    var narrow: nat := if width > 0 then width - 1 else 0;
    PaddedValue(if n < 0 then 0 - n else n, if n < 0 then narrow else width);
    if n < 0 { assert Padded(n, width)[1..] == PaddedDigits(0 - n, narrow); }
  }

  // ----- UTF-8

  predicate Ascii(c: char) {
    c as int < 128
  }

  predicate AllAscii(s: string) {
    forall i :: 0 <= i < |s| ==> Ascii(s[i])
  }

  // A byte is written as the character of the same number.
  predicate Bytes(s: string) {
    forall i :: 0 <= i < |s| ==> s[i] as int < 256
  }

  function Continuation(n: nat): char {
    (128 + n % 64) as char
  }

  // One byte for an ASCII character, two to four others for any other.
  function Encode(c: char): (r: string)
    ensures Bytes(r) && (Ascii(c) ==> r == [c])
    ensures !Ascii(c) ==> |r| >= 2 && forall i :: 0 <= i < |r| ==> !Ascii(r[i])
    ensures 128 <= c as int < 256 ==> |r| == 2
  {
    var n := c as int;
    if n < 0x80 then [c]
    else if n < 0x800 then [(192 + n / 64) as char, Continuation(n)]
    else if n < 0x10000 then [(224 + n / 4096) as char, Continuation(n / 64), Continuation(n)]
    else [(240 + n / 262144) as char, Continuation(n / 4096), Continuation(n / 64), Continuation(n)]
  }

  // The character that a byte sequence of this length stands for, by the low
  // bits of its bytes.
  function Decode(bytes: string): int {
    if |bytes| == 1 then bytes[0] as int
    else if |bytes| == 2 then bytes[0] as int % 32 * 64 + bytes[1] as int % 64
    else if |bytes| == 3 then (bytes[0] as int % 16 * 64 + bytes[1] as int % 64) * 64 + bytes[2] as int % 64
    else if |bytes| == 4 then ((bytes[0] as int % 8 * 64 + bytes[1] as int % 64) * 64 + bytes[2] as int % 64) * 64 + bytes[3] as int % 64
    else 0
  }

  lemma LowBits(n: nat)
    ensures Continuation(n) as int % 64 == n % 64 && n / 64 * 64 + n % 64 == n
  {
  }

  lemma HighBits(n: nat)
    ensures n / 64 / 64 == n / 4096 && n / 4096 / 64 == n / 262144
  {
  }

  // Decoding an encoded character gives it back.
  lemma DecodeInverse(c: char)
    ensures Decode(Encode(c)) == c as int
  {
    var n := c as int;
    LowBits(n);
    if n >= 0x800 {
      LowBits(n / 64);
      HighBits(n);
      if n >= 0x10000 { LowBits(n / 4096); }
    }
    LeadBits(n / 64, n / 4096, n / 262144);
  }

  lemma LeadBits(two: nat, three: nat, four: nat)
    ensures two < 32 ==> (192 + two) % 32 == two
    ensures three < 16 ==> (224 + three) % 16 == three
    ensures four < 8 ==> (240 + four) % 8 == four
  {
  }

  function Utf8(s: string): (r: string)
    ensures Bytes(r) && |r| >= |s|
  {
    if s == "" then "" else Encode(s[0]) + Utf8(s[1..])
  }

  // A text is its own encoding exactly when it is ASCII.
  lemma {:induction false} Utf8Exact(s: string)
    ensures Utf8(s) == s <==> AllAscii(s)
    ensures |Utf8(s)| == |s| <==> AllAscii(s)
  {
    if s != "" {
      Utf8Exact(s[1..]);
      assert AllAscii(s) <==> Ascii(s[0]) && AllAscii(s[1..]) by {
        assert forall i :: 1 <= i < |s| ==> s[i] == s[1..][i - 1];
      }
      assert s == [s[0]] + s[1..];
    }
  }

  lemma Utf8Cons(c: char, s: string)
    ensures Utf8([c] + s) == Encode(c) + Utf8(s)
  {
    assert ([c] + s)[1..] == s;
  }

  lemma {:induction false} Utf8Append(s: string, t: string)
    ensures Utf8(s + t) == Utf8(s) + Utf8(t)
  {
    if s == "" {
      assert s + t == t;
    } else {
      Utf8Append(s[1..], t);
      Regroup([s[0]], s[1..], t);
      assert [s[0]] + s[1..] == s;
      Utf8Cons(s[0], s[1..]);
      Utf8Cons(s[0], s[1..] + t);
      Regroup(Encode(s[0]), Utf8(s[1..]), Utf8(t));
    }
  }

  function NonAscii(s: string): nat {
    if s == "" then 0 else (if Ascii(s[0]) then 0 else 1) + NonAscii(s[1..])
  }

  lemma {:induction false} NonAsciiAppend(s: string, t: string)
    ensures NonAscii(s + t) == NonAscii(s) + NonAscii(t)
  {
    if s == "" {
      assert s + t == t;
    } else {
      NonAsciiAppend(s[1..], t);
      assert (s + t)[1..] == s[1..] + t;
    }
  }

  lemma {:induction false} NoneAreAscii(s: string)
    ensures NonAscii(s) == 0 <==> AllAscii(s)
  {
    if s != "" {
      NoneAreAscii(s[1..]);
      assert forall i :: 1 <= i < |s| ==> s[i] == s[1..][i - 1];
    }
  }

  predicate NoneAscii(s: string) {
    forall i :: 0 <= i < |s| ==> !Ascii(s[i])
  }

  lemma {:induction false} AllCounted(s: string)
    requires NoneAscii(s)
    ensures NonAscii(s) == |s|
  {
    if s != "" { AllCounted(s[1..]); }
  }

  // Encoding a text multiplies the characters that are not ASCII.
  lemma {:induction false} Utf8Spreads(s: string)
    ensures NonAscii(Utf8(s)) >= 2 * NonAscii(s)
  {
    if s != "" {
      Utf8Spreads(s[1..]);
      NonAsciiAppend(Encode(s[0]), Utf8(s[1..]));
      if !Ascii(s[0]) { AllCounted(Encode(s[0])); }
    }
  }

  // Encoding bytes that were taken for characters doubles those that are not
  // ASCII.
  lemma {:induction false} EncodedTwice(s: string)
    requires Bytes(s)
    ensures NonAscii(Utf8(s)) == 2 * NonAscii(s)
  {
    if s != "" {
      EncodedTwice(s[1..]);
      NonAsciiAppend(Encode(s[0]), Utf8(s[1..]));
      var e := Encode(s[0]);
      if !Ascii(s[0]) { assert e[1..] == [e[1]] && e[1..][1..] == []; } else { assert e[1..] == []; }
    }
  }
}

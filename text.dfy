/**
  Byte strings and the few Go library routines the server's core calls on
  them: decimal formatting (`fmt.Sprintf("%d")`), `strconv.Atoi` and the
  comparison `strings.ToUpper(s) == NAME` used for command dispatch.
 */
module Text {

  /** One byte of the wire protocol; a Go `string` is a sequence of these. */
  type Byte = c: char | c as int < 256 witness ' '
  type Bytes = seq<Byte>

  datatype Option<+T> = None | Some(value: T)

  predicate IsDigit(c: Byte) {
    '0' <= c <= '9'
  }

  predicate AllDigits(s: Bytes) {
    forall k :: 0 <= k < |s| ==> IsDigit(s[k])
  }

  function DigitChar(d: nat): (c: Byte)
    requires d < 10
    ensures IsDigit(c) && c as int - '0' as int == d
  {
    ('0' as int + d) as char
  }

  /** The decimal text of `n`, as `fmt.Sprintf("%d", n)` writes it. */
  function Decimal(n: nat): (r: Bytes)
    ensures |r| >= 1 && AllDigits(r)
    ensures |r| > 1 ==> r[0] != '0'
    decreases n
  {
    if n < 10 then [DigitChar(n)] else Decimal(n / 10) + [DigitChar(n % 10)]
  }

  /** The value of a non-empty run of decimal digits. */
  function DigitsValue(s: Bytes): (v: nat)
    requires AllDigits(s)
    decreases |s|
  {
    if s == [] then 0
    else DigitsValue(s[..|s| - 1]) * 10 + (s[|s| - 1] as int - '0' as int)
  }

  /** Text made only of ASCII bytes. */
  predicate IsAscii(w: Bytes) {
    forall k :: 0 <= k < |w| ==> w[k] as int < 0x80
  }

  /** The text `strconv.Atoi` accepts: an optional sign, then at least one digit. */
  predicate IsNumber(s: Bytes) {
    (|s| >= 2 && (s[0] == '-' || s[0] == '+') && AllDigits(s[1..])) || (|s| >= 1 && AllDigits(s))
  }

  /**
    `strconv.Atoi` with its error ignored, as every caller in the core does:
    an optional sign and at least one decimal digit give their value, and
    anything else gives 0.
   */
  function Atoi(s: Bytes): (v: int)
    ensures v < 0 ==> |s| >= 2 && s[0] == '-'
    ensures (s == [] || !IsDigit(s[|s| - 1])) ==> v == 0
  {
    if !IsNumber(s) then 0
    else if s[0] == '-' then -(DigitsValue(s[1..]) as int)
    else if s[0] == '+' then DigitsValue(s[1..])
    else DigitsValue(s)
  }

  lemma {:induction false} DigitsValueDecimal(n: nat)
    ensures DigitsValue(Decimal(n)) == n
    decreases n
  {
    var r := Decimal(n);
    if n >= 10 {
      DigitsValueDecimal(n / 10);
      assert r[..|r| - 1] == Decimal(n / 10);
    }
  }

  /** Reading back what `Decimal` wrote gives the number again. */
  lemma AtoiDecimal(n: nat)
    ensures Atoi(Decimal(n)) == n
  {
    DigitsValueDecimal(n);
  }

  function AsciiUpper(c: Byte): (u: Byte)
    ensures 'a' <= c <= 'z' ==> u as int == c as int - 32
    ensures !('a' <= c <= 'z') ==> u == c
  {
    if 'a' <= c <= 'z' then (c as int - 32) as char else c
  }

  predicate IsAsciiUpperWord(w: Bytes) {
    forall k :: 0 <= k < |w| ==> 'A' <= w[k] <= 'Z'
  }

  /**
    `strings.ToUpper(s) == w` for an upper-case ASCII word `w`. Each ASCII
    byte of `s` is upper-cased on its own; of the non-ASCII runes only
    U+017F (long s, bytes C5 BF) and U+0131 (dotless i, bytes C4 B1) have an
    ASCII upper case, `S` and `I`; every other non-ASCII rune or invalid
    byte upper-cases to something non-ASCII and so never matches.
   */
  predicate UpperIs(s: Bytes, w: Bytes): (b: bool)
    ensures b ==> |w| <= |s| <= 2 * |w|
    decreases |s|
  {
    if s == [] then w == []
    else if w == [] then false
    else if s[0] as int < 0x80 then AsciiUpper(s[0]) == w[0] && UpperIs(s[1..], w[1..])
    else if |s| >= 2 && s[0] as int == 0xC5 && s[1] as int == 0xBF then w[0] == 'S' && UpperIs(s[2..], w[1..])
    else if |s| >= 2 && s[0] as int == 0xC4 && s[1] as int == 0xB1 then w[0] == 'I' && UpperIs(s[2..], w[1..])
    else false
  }

  /**
    For a word of ASCII letters the comparison is the usual case-insensitive
    one: `s` matches when it has the same length and each byte upper-cases
    to the corresponding letter.
   */
  lemma {:induction false} UpperIsAscii(s: Bytes, w: Bytes)
    requires IsAsciiUpperWord(w)
    requires IsAscii(s)
    ensures UpperIs(s, w) <==> |s| == |w| && forall k :: 0 <= k < |s| ==> AsciiUpper(s[k]) == w[k]
    decreases |s|
  {
    if s != [] && w != [] {
      UpperIsAscii(s[1..], w[1..]);
      if |s| == |w| && AsciiUpper(s[0]) == w[0] && UpperIs(s[1..], w[1..]) {
        forall k | 0 <= k < |s| ensures AsciiUpper(s[k]) == w[k] {
          if k > 0 { assert s[k] == s[1..][k - 1]; }
        }
      }
      if |s| == |w| && forall k :: 0 <= k < |s| ==> AsciiUpper(s[k]) == w[k] {
        assert forall k :: 0 <= k < |s| - 1 ==> AsciiUpper(s[1..][k]) == w[1..][k];
      }
    }
  }

  /** Two different upper-case words are never matched by the same text. */
  lemma {:induction false} UpperIsUnique(s: Bytes, w1: Bytes, w2: Bytes)
    requires UpperIs(s, w1) && UpperIs(s, w2)
    ensures w1 == w2
    decreases |s|
  {
    if s != [] {
      if s[0] as int < 0x80 {
        UpperIsUnique(s[1..], w1[1..], w2[1..]);
      } else {
        UpperIsUnique(s[2..], w1[1..], w2[1..]);
      }
    }
  }
}

/** The payload encoding of the build script (`encodeData`, scripts/generate-data.js): the
    UTF-8 bytes of a string are written in base64 (section 4 of RFC 4648, with padding), every
    base64 character is replaced through a substitution table (kept when the table has no
    nonempty image for it), the result is reversed and a version prefix is put in front.
    The table and the prefix come from a configuration file outside this model, so they are
    parameters. `DecodeData` is a reference decoder used to state that nothing is lost. */
module Codec {
  import opened Wrappers

  type Byte = x: int | 0 <= x < 256

  // ---------------------------------------------------------------------------------------
  // UTF-8 (what `Buffer.from(str, 'utf-8')` produces for a string of scalar values)

  /** The one to four bytes of a code point. */
  function EncodeChar(c: char): (r: seq<Byte>)
    ensures 1 <= |r| <= 4
    ensures r[0] < 0x80 <==> |r| == 1
  {
    var n := c as int;
    if n < 0x80 then [n]
    else if n < 0x800 then [0xC0 + n / 64, 0x80 + n % 64]
    else if n < 0x10000 then [0xE0 + n / 4096, 0x80 + (n / 64) % 64, 0x80 + n % 64]
    else [0xF0 + n / 262144, 0x80 + (n / 4096) % 64, 0x80 + (n / 64) % 64, 0x80 + n % 64]
  }

  function Utf8Encode(s: string): seq<Byte> {
    if s == [] then [] else EncodeChar(s[0]) + Utf8Encode(s[1..])
  }

  predicate IsContinuation(b: Byte) {
    0x80 <= b < 0xC0
  }

  /** The code point `n` as a character, when it is one. */
  function ScalarOf(n: int): Option<char> {
    if 0 <= n < 0xD800 || 0xE000 <= n < 0x110000 then Some(n as char) else None
  }

  /** The first character of a byte sequence and the number of bytes it takes. */
  function DecodeFirst(bs: seq<Byte>): (r: Option<(char, nat)>)
    requires bs != []
    ensures r.Some? ==> 1 <= r.value.1 <= |bs|
  {
    var b0 := bs[0] as int;
    if b0 < 0x80 then Some((b0 as char, 1))
    else if 0xC0 <= b0 < 0xE0 && |bs| >= 2 && IsContinuation(bs[1]) then
      var c := ScalarOf((b0 - 0xC0) * 64 + (bs[1] as int - 0x80));
      if c.Some? then Some((c.value, 2)) else None
    else if 0xE0 <= b0 < 0xF0 && |bs| >= 3 && IsContinuation(bs[1]) && IsContinuation(bs[2]) then
      var c := ScalarOf((b0 - 0xE0) * 4096 + (bs[1] as int - 0x80) * 64 + (bs[2] as int - 0x80));
      if c.Some? then Some((c.value, 3)) else None
    else if 0xF0 <= b0 < 0xF8 && |bs| >= 4 && IsContinuation(bs[1]) && IsContinuation(bs[2])
      && IsContinuation(bs[3]) then
      var c := ScalarOf((b0 - 0xF0) * 262144 + (bs[1] as int - 0x80) * 4096 + (bs[2] as int - 0x80) * 64
                        + (bs[3] as int - 0x80));
      if c.Some? then Some((c.value, 4)) else None
    else None
  }

  function Utf8Decode(bs: seq<Byte>): Option<string>
    decreases |bs|
  {
    if bs == [] then Some([])
    else
      match DecodeFirst(bs)
      case None => None
      case Some((c, k)) =>
        match Utf8Decode(bs[k..])
        case None => None
        case Some(rest) => Some([c] + rest)
  }

  lemma DecodeFirstEncodeChar(c: char, rest: seq<Byte>)
    ensures DecodeFirst(EncodeChar(c) + rest) == Some((c, |EncodeChar(c)|))
  {
    var n := c as int;
    var e := EncodeChar(c);
    var bs := e + rest;
    assert forall i :: 0 <= i < |e| ==> bs[i] == e[i];
    if n >= 0x10000 {
      DecodeFour(bs, c);
    } else if n >= 0x800 {
      DecodeThree(bs, c);
    } else if n >= 0x80 {
      DecodeTwo(bs, c);
    }
  }

  lemma DecodeTwo(bs: seq<Byte>, c: char)
    requires 0x80 <= c as int < 0x800 && |bs| >= 2
    requires bs[0] == 0xC0 + (c as int) / 64 && bs[1] == 0x80 + (c as int) % 64
    ensures DecodeFirst(bs) == Some((c, 2))
  {
    SplitTwo(c as int);
  }

  lemma DecodeThree(bs: seq<Byte>, c: char)
    requires 0x800 <= c as int < 0x10000 && |bs| >= 3
    requires var n := c as int;
      bs[0] == 0xE0 + n / 4096 && bs[1] == 0x80 + (n / 64) % 64 && bs[2] == 0x80 + n % 64
    ensures DecodeFirst(bs) == Some((c, 3))
  {
    SplitThree(c as int);
  }

  lemma DecodeFour(bs: seq<Byte>, c: char)
    requires 0x10000 <= c as int && |bs| >= 4
    requires var n := c as int;
      bs[0] == 0xF0 + n / 262144 && bs[1] == 0x80 + (n / 4096) % 64
      && bs[2] == 0x80 + (n / 64) % 64 && bs[3] == 0x80 + n % 64
    ensures DecodeFirst(bs) == Some((c, 4))
  {
    SplitFour(c as int);
  }

  lemma SplitTwo(n: int)
    requires 0x80 <= n < 0x800
    ensures (n / 64) * 64 + n % 64 == n && 2 <= n / 64 < 32
  {
  }

  lemma SplitThree(n: int)
    requires 0x800 <= n < 0x10000
    ensures (n / 4096) * 4096 + ((n / 64) % 64) * 64 + n % 64 == n && n / 4096 < 16
  {
    var q := n / 64;
    assert n == q * 64 + n % 64;
    assert n / 4096 == q / 64;
  }

  lemma SplitFour(n: int)
    requires 0x10000 <= n < 0x110000
    ensures (n / 262144) * 262144 + ((n / 4096) % 64) * 4096 + ((n / 64) % 64) * 64 + n % 64 == n
    ensures n / 262144 < 8
  {
    var q := n / 64;
    assert n == q * 64 + n % 64;
    assert q == (q / 64) * 64 + q % 64;
    assert n / 4096 == q / 64;
    assert (q / 64) == (n / 262144) * 64 + (n / 4096) % 64;
  }

  /** Decoding the UTF-8 bytes of a string gives the string back. */
  lemma {:induction false} Utf8RoundTrip(s: string)
    ensures Utf8Decode(Utf8Encode(s)) == Some(s)
  {
    if s != [] {
      var e := EncodeChar(s[0]);
      var rest := Utf8Encode(s[1..]);
      DecodeFirstEncodeChar(s[0], rest);
      assert (e + rest)[|e|..] == rest;
      Utf8RoundTrip(s[1..]);
      assert [s[0]] + s[1..] == s;
    }
  }

  // ---------------------------------------------------------------------------------------
  // Base64, section 4 of RFC 4648

  /** The base64 digit of a six-bit value: `A`-`Z`, `a`-`z`, `0`-`9`, `+`, `/`. */
  function Digit(v: int): char
    requires 0 <= v < 64
  {
    if v < 26 then ('A' as int + v) as char
    else if v < 52 then ('a' as int + v - 26) as char
    else if v < 62 then ('0' as int + v - 52) as char
    else if v == 62 then '+'
    else '/'
  }

  /** The six-bit value of a base64 digit. */
  function DigitValue(c: char): (r: Option<int>)
    ensures r.Some? ==> 0 <= r.value < 64
  {
    if 'A' <= c <= 'Z' then Some(c as int - 'A' as int)
    else if 'a' <= c <= 'z' then Some(c as int - 'a' as int + 26)
    else if '0' <= c <= '9' then Some(c as int - '0' as int + 52)
    else if c == '+' then Some(62)
    else if c == '/' then Some(63)
    else None
  }

  lemma DigitValueOfDigit(v: int)
    requires 0 <= v < 64
    ensures DigitValue(Digit(v)) == Some(v)
  {
  }

  /** The characters base64 output can contain: the 64 digits and the pad `=`. */
  predicate IsBase64Char(c: char) {
    DigitValue(c).Some? || c == '='
  }

  /** The six-bit groups of three bytes are digit values. */
  lemma SixBitBounds(a: Byte, b: Byte, c: Byte)
    ensures 0 <= a / 4 < 64 && 0 <= (a % 4) * 16 + b / 16 < 64
    ensures 0 <= (b % 16) * 4 + c / 64 < 64 && 0 <= c % 64 < 64
  {
  }

  /** The four digits of three bytes. */
  function Quad(a: Byte, b: Byte, c: Byte): (r: string)
    ensures |r| == 4 && forall i :: 0 <= i < 4 ==> DigitValue(r[i]).Some?
  {
    SixBitBounds(a, b, c);
    var r := [Digit(a / 4), Digit((a % 4) * 16 + b / 16), Digit((b % 16) * 4 + c / 64), Digit(c % 64)];
    DigitValueOfDigit(a / 4);
    DigitValueOfDigit((a % 4) * 16 + b / 16);
    DigitValueOfDigit((b % 16) * 4 + c / 64);
    DigitValueOfDigit(c % 64);
    r
  }

  /** `Buffer.prototype.toString('base64')`: three bytes give four digits; a final one or two
      bytes give two or three digits followed by `==` or `=`. */
  function Base64Encode(bs: seq<Byte>): (r: string)
    ensures |r| % 4 == 0
    ensures forall i :: 0 <= i < |r| ==> IsBase64Char(r[i])
  {
    if |bs| >= 3 then
      var q := Quad(bs[0], bs[1], bs[2]);
      var rest := Base64Encode(bs[3..]);
      assert forall i :: 0 <= i < 4 ==> IsBase64Char(q[i]);
      assert forall i :: 4 <= i < |q + rest| ==> (q + rest)[i] == rest[i - 4];
      FourMore(|rest|);
      q + rest
    else if |bs| == 2 then PadOne(bs[0], bs[1])
    else if |bs| == 1 then PadTwo(bs[0])
    else []
  }

  lemma FourMore(n: nat)
    requires n % 4 == 0
    ensures (n + 4) % 4 == 0 && (4 + n) % 4 == 0
  {
  }

  /** Two final bytes: three digits and one `=`. */
  function PadOne(a: Byte, b: Byte): (r: string)
    ensures |r| == 4 && forall i :: 0 <= i < 4 ==> IsBase64Char(r[i])
    ensures r[3] == '=' && forall i :: 0 <= i < 3 ==> DigitValue(r[i]).Some?
  {
    SixBitBounds(a, b, 0);
    DigitValueOfDigit(a / 4);
    DigitValueOfDigit((a % 4) * 16 + b / 16);
    DigitValueOfDigit((b % 16) * 4);
    [Digit(a / 4), Digit((a % 4) * 16 + b / 16), Digit((b % 16) * 4), '=']
  }

  /** One final byte: two digits and `==`. */
  function PadTwo(a: Byte): (r: string)
    ensures |r| == 4 && forall i :: 0 <= i < 4 ==> IsBase64Char(r[i])
    ensures r[2] == '=' && r[3] == '=' && forall i :: 0 <= i < 2 ==> DigitValue(r[i]).Some?
  {
    SixBitBounds(a, 0, 0);
    DigitValueOfDigit(a / 4);
    DigitValueOfDigit((a % 4) * 16);
    [Digit(a / 4), Digit((a % 4) * 16), '=', '=']
  }

  /** Reads padded base64 back into bytes; `=` is accepted only in the final group. */
  function Base64Decode(s: string): Option<seq<Byte>>
    decreases |s|
  {
    if s == [] then Some([])
    else if |s| < 4 then None
    else
      var v0, v1, v2, v3 := DigitValue(s[0]), DigitValue(s[1]), DigitValue(s[2]), DigitValue(s[3]);
      if v0.None? || v1.None? then None
      else if |s| == 4 && s[2] == '=' && s[3] == '=' then
        Some([v0.value * 4 + v1.value / 16])
      else if v2.None? then None
      else if |s| == 4 && s[3] == '=' then
        Some([v0.value * 4 + v1.value / 16, (v1.value % 16) * 16 + v2.value / 4])
      else if v3.None? then None
      else
        match Base64Decode(s[4..])
        case None => None
        case Some(rest) =>
          Some([v0.value * 4 + v1.value / 16, (v1.value % 16) * 16 + v2.value / 4,
                (v2.value % 4) * 64 + v3.value] + rest)
  }

  /** Splitting bytes into six-bit values and joining them again is the identity. */
  lemma SixBitSplit(a: int, b: int, c: int)
    requires 0 <= a < 256 && 0 <= b < 256 && 0 <= c < 256
    ensures (a / 4) * 4 + ((a % 4) * 16 + b / 16) / 16 == a
    ensures (((a % 4) * 16 + b / 16) % 16) * 16 + ((b % 16) * 4 + c / 64) / 4 == b
    ensures (((b % 16) * 4 + c / 64) % 4) * 64 + c % 64 == c
  {
  }

  /** Four digits in front of `t` decode to the three bytes they spell, then `t`. */
  lemma DecodeGroup(d: string, t: string)
    requires |d| == 4 && forall i :: 0 <= i < 4 ==> DigitValue(d[i]).Some?
    ensures var v0, v1, v2, v3 := DigitValue(d[0]).value, DigitValue(d[1]).value,
                                  DigitValue(d[2]).value, DigitValue(d[3]).value;
      Base64Decode(d + t) ==
      (match Base64Decode(t)
       case None => None
       case Some(rest) => Some([v0 * 4 + v1 / 16, (v1 % 16) * 16 + v2 / 4, (v2 % 4) * 64 + v3] + rest))
  {
    var s := d + t;
    assert s[..4] == d;
    assert DigitValue(s[2]).Some? && DigitValue(s[3]).Some?;
    assert s[4..] == t;
  }

  /** The four digits of three bytes, in front of `t`, decode to those bytes and then `t`. */
  lemma DecodeFourDigits(a: Byte, b: Byte, c: Byte, t: string)
    ensures Base64Decode(Quad(a, b, c) + t) ==
      (match Base64Decode(t)
       case None => None
       case Some(rest) => Some([a, b, c] + rest))
  {
    var d := Quad(a, b, c);
    SixBitBounds(a, b, c);
    DigitValueOfDigit(a / 4);
    DigitValueOfDigit((a % 4) * 16 + b / 16);
    DigitValueOfDigit((b % 16) * 4 + c / 64);
    DigitValueOfDigit(c % 64);
    DecodeGroup(d, t);
    SixBitSplit(a, b, c);
  }

  /** The three digits and pad of two bytes decode to those bytes. */
  lemma DecodeThreeDigitsPad(a: Byte, b: Byte)
    ensures Base64Decode(PadOne(a, b)) == Some([a, b])
  {
    var d := PadOne(a, b);
    SixBitBounds(a, b, 0);
    DigitValueOfDigit(a / 4);
    DigitValueOfDigit((a % 4) * 16 + b / 16);
    DigitValueOfDigit((b % 16) * 4);
    assert d[2] != '=';
    SixBitSplit(a, b, 0);
  }

  /** The two digits and pads of one byte decode to that byte. */
  lemma DecodeTwoDigitsPad(a: Byte)
    ensures Base64Decode(PadTwo(a)) == Some([a])
  {
    DigitValueOfDigit(a / 4);
    DigitValueOfDigit((a % 4) * 16);
    SixBitSplit(a, 0, 0);
  }

  /** Decoding the base64 text of a byte sequence gives the bytes back. */
  lemma {:induction false} Base64RoundTrip(bs: seq<Byte>)
    ensures Base64Decode(Base64Encode(bs)) == Some(bs)
  {
    if |bs| >= 3 {
      DecodeFourDigits(bs[0], bs[1], bs[2], Base64Encode(bs[3..]));
      Base64RoundTrip(bs[3..]);
      assert [bs[0], bs[1], bs[2]] + bs[3..] == bs;
    } else if |bs| == 2 {
      DecodeThreeDigitsPad(bs[0], bs[1]);
      assert [bs[0], bs[1]] == bs;
    } else if |bs| == 1 {
      DecodeTwoDigitsPad(bs[0]);
      assert [bs[0]] == bs;
    }
  }

  // ---------------------------------------------------------------------------------------
  // Substitution, reversal, prefix

  /** `CHAR_MAP_ENCODE[c] || c`. */
  function Subst(table: map<char, string>, c: char): string {
    if c in table && table[c] != "" then table[c] else [c]
  }

  /** `s.split('').map(c => CHAR_MAP_ENCODE[c] || c).join('')`. */
  function MapChars(table: map<char, string>, s: string): string {
    if s == [] then [] else Subst(table, s[0]) + MapChars(table, s[1..])
  }

  /** `s.split('').reverse().join('')`. */
  function Reverse(s: string): (r: string)
    ensures |r| == |s|
    ensures forall i :: 0 <= i < |s| ==> r[i] == s[|s| - 1 - i]
  {
    seq(|s|, i requires 0 <= i < |s| => s[|s| - 1 - i])
  }

  lemma ReverseReverse(s: string)
    ensures Reverse(Reverse(s)) == s
  {
  }

  /** `encodeData(str)`. */
  function EncodeData(prefix: string, table: map<char, string>, s: string): string {
    prefix + Reverse(MapChars(table, Base64Encode(Utf8Encode(s))))
  }

  /** The table leaves one character for each base64 character. */
  ghost predicate SingleCharImages(table: map<char, string>) {
    forall c :: IsBase64Char(c) ==> |Subst(table, c)| == 1
  }

  /** `inverse` undoes the substitution on every base64 character. */
  ghost predicate Inverts(table: map<char, string>, inverse: map<char, char>) {
    SingleCharImages(table)
    && forall c :: IsBase64Char(c) ==> Unsubst(inverse, Subst(table, c)[0]) == c
  }

  function Unsubst(inverse: map<char, char>, c: char): char {
    if c in inverse then inverse[c] else c
  }

  function UnmapChars(inverse: map<char, char>, s: string): (r: string)
    ensures |r| == |s|
    ensures forall i :: 0 <= i < |s| ==> r[i] == Unsubst(inverse, s[i])
  {
    seq(|s|, i requires 0 <= i < |s| => Unsubst(inverse, s[i]))
  }

  /** The reference decoder: strip the prefix, undo the reversal and the substitution, read
      base64, read UTF-8. */
  function DecodeData(prefix: string, inverse: map<char, char>, blob: string): Option<string> {
    if |prefix| <= |blob| && blob[..|prefix|] == prefix then
      var bytes := Base64Decode(UnmapChars(inverse, Reverse(blob[|prefix|..])));
      if bytes.Some? then Utf8Decode(bytes.value) else None
    else None
  }

  /** With single-character images, the substituted text has one character per input
      character, namely its image. */
  lemma {:induction false} MapCharsPointwise(table: map<char, string>, s: string)
    requires SingleCharImages(table)
    requires forall i :: 0 <= i < |s| ==> IsBase64Char(s[i])
    ensures |MapChars(table, s)| == |s|
    ensures forall i :: 0 <= i < |s| ==> MapChars(table, s)[i] == Subst(table, s[i])[0]
  {
    if s != [] {
      MapCharsPointwise(table, s[1..]);
      assert |Subst(table, s[0])| == 1;
    }
  }

  /** Decoding an encoded string gives it back, for any table that `inverse` undoes on the
      base64 alphabet. */
  lemma DecodeEncode(prefix: string, table: map<char, string>, inverse: map<char, char>, s: string)
    requires Inverts(table, inverse)
    ensures DecodeData(prefix, inverse, EncodeData(prefix, table, s)) == Some(s)
  {
    var b := Base64Encode(Utf8Encode(s));
    var m := MapChars(table, b);
    var blob := EncodeData(prefix, table, s);
    assert blob[..|prefix|] == prefix;
    assert blob[|prefix|..] == Reverse(m);
    ReverseReverse(m);
    MapCharsPointwise(table, b);
    assert UnmapChars(inverse, m) == b;
    Base64RoundTrip(Utf8Encode(s));
    Utf8RoundTrip(s);
  }

  /** The table is injective on the base64 alphabet with single-character images. */
  ghost predicate InjectiveOnAlphabet(table: map<char, string>) {
    SingleCharImages(table)
    && forall c, d :: IsBase64Char(c) && IsBase64Char(d) && Subst(table, c) == Subst(table, d) ==> c == d
  }

  lemma MapCharsInjective(table: map<char, string>, a: string, b: string)
    requires InjectiveOnAlphabet(table)
    requires forall i :: 0 <= i < |a| ==> IsBase64Char(a[i])
    requires forall i :: 0 <= i < |b| ==> IsBase64Char(b[i])
    requires MapChars(table, a) == MapChars(table, b)
    ensures a == b
  {
    MapCharsPointwise(table, a);
    MapCharsPointwise(table, b);
    assert |a| == |b|;
    forall i | 0 <= i < |a| ensures a[i] == b[i] {
      SubstInjective(table, a[i], b[i]);
    }
  }

  /** Two alphabet characters with the same single-character image are equal. */
  lemma SubstInjective(table: map<char, string>, c: char, d: char)
    requires InjectiveOnAlphabet(table) && IsBase64Char(c) && IsBase64Char(d)
    requires Subst(table, c)[0] == Subst(table, d)[0]
    ensures c == d
  {
    assert |Subst(table, c)| == 1 && |Subst(table, d)| == 1;
    assert Subst(table, c) == Subst(table, d);
  }

  /** Distinct strings encode differently whenever the table is injective on the base64
      alphabet with single-character images: reversal and the prefix lose nothing. */
  lemma EncodeDataInjective(prefix: string, table: map<char, string>, s: string, t: string)
    requires InjectiveOnAlphabet(table)
    requires EncodeData(prefix, table, s) == EncodeData(prefix, table, t)
    ensures s == t
  {
    var bs, bt := Base64Encode(Utf8Encode(s)), Base64Encode(Utf8Encode(t));
    var ms, mt := MapChars(table, bs), MapChars(table, bt);
    var es, et := EncodeData(prefix, table, s), EncodeData(prefix, table, t);
    assert Reverse(ms) == es[|prefix|..] == et[|prefix|..] == Reverse(mt);
    ReverseReverse(ms);
    ReverseReverse(mt);
    MapCharsInjective(table, bs, bt);
    Base64RoundTrip(Utf8Encode(s));
    Base64RoundTrip(Utf8Encode(t));
    Utf8RoundTrip(s);
    Utf8RoundTrip(t);
  }
}

/**
 * The byte-level codecs the credential header goes through: Base64 as in
 * section 4 of RFC 4648, UTF-8 (how a JavaScript string becomes a Buffer) and
 * Node's 'ascii' decoding of a Buffer back into a string.
 */
module Base64 {
  import opened Wrappers

  type byte = x: int | 0 <= x < 256
  type sextet = x: int | 0 <= x < 64

  /** The character of the standard Base64 alphabet (Table 1 of RFC 4648) for a 6-bit value. */
  function CharOf(v: sextet): char {
    if v < 26 then ('A' as int + v) as char
    else if v < 52 then ('a' as int + (v - 26)) as char
    else if v < 62 then ('0' as int + (v - 52)) as char
    else if v == 62 then '+'
    else '/'
  }

  /**
   * The 6-bit value of a character. Node's decoder reads both the standard
   * alphabet and the URL-safe one of section 5 of RFC 4648.
   */
  function ValueOf(c: char): Option<sextet> {
    if 'A' <= c <= 'Z' then Some(c as int - 'A' as int)
    else if 'a' <= c <= 'z' then Some(c as int - 'a' as int + 26)
    else if '0' <= c <= '9' then Some(c as int - '0' as int + 52)
    else if c == '+' || c == '-' then Some(62)
    else if c == '/' || c == '_' then Some(63)
    else None
  }

  /** Every 6-bit value is read back from its character. */
  lemma ValueOfCharOf(v: sextet)
    ensures ValueOf(CharOf(v)) == Some(v)
  {
  }

  /** A character the encoder may emit: one of the standard alphabet, or the pad '='. */
  predicate Emitted(c: char) {
    c == '=' || exists v: sextet :: c == CharOf(v)
  }

  /** The encoder never emits a space. */
  lemma EmittedIsNotSpace(c: char)
    requires Emitted(c)
    ensures c != ' '
  {
    if c != '=' {
      var v: sextet :| c == CharOf(v);
    }
  }

  /**
   * The 6-bit groups of `b`, most significant bits first: three bytes give
   * four groups, a tail of one byte two groups, of two bytes three groups
   * (the missing low bits are zero).
   */
  function EncodeSextets(b: seq<byte>): (q: seq<sextet>)
    ensures |q| == (4 * |b| + 2) / 3
    decreases |b|
  {
    if |b| == 0 then []
    else if |b| == 1 then [b[0] / 4, b[0] % 4 * 16]
    else if |b| == 2 then [b[0] / 4, b[0] % 4 * 16 + b[1] / 16, b[1] % 16 * 4]
    else [b[0] / 4, b[0] % 4 * 16 + b[1] / 16, b[1] % 16 * 4 + b[2] / 64, b[2] % 64] + EncodeSextets(b[3..])
  }

  /** The characters of a sequence of 6-bit values. */
  function Chars(q: seq<sextet>): (s: string)
    ensures |s| == |q|
    ensures forall i :: 0 <= i < |q| ==> s[i] == CharOf(q[i])
  {
    seq(|q|, i requires 0 <= i < |q| => CharOf(q[i]))
  }

  /** The '=' padding that completes the last group of four characters. */
  function Padding(n: nat): string {
    if n % 3 == 1 then "==" else if n % 3 == 2 then "=" else ""
  }

  /** `Buffer.toString('base64')`: the characters of the 6-bit groups, padded to a multiple of four. */
  function Encode(b: seq<byte>): (s: string)
    ensures |s| == 4 * ((|b| + 2) / 3)
    ensures forall i :: 0 <= i < |s| ==> Emitted(s[i])
  {
    var q := EncodeSextets(b);
    forall i | 0 <= i < |q| ensures Emitted(Chars(q)[i]) {
      assert Chars(q)[i] == CharOf(q[i]);
    }
    Chars(q) + Padding(|b|)
  }

  /**
   * The 6-bit values Node's lenient decoder reads from `s`: it skips characters
   * outside the alphabet and stops at the first '='.
   */
  function Sextets(s: string): (q: seq<sextet>)
    ensures |q| <= |s|
    decreases |s|
  {
    if s == [] || s[0] == '=' then []
    else match ValueOf(s[0])
      case Some(v) => [v] + Sextets(s[1..])
      case None => Sextets(s[1..])
  }

  /** Four values give three bytes; a tail of three gives two, of two gives one, of one gives none. */
  function DecodeSextets(q: seq<sextet>): (b: seq<byte>)
    ensures |b| == |q| * 3 / 4
    decreases |q|
  {
    var x0: int := if |q| > 0 then q[0] else 0;
    var x1: int := if |q| > 1 then q[1] else 0;
    var x2: int := if |q| > 2 then q[2] else 0;
    var x3: int := if |q| > 3 then q[3] else 0;
    if |q| >= 4 then
      [x0 * 4 + x1 / 16, x1 % 16 * 16 + x2 / 4, x2 % 4 * 64 + x3] + DecodeSextets(q[4..])
    else if |q| == 3 then [x0 * 4 + x1 / 16, x1 % 16 * 16 + x2 / 4]
    else if |q| == 2 then [x0 * 4 + x1 / 16]
    else []
  }

  /** `Buffer.from(s, 'base64')`: never fails, whatever `s` holds, and gives at most three bytes per four characters. */
  function Decode(s: string): (b: seq<byte>)
    ensures |b| == |Sextets(s)| * 3 / 4
    ensures 4 * |b| <= 3 * |s|
  {
    DecodeSextets(Sextets(s))
  }

  /** The characters of 6-bit values, followed by padding, read back as those values. */
  lemma {:induction false} SextetsOfChars(q: seq<sextet>, pad: string)
    requires pad == [] || pad[0] == '='
    ensures Sextets(Chars(q) + pad) == q
    decreases |q|
  {
    if q != [] {
      var s := Chars(q) + pad;
      ValueOfCharOf(q[0]);
      assert s[0] == CharOf(q[0]);
      assert s[1..] == Chars(q[1..]) + pad;
      SextetsOfChars(q[1..], pad);
      assert [q[0]] + q[1..] == q;
    }
  }

  /** The bytes are read back from their 6-bit groups. */
  lemma {:induction false} DecodeEncodeSextets(b: seq<byte>)
    ensures DecodeSextets(EncodeSextets(b)) == b
    decreases |b|
  {
    if |b| >= 3 {
      var q := EncodeSextets(b);
      assert q[4..] == EncodeSextets(b[3..]);
      DecodeEncodeSextets(b[3..]);
      assert [b[0], b[1], b[2]] + b[3..] == b;
    }
  }

  /** Decoding what the encoder produced gives back the bytes (RFC 4648 round trip). */
  lemma DecodeEncode(b: seq<byte>)
    ensures Decode(Encode(b)) == b
  {
    SextetsOfChars(EncodeSextets(b), Padding(|b|));
    DecodeEncodeSextets(b);
  }

  /** `Buffer.from(s)`: the UTF-8 encoding of `s`. */
  function Utf8(s: string): (b: seq<byte>)
    ensures |s| <= |b| <= 4 * |s|
    ensures IsAscii(s) ==> |b| == |s|
    decreases |s|
  {
    if s == [] then []
    else Utf8Char(s[0]) + Utf8(s[1..])
  }

  /** The one to four UTF-8 bytes of one character. */
  function Utf8Char(c: char): (b: seq<byte>)
    ensures 1 <= |b| <= 4
    ensures (c as int < 128) == (b == [c as int])
  {
    var n := c as int;
    if n < 0x80 then [n]
    else if n < 0x800 then [0xC0 + n / 64, 0x80 + n % 64]
    else if n < 0x10000 then [0xE0 + n / 0x1000, 0x80 + n / 64 % 64, 0x80 + n % 64]
    else [0xF0 + n / 0x40000 % 8, 0x80 + n / 0x1000 % 64, 0x80 + n / 64 % 64, 0x80 + n % 64]
  }

  /** `Buffer.toString('ascii')`: each byte with its high bit cleared, read as a character. */
  function AsciiText(b: seq<byte>): (s: string)
    ensures |s| == |b|
    ensures forall i :: 0 <= i < |b| ==> s[i] as int == b[i] % 128
  {
    seq(|b|, i requires 0 <= i < |b| => (b[i] % 128) as char)
  }

  /** All characters of `s` are 7-bit ASCII. */
  predicate IsAscii(s: string) {
    forall i :: 0 <= i < |s| ==> s[i] as int < 128
  }

  /** An ASCII string survives UTF-8 encoding followed by 'ascii' decoding. */
  lemma {:induction false} AsciiOfUtf8(s: string)
    requires IsAscii(s)
    ensures Utf8(s) == seq(|s|, i requires 0 <= i < |s| => s[i] as int)
    ensures AsciiText(Utf8(s)) == s
    decreases |s|
  {
    if s != [] {
      assert IsAscii(s[1..]) by {
        forall i | 0 <= i < |s[1..]| ensures s[1..][i] as int < 128 {
          assert s[1..][i] == s[i + 1];
        }
      }
      AsciiOfUtf8(s[1..]);
      var w := seq(|s|, i requires 0 <= i < |s| => s[i] as int);
      assert Utf8Char(s[0]) == [s[0] as int];
      assert Utf8(s) == [s[0] as int] + Utf8(s[1..]);
      assert [s[0] as int] + seq(|s| - 1, i requires 0 <= i < |s| - 1 => s[1..][i] as int) == w;
    }
  }
}

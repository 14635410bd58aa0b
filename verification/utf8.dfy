/** UTF-8 as defined by the byte-sequence syntax of section 4 of RFC 3629, which is what Python's
    strict `bytes.decode('utf-8')` accepts and `str.encode('utf-8')` produces. */
module Utf8 {
  import opened Bytes

  /** UTF8-tail = %x80-BF */
  predicate IsTail(b: byte) {
    0x80 <= b <= 0xBF
  }

  /** The length of the UTF8-char a lead octet introduces, or 0 when no UTF8-char starts with it. */
  function SequenceLength(lead: byte): (n: nat)
    ensures n <= 4
  {
    if lead <= 0x7F then 1
    else if 0xC2 <= lead <= 0xDF then 2
    else if 0xE0 <= lead <= 0xEF then 3
    else if 0xF0 <= lead <= 0xF4 then 4
    else 0
  }

  /** UTF8-char = UTF8-1 / UTF8-2 / UTF8-3 / UTF8-4, one alternative per line of the RFC's grammar. */
  predicate IsChar(c: seq<byte>) {
    if |c| == 1 then
      c[0] <= 0x7F
    else if |c| == 2 then
      0xC2 <= c[0] <= 0xDF && IsTail(c[1])
    else if |c| == 3 then
      || (c[0] == 0xE0 && 0xA0 <= c[1] <= 0xBF && IsTail(c[2]))
      || (0xE1 <= c[0] <= 0xEC && IsTail(c[1]) && IsTail(c[2]))
      || (c[0] == 0xED && 0x80 <= c[1] <= 0x9F && IsTail(c[2]))
      || (0xEE <= c[0] <= 0xEF && IsTail(c[1]) && IsTail(c[2]))
    else if |c| == 4 then
      || (c[0] == 0xF0 && 0x90 <= c[1] <= 0xBF && IsTail(c[2]) && IsTail(c[3]))
      || (0xF1 <= c[0] <= 0xF3 && IsTail(c[1]) && IsTail(c[2]) && IsTail(c[3]))
      || (c[0] == 0xF4 && 0x80 <= c[1] <= 0x8F && IsTail(c[2]) && IsTail(c[3]))
    else
      false
  }

  /** The lead octet of a UTF8-char fixes its length, so splitting a sequence into UTF8-chars
      is deterministic. */
  lemma IsCharLength(c: seq<byte>)
    requires IsChar(c)
    ensures |c| == SequenceLength(c[0])
  {
  }

  /** UTF8-octets = *( UTF8-char ): the sequence splits into UTF8-chars, each found by its lead octet. */
  predicate IsUtf8(s: seq<byte>)
    decreases |s|
  {
    s == [] ||
    (var n := SequenceLength(s[0]); 0 < n <= |s| && IsChar(s[..n]) && IsUtf8(s[n..]))
  }

  /** The code point of one UTF8-char. */
  function DecodeChar(c: seq<byte>): (r: char)
    requires IsChar(c)
  {
    if |c| == 1 then
      c[0] as char
    else if |c| == 2 then
      ((c[0] as int - 0xC0) * 0x40 + (c[1] as int - 0x80)) as char
    else if |c| == 3 then
      ((c[0] as int - 0xE0) * 0x1000 + (c[1] as int - 0x80) * 0x40 + (c[2] as int - 0x80)) as char
    else
      ((c[0] as int - 0xF0) * 0x4_0000 + (c[1] as int - 0x80) * 0x1000
       + (c[2] as int - 0x80) * 0x40 + (c[3] as int - 0x80)) as char
  }

  /** `bytes.decode('utf-8')` on well-formed input. */
  function Decode(s: seq<byte>): (r: string)
    requires IsUtf8(s)
    ensures |r| <= |s|
    decreases |s|
  {
    if s == [] then []
    else
      var n := SequenceLength(s[0]);
      [DecodeChar(s[..n])] + Decode(s[n..])
  }

  /** The UTF8-char of one code point: 1 octet below U+0080, 2 below U+0800, 3 below U+10000, else 4. */
  function EncodeChar(ch: char): (r: seq<byte>)
  {
    var n := ch as int;
    if n < 0x80 then
      [n as byte]
    else if n < 0x800 then
      [(0xC0 + n / 0x40) as byte, (0x80 + n % 0x40) as byte]
    else if n < 0x1_0000 then
      [(0xE0 + n / 0x1000) as byte, (0x80 + n / 0x40 % 0x40) as byte, (0x80 + n % 0x40) as byte]
    else
      [(0xF0 + n / 0x4_0000) as byte, (0x80 + n / 0x1000 % 0x40) as byte,
       (0x80 + n / 0x40 % 0x40) as byte, (0x80 + n % 0x40) as byte]
  }

  /** `str.encode('utf-8')`. */
  function Encode(s: string): (r: seq<byte>)
  {
    if s == [] then [] else EncodeChar(s[0]) + Encode(s[1..])
  }

  /** A character is ASCII when its code point is below 0x80. */
  predicate IsAscii(s: string) {
    forall i :: 0 <= i < |s| ==> s[i] as int < 0x80
  }

  /** Every code point encodes to a well-formed UTF8-char that decodes back to it. */
  lemma EncodeCharDecodes(ch: char)
    ensures IsChar(EncodeChar(ch)) && DecodeChar(EncodeChar(ch)) == ch
  {
    var n := ch as int;
    if n < 0x80 {
    } else if n < 0x800 {
      EncodeTwo(ch);
    } else if n < 0x1_0000 {
      EncodeThree(ch);
    } else {
      EncodeFour(ch);
    }
  }

  /** The two-octet case of `EncodeCharDecodes`. */
  lemma EncodeTwo(ch: char)
    requires 0x80 <= ch as int < 0x800
    ensures IsChar(EncodeChar(ch)) && DecodeChar(EncodeChar(ch)) == ch
  {
    var n := ch as int;
    assert n == n / 0x40 * 0x40 + n % 0x40;
  }

  /** The three-octet case of `EncodeCharDecodes`. */
  lemma EncodeThree(ch: char)
    requires 0x800 <= ch as int < 0x1_0000
    ensures IsChar(EncodeChar(ch)) && DecodeChar(EncodeChar(ch)) == ch
  {
    var n := ch as int;
    assert n / 0x40 == n / 0x1000 * 0x40 + n / 0x40 % 0x40;
    assert n == n / 0x40 * 0x40 + n % 0x40;
  }

  /** The four-octet case of `EncodeCharDecodes`. */
  lemma EncodeFour(ch: char)
    requires 0x1_0000 <= ch as int
    ensures IsChar(EncodeChar(ch)) && DecodeChar(EncodeChar(ch)) == ch
  {
    var n := ch as int;
    assert n / 0x1000 == n / 0x4_0000 * 0x40 + n / 0x1000 % 0x40;
    assert n / 0x40 == n / 0x1000 * 0x40 + n / 0x40 % 0x40;
    assert n == n / 0x40 * 0x40 + n % 0x40;
  }

  /** Every well-formed UTF8-char is the encoding of the code point it decodes to. */
  lemma DecodeCharEncodes(c: seq<byte>)
    requires IsChar(c)
    ensures EncodeChar(DecodeChar(c)) == c
  {
    if |c| == 2 {
      DecodeTwo(c);
    } else if |c| == 3 {
      DecodeThree(c);
    } else if |c| == 4 {
      DecodeFour(c);
    }
  }

  /** The two-octet case of `DecodeCharEncodes`. */
  lemma DecodeTwo(c: seq<byte>)
    requires IsChar(c) && |c| == 2
    ensures EncodeChar(DecodeChar(c)) == c
  {
    var n := DecodeChar(c) as int;
    DivMod64(n, c[0] as int - 0xC0, c[1] as int - 0x80);
  }

  /** The three-octet case of `DecodeCharEncodes`. */
  lemma DecodeThree(c: seq<byte>)
    requires IsChar(c) && |c| == 3
    ensures EncodeChar(DecodeChar(c)) == c
  {
    var n := DecodeChar(c) as int;
    var hi := (c[0] as int - 0xE0) * 0x40 + (c[1] as int - 0x80);
    DivMod64(n, hi, c[2] as int - 0x80);
    DivMod64(hi, c[0] as int - 0xE0, c[1] as int - 0x80);
    assert n / 0x1000 == n / 0x40 / 0x40;
  }

  /** The four-octet case of `DecodeCharEncodes`. */
  lemma DecodeFour(c: seq<byte>)
    requires IsChar(c) && |c| == 4
    ensures EncodeChar(DecodeChar(c)) == c
  {
    var n := DecodeChar(c) as int;
    var hi := (c[0] as int - 0xF0) * 0x40 + (c[1] as int - 0x80);
    var mid := hi * 0x40 + (c[2] as int - 0x80);
    DivMod64(n, mid, c[3] as int - 0x80);
    DivMod64(mid, hi, c[2] as int - 0x80);
    DivMod64(hi, c[0] as int - 0xF0, c[1] as int - 0x80);
    assert n / 0x1000 == n / 0x40 / 0x40;
    assert n / 0x4_0000 == n / 0x1000 / 0x40;
  }

  lemma DivMod64(n: int, q: int, r: int)
    requires 0 <= r < 0x40 && n == q * 0x40 + r
    ensures n / 0x40 == q && n % 0x40 == r
  {
  }

  /** The first UTF8-char of an encoded string is the encoding of its first character. */
  lemma EncodeSplits(s: string)
    requires s != []
    ensures var e := Encode(s); var n := |EncodeChar(s[0])|;
      n == SequenceLength(e[0]) && e[..n] == EncodeChar(s[0]) && e[n..] == Encode(s[1..])
  {
    EncodeCharDecodes(s[0]);
    IsCharLength(EncodeChar(s[0]));
  }

  /** `str.encode('utf-8')` always produces well-formed UTF-8, and decoding gives the string back. */
  lemma {:induction false} EncodeDecodes(s: string)
    ensures IsUtf8(Encode(s)) && Decode(Encode(s)) == s
    decreases |s|
  {
    if s != [] {
      EncodeSplits(s);
      EncodeCharDecodes(s[0]);
      EncodeDecodes(s[1..]);
    }
  }

  /** Every well-formed UTF-8 octet sequence is the encoding of the string it decodes to. */
  lemma {:induction false} DecodeEncodes(s: seq<byte>)
    requires IsUtf8(s)
    ensures Encode(Decode(s)) == s
    decreases |s|
  {
    if s != [] {
      var n := SequenceLength(s[0]);
      var head, rest := s[..n], s[n..];
      assert s == head + rest;
      DecodeEncodesHead(s);
      var e := Encode(Decode(rest));
      DecodeEncodes(rest);
      assert e == rest;
    }
  }

  /** Re-encoding the decoded text of a well-formed sequence gives back its first UTF8-char, followed
      by the re-encoding of the decoded rest. */
  lemma DecodeEncodesHead(s: seq<byte>)
    requires IsUtf8(s) && s != []
    ensures var n := SequenceLength(s[0]);
      0 < n <= |s| && IsUtf8(s[n..]) && Encode(Decode(s)) == s[..n] + Encode(Decode(s[n..]))
  {
    var n := SequenceLength(s[0]);
    var c, rest := s[..n], s[n..];
    DecodeHead(s);
    DecodeCharEncodes(c);
    EncodeJoin(DecodeChar(c), Decode(rest));
  }

  /** A well-formed sequence decodes to the character of its first UTF8-char followed by the rest. */
  lemma DecodeHead(s: seq<byte>)
    requires IsUtf8(s) && s != []
    ensures var n := SequenceLength(s[0]);
      0 < n <= |s| && IsChar(s[..n]) && IsUtf8(s[n..]) &&
      Decode(s) == [DecodeChar(s[..n])] + Decode(s[n..])
  {
  }

  /** A character followed by a string encodes to their two encodings, one after the other. */
  lemma EncodeJoin(ch: char, t: string)
    ensures Encode([ch] + t) == EncodeChar(ch) + Encode(t)
  {
    assert ([ch] + t)[1..] == t;
  }

  /** The encoding is never shorter than the string, and has exactly one octet per character
      precisely when the string is ASCII. */
  lemma {:induction false} EncodeLength(s: string)
    ensures |Encode(s)| >= |s|
    ensures |Encode(s)| == |s| <==> IsAscii(s)
    decreases |s|
  {
    if s != [] {
      EncodeLength(s[1..]);
      assert IsAscii(s) <==> s[0] as int < 0x80 && IsAscii(s[1..]) by {
        if IsAscii(s[1..]) && s[0] as int < 0x80 {
          forall i | 0 <= i < |s| ensures s[i] as int < 0x80 {
            if i > 0 { assert s[i] == s[1..][i - 1]; }
          }
        }
        if IsAscii(s) {
          forall i | 0 <= i < |s| - 1 ensures s[1..][i] as int < 0x80 {
            assert s[1..][i] == s[i + 1];
          }
        }
      }
    }
  }

  /** The ASCII characters encode to their own code points, one octet each. */
  lemma {:induction false} EncodeAscii(s: string)
    requires IsAscii(s)
    ensures |Encode(s)| == |s|
    ensures forall i :: 0 <= i < |s| ==> Encode(s)[i] as int == s[i] as int
    decreases |s|
  {
    if s != [] {
      assert IsAscii(s[1..]) by {
        forall i | 0 <= i < |s| - 1 ensures s[1..][i] as int < 0x80 {
          assert s[1..][i] == s[i + 1];
        }
      }
      EncodeAscii(s[1..]);
      forall i | 0 <= i < |s| ensures Encode(s)[i] as int == s[i] as int {
        if i > 0 { assert Encode(s)[i] == Encode(s[1..])[i - 1]; }
      }
    }
  }
}

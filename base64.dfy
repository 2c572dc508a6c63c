/**
 * The token service's byte encodings (src/services/cloudFlareStreamTokenService.ts):
 * Node's `Buffer.toString('base64')`, which is the padded base 64 encoding of
 * section 4 of RFC 4648, and `arrayBufferToBase64Url`, which strips the padding and
 * re-maps '+' and '/' to reach the unpadded "base64url" encoding of section 5.
 */
module Base64 {
  import opened Wrappers

  newtype byte = x: int | 0 <= x < 256

  /** Which 64-character alphabet: section 4 ('+', '/') or section 5 ('-', '_'). */
  datatype Alphabet = Standard | UrlSafe

  /** The character for a 6-bit value. */
  function AlphabetChar(v: int, alphabet: Alphabet): (c: char)
    requires 0 <= v < 64
  {
    if v < 26 then ('A' as int + v) as char
    else if v < 52 then ('a' as int + (v - 26)) as char
    else if v < 62 then ('0' as int + (v - 52)) as char
    else if v == 62 then (if alphabet == Standard then '+' else '-')
    else (if alphabet == Standard then '/' else '_')
  }

  /** The 6-bit value of a character of the given alphabet, if it is one. */
  function CharValue(c: char, alphabet: Alphabet): (r: Option<int>)
    ensures r.Some? ==> 0 <= r.value < 64 && AlphabetChar(r.value, alphabet) == c
  {
    if 'A' <= c <= 'Z' then Some(c as int - 'A' as int)
    else if 'a' <= c <= 'z' then Some(c as int - 'a' as int + 26)
    else if '0' <= c <= '9' then Some(c as int - '0' as int + 52)
    else if c == (if alphabet == Standard then '+' else '-') then Some(62)
    else if c == (if alphabet == Standard then '/' else '_') then Some(63)
    else None
  }

  lemma CharValueOfAlphabetChar(v: int, alphabet: Alphabet)
    requires 0 <= v < 64
    ensures CharValue(AlphabetChar(v, alphabet), alphabet) == Some(v)
  {
  }

  /**
   * Base 64 encoding of `b` in the given alphabet; `pad` adds the '=' characters that
   * complete the final quantum (section 4 of RFC 4648); without it the encoding is the
   * unpadded form section 5 allows.
   */
  function Encode(b: seq<byte>, alphabet: Alphabet, pad: bool): string
    decreases |b|
  {
    if |b| == 0 then ""
    else if |b| == 1 then
      var b0 := b[0] as int;
      [AlphabetChar(b0 / 4, alphabet), AlphabetChar((b0 % 4) * 16, alphabet)]
        + (if pad then "==" else "")
    else if |b| == 2 then
      var b0, b1 := b[0] as int, b[1] as int;
      [AlphabetChar(b0 / 4, alphabet), AlphabetChar((b0 % 4) * 16 + b1 / 16, alphabet),
       AlphabetChar((b1 % 16) * 4, alphabet)]
        + (if pad then "=" else "")
    else
      var b0, b1, b2 := b[0] as int, b[1] as int, b[2] as int;
      [AlphabetChar(b0 / 4, alphabet), AlphabetChar((b0 % 4) * 16 + b1 / 16, alphabet),
       AlphabetChar((b1 % 16) * 4 + b2 / 64, alphabet), AlphabetChar(b2 % 64, alphabet)]
        + Encode(b[3..], alphabet, pad)
  }

  /** `buffer.toString('base64')`. */
  function StandardBase64(b: seq<byte>): string {
    Encode(b, Standard, true)
  }

  /** The unpadded base64url encoding of section 5 of RFC 4648, written directly. */
  function UrlBase64(b: seq<byte>): string {
    Encode(b, UrlSafe, false)
  }

  /** `s.replace(/c/g, '')`. */
  function RemoveChar(s: string, c: char): (r: string)
    ensures c !in r
    ensures |r| <= |s|
  {
    if s == [] then [] else (if s[0] == c then [] else [s[0]]) + RemoveChar(s[1..], c)
  }

  /** `s.replace(/from/g, to)` for a single character. */
  function ReplaceChar(s: string, from: char, to: char): (r: string)
    ensures |r| == |s|
    ensures forall k :: 0 <= k < |s| ==> r[k] == if s[k] == from then to else s[k]
  {
    seq(|s|, k requires 0 <= k < |s| => if s[k] == from then to else s[k])
  }

  /** `arrayBufferToBase64Url`: strip '=', then '+' to '-', then '/' to '_'. */
  function ArrayBufferToBase64Url(b: seq<byte>): (r: string)
    ensures '=' !in r && '+' !in r && '/' !in r
    ensures r == UrlBase64(b)
    ensures |r| == (4 * |b| + 2) / 3
  {
    var r := ReplaceChar(ReplaceChar(RemoveChar(StandardBase64(b), '='), '+', '-'), '/', '_');
    StripAndRemapIsUrlBase64(b);
    UrlBase64Length(b);
    r
  }

  lemma {:induction false} RemoveCharAppend(a: string, b: string, c: char)
    ensures RemoveChar(a + b, c) == RemoveChar(a, c) + RemoveChar(b, c)
  {
    if a != [] {
      RemoveCharAppend(a[1..], b, c);
      assert (a + b)[1..] == a[1..] + b;
    } else {
      assert a + b == b;
    }
  }

  lemma RemoveCharAbsent(s: string, c: char)
    requires c !in s
    ensures RemoveChar(s, c) == s
  {
    if s != [] {
      RemoveCharAbsent(s[1..], c);
    }
  }

  /** What the two replacements do to one character of the standard alphabet. */
  function Remap(c: char): char {
    if c == '+' then '-' else if c == '/' then '_' else c
  }

  lemma RemapAlphabetChar(v: int)
    requires 0 <= v < 64
    ensures Remap(AlphabetChar(v, Standard)) == AlphabetChar(v, UrlSafe)
    ensures AlphabetChar(v, Standard) != '='
  {
  }

  function RemapAll(s: string): (r: string)
    ensures |r| == |s|
    ensures forall k :: 0 <= k < |s| ==> r[k] == Remap(s[k])
  {
    seq(|s|, k requires 0 <= k < |s| => Remap(s[k]))
  }

  lemma {:induction false} StripPadding(b: seq<byte>)
    ensures RemoveChar(StandardBase64(b), '=') == Encode(b, Standard, false)
    decreases |b|
  {
    var s := StandardBase64(b);
    if |b| == 0 {
    } else if |b| < 3 {
      var pad := if |b| == 1 then "==" else "=";
      var body := Encode(b, Standard, false);
      assert s == body + pad;
      forall k | 0 <= k < |body| ensures body[k] != '=' {
        RemapAlphabetChar(if k == 0 then b[0] as int / 4 else 0);
      }
      assert '=' !in body;
      RemoveCharAppend(body, pad, '=');
      RemoveCharAbsent(body, '=');
      assert RemoveChar(pad, '=') == [];
    } else {
      var b0, b1, b2 := b[0] as int, b[1] as int, b[2] as int;
      var quad := [AlphabetChar(b0 / 4, Standard), AlphabetChar((b0 % 4) * 16 + b1 / 16, Standard),
                   AlphabetChar((b1 % 16) * 4 + b2 / 64, Standard), AlphabetChar(b2 % 64, Standard)];
      assert s == quad + StandardBase64(b[3..]);
      RemapAlphabetChar(b0 / 4);
      RemapAlphabetChar((b0 % 4) * 16 + b1 / 16);
      RemapAlphabetChar((b1 % 16) * 4 + b2 / 64);
      RemapAlphabetChar(b2 % 64);
      RemoveCharAppend(quad, StandardBase64(b[3..]), '=');
      RemoveCharAbsent(quad, '=');
      StripPadding(b[3..]);
    }
  }

  lemma {:induction false} RemapEncoding(b: seq<byte>)
    ensures RemapAll(Encode(b, Standard, false)) == Encode(b, UrlSafe, false)
    decreases |b|
  {
    var s := Encode(b, Standard, false);
    var u := Encode(b, UrlSafe, false);
    if |b| >= 3 {
      RemapEncoding(b[3..]);
      var b0, b1, b2 := b[0] as int, b[1] as int, b[2] as int;
      RemapAlphabetChar(b0 / 4);
      RemapAlphabetChar((b0 % 4) * 16 + b1 / 16);
      RemapAlphabetChar((b1 % 16) * 4 + b2 / 64);
      RemapAlphabetChar(b2 % 64);
      assert s[4..] == Encode(b[3..], Standard, false);
      assert u[4..] == Encode(b[3..], UrlSafe, false);
      assert forall k :: 4 <= k < |s| ==> s[k] == s[4..][k - 4];
    } else if |b| == 2 {
      var b0, b1 := b[0] as int, b[1] as int;
      RemapAlphabetChar(b0 / 4);
      RemapAlphabetChar((b0 % 4) * 16 + b1 / 16);
      RemapAlphabetChar((b1 % 16) * 4);
    } else if |b| == 1 {
      var b0 := b[0] as int;
      RemapAlphabetChar(b0 / 4);
      RemapAlphabetChar((b0 % 4) * 16);
    }
  }

  /** Stripping the padding and re-mapping gives exactly the section 5 encoding. */
  lemma StripAndRemapIsUrlBase64(b: seq<byte>)
    ensures ReplaceChar(ReplaceChar(RemoveChar(StandardBase64(b), '='), '+', '-'), '/', '_')
            == UrlBase64(b)
  {
    StripPadding(b);
    RemapEncoding(b);
    var t := Encode(b, Standard, false);
    assert ReplaceChar(ReplaceChar(t, '+', '-'), '/', '_') == RemapAll(t);
  }

  /** The unpadded encoding has ceil(4n/3) characters for n bytes. */
  lemma {:induction false} UrlBase64Length(b: seq<byte>)
    ensures |UrlBase64(b)| == (4 * |b| + 2) / 3
    decreases |b|
  {
    if |b| >= 3 {
      UrlBase64Length(b[3..]);
    }
  }

  /** The padded encoding has 4 characters for every started group of 3 bytes. */
  lemma {:induction false} StandardBase64Length(b: seq<byte>)
    ensures |StandardBase64(b)| == 4 * ((|b| + 2) / 3)
    decreases |b|
  {
    if |b| >= 3 {
      StandardBase64Length(b[3..]);
    }
  }

  /** Decoder for the unpadded section 5 encoding; `None` for a malformed input. */
  function UrlDecode(s: string): Option<seq<byte>>
    decreases |s|
  {
    if |s| == 0 then Some([])
    else if |s| == 1 then None
    else
      var v0, v1 := CharValue(s[0], UrlSafe), CharValue(s[1], UrlSafe);
      if v0.None? || v1.None? then None
      else
        var first := (v0.value * 4 + v1.value / 16) as byte;
        if |s| == 2 then Some([first])
        else
          var v2 := CharValue(s[2], UrlSafe);
          if v2.None? then None
          else
            var second := ((v1.value % 16) * 16 + v2.value / 4) as byte;
            if |s| == 3 then Some([first, second])
            else
              var v3 := CharValue(s[3], UrlSafe);
              if v3.None? then None
              else
                var third := ((v2.value % 4) * 64 + v3.value) as byte;
                var rest := UrlDecode(s[4..]);
                if rest.None? then None else Some([first, second, third] + rest.value)
  }

  lemma SplitByte(b: int)
    requires 0 <= b < 256
    ensures b / 4 < 64 && (b % 4) * 16 < 64
    ensures (b / 4) * 4 + ((b % 4) * 16) / 16 == b
  {
  }

  lemma ThreeBytes(b0: int, b1: int, b2: int)
    requires 0 <= b0 < 256 && 0 <= b1 < 256 && 0 <= b2 < 256
    ensures (b0 / 4) * 4 + ((b0 % 4) * 16 + b1 / 16) / 16 == b0
    ensures (((b0 % 4) * 16 + b1 / 16) % 16) * 16 + ((b1 % 16) * 4 + b2 / 64) / 4 == b1
    ensures (((b1 % 16) * 4 + b2 / 64) % 4) * 64 + b2 % 64 == b2
  {
  }

  lemma DecodeOneByte(b0: int)
    requires 0 <= b0 < 256
    ensures UrlDecode([AlphabetChar(b0 / 4, UrlSafe), AlphabetChar((b0 % 4) * 16, UrlSafe)])
            == Some([b0 as byte])
  {
    SplitByte(b0);
    CharValueOfAlphabetChar(b0 / 4, UrlSafe);
    CharValueOfAlphabetChar((b0 % 4) * 16, UrlSafe);
  }

  lemma DecodeTwoBytes(b0: int, b1: int)
    requires 0 <= b0 < 256 && 0 <= b1 < 256
    ensures UrlDecode([AlphabetChar(b0 / 4, UrlSafe), AlphabetChar((b0 % 4) * 16 + b1 / 16, UrlSafe),
                       AlphabetChar((b1 % 16) * 4, UrlSafe)])
            == Some([b0 as byte, b1 as byte])
  {
    ThreeBytes(b0, b1, 0);
    var v0, v1, v2 := b0 / 4, (b0 % 4) * 16 + b1 / 16, (b1 % 16) * 4;
    CharValueOfAlphabetChar(v0, UrlSafe);
    CharValueOfAlphabetChar(v1, UrlSafe);
    CharValueOfAlphabetChar(v2, UrlSafe);
    assert v0 * 4 + v1 / 16 == b0;
    assert (v1 % 16) * 16 + v2 / 4 == b1;
  }

  lemma DecodeQuad(b0: int, b1: int, b2: int, rest: string, tail: seq<byte>)
    requires 0 <= b0 < 256 && 0 <= b1 < 256 && 0 <= b2 < 256
    requires UrlDecode(rest) == Some(tail)
    ensures UrlDecode([AlphabetChar(b0 / 4, UrlSafe), AlphabetChar((b0 % 4) * 16 + b1 / 16, UrlSafe),
                       AlphabetChar((b1 % 16) * 4 + b2 / 64, UrlSafe), AlphabetChar(b2 % 64, UrlSafe)] + rest)
            == Some([b0 as byte, b1 as byte, b2 as byte] + tail)
  {
    ThreeBytes(b0, b1, b2);
    var v0, v1, v2, v3 := b0 / 4, (b0 % 4) * 16 + b1 / 16, (b1 % 16) * 4 + b2 / 64, b2 % 64;
    CharValueOfAlphabetChar(v0, UrlSafe);
    CharValueOfAlphabetChar(v1, UrlSafe);
    CharValueOfAlphabetChar(v2, UrlSafe);
    CharValueOfAlphabetChar(v3, UrlSafe);
    var s := [AlphabetChar(v0, UrlSafe), AlphabetChar(v1, UrlSafe), AlphabetChar(v2, UrlSafe),
              AlphabetChar(v3, UrlSafe)] + rest;
    assert s[4..] == rest;
  }

  /** Decoding reads back exactly the bytes that were encoded. */
  lemma {:induction false} UrlDecodeEncode(b: seq<byte>)
    ensures UrlDecode(UrlBase64(b)) == Some(b)
    decreases |b|
  {
    if |b| == 1 {
      UrlDecodeEncodeOne(b);
    } else if |b| == 2 {
      UrlDecodeEncodeTwo(b);
    } else if |b| >= 3 {
      UrlDecodeEncode(b[3..]);
      UrlDecodeEncodeStep(b);
    }
  }

  lemma UrlDecodeEncodeOne(b: seq<byte>)
    requires |b| == 1
    ensures UrlDecode(UrlBase64(b)) == Some(b)
  {
    var b0 := b[0] as int;
    assert UrlBase64(b) == [AlphabetChar(b0 / 4, UrlSafe), AlphabetChar((b0 % 4) * 16, UrlSafe)];
    DecodeOneByte(b0);
    assert b == [b0 as byte];
  }

  lemma UrlDecodeEncodeTwo(b: seq<byte>)
    requires |b| == 2
    ensures UrlDecode(UrlBase64(b)) == Some(b)
  {
    var b0, b1 := b[0] as int, b[1] as int;
    assert UrlBase64(b) == [AlphabetChar(b0 / 4, UrlSafe), AlphabetChar((b0 % 4) * 16 + b1 / 16, UrlSafe),
                            AlphabetChar((b1 % 16) * 4, UrlSafe)];
    DecodeTwoBytes(b0, b1);
    assert b == [b0 as byte, b1 as byte];
  }

  /** A full group of three bytes decodes back in front of whatever the rest decodes to. */
  lemma UrlDecodeEncodeStep(b: seq<byte>)
    requires |b| >= 3
    requires UrlDecode(UrlBase64(b[3..])) == Some(b[3..])
    ensures UrlDecode(UrlBase64(b)) == Some(b)
  {
    var b0, b1, b2 := b[0] as int, b[1] as int, b[2] as int;
    assert UrlBase64(b) == [AlphabetChar(b0 / 4, UrlSafe), AlphabetChar((b0 % 4) * 16 + b1 / 16, UrlSafe),
                            AlphabetChar((b1 % 16) * 4 + b2 / 64, UrlSafe), AlphabetChar(b2 % 64, UrlSafe)]
                           + UrlBase64(b[3..]);
    DecodeQuad(b0, b1, b2, UrlBase64(b[3..]), b[3..]);
    assert b == [b0 as byte, b1 as byte, b2 as byte] + b[3..];
  }
}

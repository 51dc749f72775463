/**
 * The voter fingerprint hash: browser properties joined with '|', digested with
 * SHA-256 and rendered as lower-case hexadecimal. The digest itself (section 6.2
 * of FIPS 180-4) and the UTF-8 encoding of the input are parameters of the model.
 */
module Hash {
  import opened Strings

  /** One element of a `Uint8Array`. */
  type byte = x: int | 0 <= x < 256

  /** A SHA-256 digest: 32 bytes. */
  type Digest = s: seq<byte> | |s| == 32 witness seq(32, _ => 0)

  predicate IsLowerHex(c: char) {
    IsDigit(c) || 'a' <= c <= 'f'
  }

  /** The lower-case hex digit `Number.prototype.toString(16)` writes for `v`. */
  function HexDigit(v: nat): (c: char)
    requires v < 16
    ensures IsLowerHex(c)
  {
    if v < 10 then ('0' as int + v) as char else ('a' as int + v - 10) as char
  }

  /** The value of one lower-case hex digit. */
  function HexValue(c: char): (v: nat)
    requires IsLowerHex(c)
    ensures v < 16 && HexDigit(v) == c
  {
    if IsDigit(c) then c as int - '0' as int else c as int - 'a' as int + 10
  }

  /** `b.toString(16).padStart(2, '0')`: two hex digits, high nibble first. */
  function HexByte(b: byte): (r: string)
    ensures |r| == 2 && IsLowerHex(r[0]) && IsLowerHex(r[1])
    ensures HexValue(r[0]) * 16 + HexValue(r[1]) == b
  {
    [HexDigit(b / 16), HexDigit(b % 16)]
  }

  /** `bytes.map(b => b.toString(16).padStart(2, '0')).join('')`. */
  function ToHex(bytes: seq<byte>): (r: string)
    ensures |r| == 2 * |bytes|
    ensures forall i :: 0 <= i < |r| ==> IsLowerHex(r[i])
  {
    if bytes == [] then "" else HexByte(bytes[0]) + ToHex(bytes[1..])
  }

  /** Reads pairs of hex digits back into bytes: the inverse of ToHex. */
  function FromHex(s: string): seq<byte>
    requires |s| % 2 == 0
    requires forall i :: 0 <= i < |s| ==> IsLowerHex(s[i])
  {
    if s == [] then [] else [HexValue(s[0]) * 16 + HexValue(s[1])] + FromHex(s[2..])
  }

  /** Decoding the hex rendering gives back the digest bytes. */
  lemma {:induction false} FromToHex(bytes: seq<byte>)
    ensures FromHex(ToHex(bytes)) == bytes
  {
    if bytes != [] {
      FromToHex(bytes[1..]);
      var r := ToHex(bytes);
      assert r[2..] == ToHex(bytes[1..]);
      assert [bytes[0]] + bytes[1..] == bytes;
    }
  }

  /** Distinct byte sequences give distinct hex strings. */
  lemma ToHexInjective(a: seq<byte>, b: seq<byte>)
    requires ToHex(a) == ToHex(b)
    ensures a == b
  {
    FromToHex(a);
    FromToHex(b);
  }

  /** Lexicographic order on byte sequences of equal length. */
  predicate BytesLess(a: seq<byte>, b: seq<byte>)
    requires |a| == |b|
  {
    a != [] && (a[0] < b[0] || (a[0] == b[0] && BytesLess(a[1..], b[1..])))
  }

  /** Lexicographic order on strings of equal length, by code unit. */
  predicate CharsLess(a: string, b: string)
    requires |a| == |b|
  {
    a != [] && (a[0] < b[0] || (a[0] == b[0] && CharsLess(a[1..], b[1..])))
  }

  lemma HexDigitsOrdered(i: nat, j: nat)
    requires i < 16 && j < 16
    ensures i < j <==> HexDigit(i) < HexDigit(j)
  {
  }

  lemma HexByteOrder(x: byte, y: byte)
    ensures x < y <==> CharsLess(HexByte(x), HexByte(y))
    ensures x == y <==> HexByte(x) == HexByte(y)
  {
    var hx, hy := HexByte(x), HexByte(y);
    HexDigitsOrdered(x / 16, y / 16);
    HexDigitsOrdered(x % 16, y % 16);
    assert hx[1..] == [hx[1]] && hy[1..] == [hy[1]];
    assert CharsLess([hx[1]], [hy[1]]) == (hx[1] < hy[1]);
    assert CharsLess(hx, hy) == (hx[0] < hy[0] || (hx[0] == hy[0] && hx[1] < hy[1]));
    assert x == x / 16 * 16 + x % 16 && y == y / 16 * 16 + y % 16;
  }

  lemma {:induction false} CharsLessConcat(a: string, b: string, c: string, d: string)
    requires |a| == |c| && |b| == |d|
    ensures CharsLess(a + b, c + d) <==> CharsLess(a, c) || (a == c && CharsLess(b, d))
  {
    if a != [] {
      assert (a + b)[1..] == a[1..] + b;
      assert (c + d)[1..] == c[1..] + d;
      CharsLessConcat(a[1..], b, c[1..], d);
      if a[0] == c[0] && a[1..] == c[1..] {
        assert a == [a[0]] + a[1..] && c == [c[0]] + c[1..];
      }
    } else {
      assert a + b == b && c + d == d;
    }
  }

  /**
   * The fixed-width encoding preserves order: comparing two hex strings of
   * digests of equal length compares the digests.
   */
  lemma {:induction false} ToHexOrder(a: seq<byte>, b: seq<byte>)
    requires |a| == |b|
    ensures BytesLess(a, b) <==> CharsLess(ToHex(a), ToHex(b))
  {
    if a != [] {
      ToHexOrder(a[1..], b[1..]);
      HexByteOrder(a[0], b[0]);
      CharsLessConcat(HexByte(a[0]), ToHex(a[1..]), HexByte(b[0]), ToHex(b[1..]));
    }
  }

  /** The `generateHash` result for a digest: 64 lower-case hex digits. */
  function DigestHex(digest: Digest): (r: string)
    ensures |r| == 64
    ensures forall i :: 0 <= i < |r| ==> IsLowerHex(r[i])
    ensures FromHex(r) == digest
  {
    FromToHex(digest);
    ToHex(digest)
  }

  /**
   * The browser fingerprint of `generateUserIdHash`: user agent, language,
   * time-zone offset, "WxH" screen size and colour depth, joined with '|'.
   */
  function Fingerprint(userAgent: string, language: string, timezoneOffset: int,
                       width: int, height: int, colorDepth: int): string
  {
    Join(FingerprintFields(userAgent, language, timezoneOffset, width, height, colorDepth), "|")
  }

  function FingerprintFields(userAgent: string, language: string, timezoneOffset: int,
                             width: int, height: int, colorDepth: int): seq<string>
  {
    [userAgent, language, IntToString(timezoneOffset),
     IntToString(width) + "x" + IntToString(height), IntToString(colorDepth)]
  }

  lemma NoCharInNumber(i: int, c: char)
    requires !IsDigit(c) && c != '-'
    ensures c !in IntToString(i)
  {
  }

  /**
   * The fingerprint has exactly five '|'-separated fields in the documented
   * order, and the screen field splits at 'x' into width and height, provided
   * the browser's own strings contain no '|'.
   */
  lemma FingerprintFieldsRecovered(userAgent: string, language: string, timezoneOffset: int,
                                   width: int, height: int, colorDepth: int)
    requires '|' !in userAgent && '|' !in language
    ensures var fields := Split(Fingerprint(userAgent, language, timezoneOffset, width, height, colorDepth), '|');
      && |fields| == 5
      && fields[0] == userAgent && fields[1] == language
      && fields[2] == IntToString(timezoneOffset)
      && Split(fields[3], 'x') == [IntToString(width), IntToString(height)]
      && fields[4] == IntToString(colorDepth)
  {
    var parts := FingerprintFields(userAgent, language, timezoneOffset, width, height, colorDepth);
    NoCharInNumber(timezoneOffset, '|');
    NoCharInNumber(width, '|');
    NoCharInNumber(height, '|');
    NoCharInNumber(colorDepth, '|');
    NoCharInNumber(width, 'x');
    NoCharInNumber(height, 'x');
    assert '|' !in parts[3];
    SplitJoin(parts, '|');
    assert Join([IntToString(width), IntToString(height)], "x") == parts[3];
    SplitJoin([IntToString(width), IntToString(height)], 'x');
  }

  /**
   * `generateUserIdHash` in a browser: the hex rendering of the SHA-256 digest of
   * the fingerprint, with the digest (and the UTF-8 encoding before it) supplied
   * as `sha256`.
   */
  function UserIdHash(sha256: string -> Digest, userAgent: string, language: string,
                      timezoneOffset: int, width: int, height: int, colorDepth: int): (r: string)
    ensures |r| == 64
    ensures forall i :: 0 <= i < |r| ==> IsLowerHex(r[i])
    ensures FromHex(r) == sha256(Fingerprint(userAgent, language, timezoneOffset, width, height, colorDepth))
  {
    DigestHex(sha256(Fingerprint(userAgent, language, timezoneOffset, width, height, colorDepth)))
  }
}

/**
  The URL-safe base64 alphabet (sections 4 and 5 of RFC 4648) with the padding stripped after
  encoding and restored before decoding (section 3.2), as the session tokens use it
  (app/database/auth.py:109-122, 159-160).
*/
module Base64Url {
  import opened Text

  function Char64(n: nat): (c: char)
    requires n < 64
    ensures c != '=' && c != '.' && c as int < 128
  {
    if n < 26 then ('A' as int + n) as char
    else if n < 52 then ('a' as int + n - 26) as char
    else if n < 62 then ('0' as int + n - 52) as char
    else if n == 62 then '-'
    else '_'
  }

  function Value64(c: char): (r: Option<nat>)
    ensures r.Some? ==> r.value < 64
  {
    if 'A' <= c <= 'Z' then Some(c as int - 'A' as int)
    else if 'a' <= c <= 'z' then Some(c as int - 'a' as int + 26)
    else if '0' <= c <= '9' then Some(c as int - '0' as int + 52)
    else if c == '-' then Some(62)
    else if c == '_' then Some(63)
    else None
  }

  lemma ValueOfChar(n: nat)
    requires n < 64
    ensures Value64(Char64(n)) == Some(n)
  {
  }

  // urlsafe_b64encode: three bytes make four characters
  function Encode(b: seq<Byte>): string {
    if b == [] then ""
    else if |b| == 1 then [Char64(b[0] / 4), Char64(b[0] % 4 * 16), '=', '=']
    else if |b| == 2 then [Char64(b[0] / 4), Char64(b[0] % 4 * 16 + b[1] / 16), Char64(b[1] % 16 * 4), '=']
    else Quad(b[0], b[1], b[2]) + Encode(b[3..])
  }

  function Quad(a: Byte, b: Byte, c: Byte): (s: string)
    ensures |s| == 4 && Unpadded(s)
  {
    [Char64(a / 4), Char64(a % 4 * 16 + b / 16), Char64(b % 16 * 4 + c / 64), Char64(c % 64)]
  }

  // urlsafe_b64decode of canonical text; None is the ValueError of incorrect padding and the like
  function Decode(s: string): Option<seq<Byte>> {
    if s == "" then Some([])
    else if |s| < 4 then None
    else
      match (Value64(s[0]), Value64(s[1]), Value64(s[2]), Value64(s[3]))
      case (Some(w), Some(x), Some(y), Some(z)) =>
        (match Decode(s[4..])
         case Some(rest) => Some([w * 4 + x / 16, x % 16 * 16 + y / 4, y % 4 * 64 + z] + rest)
         case None => None)
      case (Some(w), Some(x), Some(y), None) =>
        if s[3] == '=' && |s| == 4 && y % 4 == 0 then Some([w * 4 + x / 16, x % 16 * 16 + y / 4]) else None
      case (Some(w), Some(x), None, None) =>
        if s[2] == '=' && s[3] == '=' && |s| == 4 && x % 16 == 0 then Some([w * 4 + x / 16]) else None
      case _ => None
  }

  // rstrip("=")
  function StripPadding(s: string): string {
    if s != "" && s[|s| - 1] == '=' then StripPadding(s[..|s| - 1]) else s
  }

  // "=" * (-len(s) % 4)
  function Padding(n: nat): string {
    if n % 4 == 0 then "" else if n % 4 == 1 then "===" else if n % 4 == 2 then "==" else "="
  }

  function RestorePadding(s: string): string { s + Padding(|s|) }

  predicate Unpadded(s: string) { forall i :: 0 <= i < |s| ==> s[i] != '=' && s[i] != '.' && s[i] as int < 128 }

  // The characters in front of the padding
  function Core(b: seq<Byte>): string {
    if b == [] then ""
    else if |b| == 1 then [Char64(b[0] / 4), Char64(b[0] % 4 * 16)]
    else if |b| == 2 then [Char64(b[0] / 4), Char64(b[0] % 4 * 16 + b[1] / 16), Char64(b[1] % 16 * 4)]
    else Quad(b[0], b[1], b[2]) + Core(b[3..])
  }

  lemma {:induction false} EncodedShape(b: seq<Byte>)
    ensures Unpadded(Core(b)) && Encode(b) == RestorePadding(Core(b)) && (b != [] ==> Core(b) != "")
  {
    hide Char64, Quad;
    if |b| > 2 {
      EncodedShape(b[3..]);
      PaddingBehind(Quad(b[0], b[1], b[2]), Core(b[3..]));
    }
  }

  lemma PaddingBehind(head: string, s: string)
    requires |head| == 4
    ensures RestorePadding(head + s) == head + RestorePadding(s)
  {
    assert |head + s| % 4 == |s| % 4;
  }

  lemma StripOne(s: string)
    ensures StripPadding(s + "=") == StripPadding(s)
  {
    assert (s + "=")[..|s|] == s;
  }

  lemma {:induction false} StripRestored(s: string)
    requires Unpadded(s)
    ensures StripPadding(RestorePadding(s)) == s
  {
    StripOne(s);
    StripOne(s + "=");
    StripOne(s + "=" + "=");
    assert s + "=" + "=" == s + "==" && s + "=" + "=" + "=" == s + "===" && s + "" == s;
  }

  // Three bytes and four values of six bits
  lemma Sextets(a: Byte, b: Byte, c: Byte)
    ensures var (w, x, y, z) := (a / 4, a % 4 * 16 + b / 16, b % 16 * 4 + c / 64, c % 64);
      && w < 64 && x < 64 && y < 64 && z < 64
      && w * 4 + x / 16 == a && x % 16 * 16 + y / 4 == b && y % 4 * 64 + z == c
  {
  }

  lemma {:induction false} DecodeOfEncode(b: seq<Byte>)
    ensures Decode(Encode(b)) == Some(b)
  {
    hide Value64, Char64;
    if |b| > 2 {
      DecodeOfEncode(b[3..]);
      FourChars(b);
      assert Encode(b)[4..] == Encode(b[3..]);
      assert b == [b[0], b[1], b[2]] + b[3..];
    } else if |b| == 2 {
      TwoBytes(b);
    } else if |b| == 1 {
      OneByte(b);
    }
  }

  lemma FourChars(b: seq<Byte>)
    requires |b| > 2
    ensures |Encode(b)| >= 4
    ensures match (Value64(Encode(b)[0]), Value64(Encode(b)[1]), Value64(Encode(b)[2]), Value64(Encode(b)[3]))
      case (Some(w), Some(x), Some(y), Some(z)) =>
        w * 4 + x / 16 == b[0] && x % 16 * 16 + y / 4 == b[1] && y % 4 * 64 + z == b[2]
      case _ => false
  {
    hide Value64, Char64;
    Sextets(b[0], b[1], b[2]);
    ValueOfChar(b[0] / 4);
    ValueOfChar(b[0] % 4 * 16 + b[1] / 16);
    ValueOfChar(b[1] % 16 * 4 + b[2] / 64);
    ValueOfChar(b[2] % 64);
  }

  lemma Trailing(a: Byte)
    ensures a % 4 * 16 % 16 == 0 && a / 4 * 4 + a % 4 * 16 / 16 == a
    ensures a % 16 * 4 % 4 == 0 && a % 16 * 4 / 4 == a % 16
    ensures a / 4 < 64 && a % 4 * 16 < 64 && a % 16 * 4 < 64
  {
  }

  lemma OneByte(b: seq<Byte>)
    requires |b| == 1
    ensures Decode(Encode(b)) == Some(b)
  {
    hide Value64, Char64;
    PadIsNoValue();
    Trailing(b[0]);
    ValueOfChar(b[0] / 4);
    ValueOfChar(b[0] % 4 * 16);
    assert b == [b[0]];
  }

  lemma TwoBytes(b: seq<Byte>)
    requires |b| == 2
    ensures Decode(Encode(b)) == Some(b)
  {
    hide Value64, Char64;
    PadIsNoValue();
    Sextets(b[0], b[1], 0);
    Trailing(b[1]);
    ValueOfChar(b[0] / 4);
    ValueOfChar(b[0] % 4 * 16 + b[1] / 16);
    ValueOfChar(b[1] % 16 * 4);
    assert b == [b[0], b[1]];
  }

  lemma PadIsNoValue()
    ensures Value64('=') == None
  {
  }

  // Stripped and restored padding decodes to the same bytes, whatever their number
  lemma PaddingRestored(b: seq<Byte>)
    ensures Unpadded(StripPadding(Encode(b)))
    ensures Decode(RestorePadding(StripPadding(Encode(b)))) == Some(b)
  {
    EncodedShape(b);
    StripRestored(Core(b));
    DecodeOfEncode(b);
  }
}

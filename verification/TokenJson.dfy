/**
  The JSON text of a token payload: what json.dumps prints with compact separators and ASCII escapes,
  and the reading of flat objects of strings and integers.
*/
module TokenJson {
  import opened Text

  datatype Json = JString(text: string) | JInt(number: int)

  datatype Member = Member(key: string, value: Json)

  // ---------- Strings ----------

  function HexChar(n: nat): (c: char)
    requires n < 16
    ensures ' ' <= c <= '~'
  {
    if n < 10 then ('0' as int + n) as char else ('a' as int + n - 10) as char
  }

  function HexValue(c: char): (r: Option<nat>)
    ensures r.Some? ==> r.value < 16
  {
    if '0' <= c <= '9' then Some(c as int - '0' as int)
    else if 'a' <= c <= 'f' then Some(c as int - 'a' as int + 10)
    else if 'A' <= c <= 'F' then Some(c as int - 'A' as int + 10)
    else None
  }

  // \uXXXX for a 16-bit code unit
  function UnicodeEscape(n: nat): (s: string)
    requires n < 0x10000
    ensures |s| == 6
  {
    ['\\', 'u', HexChar(n / 4096), HexChar(n / 256 % 16), HexChar(n / 16 % 16), HexChar(n % 16)]
  }

  // The one-letter escapes
  function ShortEscape(c: char): Option<char> {
    if c == '"' then Some('"') else if c == '\\' then Some('\\')
    else if c == '\U{8}' then Some('b') else if c == '\U{C}' then Some('f')
    else if c == '\n' then Some('n') else if c == '\r' then Some('r') else if c == '\t' then Some('t')
    else None
  }

  function EscapeChar(c: char): (s: string)
    ensures s != ""
  {
    if ShortEscape(c).Some? then ['\\', ShortEscape(c).value]
    else if ' ' <= c <= '~' then [c]
    else if c as int < 0x10000 then UnicodeEscape(c as int)
    else
      var n := c as int - 0x10000;
      UnicodeEscape(0xD800 + n / 0x400) + UnicodeEscape(0xDC00 + n % 0x400)
  }

  function Escape(s: string): string { if s == "" then "" else EscapeChar(s[0]) + Escape(s[1..]) }

  function Quoted(s: string): string { "\"" + Escape(s) + "\"" }

  function CodeUnit(s: string): (r: Option<nat>)
    ensures r.Some? ==> r.value < 0x10000 && |s| >= 6
  {
    if |s| < 6 || s[0] != '\\' || s[1] != 'u' then None
    else match (HexValue(s[2]), HexValue(s[3]), HexValue(s[4]), HexValue(s[5]))
      case (Some(a), Some(b), Some(c), Some(d)) => Some(a * 4096 + b * 256 + c * 16 + d)
      case _ => None
  }

  // The character behind a backslash and the rest; a lone surrogate is no character
  function Unescape(s: string): (r: Option<(char, string)>)
    ensures r.Some? ==> |r.value.1| < |s|
  {
    if |s| < 2 || s[0] != '\\' then None
    else if s[1] == '"' || s[1] == '\\' || s[1] == '/' then Some((s[1], s[2..]))
    else if s[1] == 'b' then Some(('\U{8}', s[2..]))
    else if s[1] == 'f' then Some(('\U{C}', s[2..]))
    else if s[1] == 'n' then Some(('\n', s[2..]))
    else if s[1] == 'r' then Some(('\r', s[2..]))
    else if s[1] == 't' then Some(('\t', s[2..]))
    else match CodeUnit(s)
      case None => None
      case Some(n) =>
        if n < 0xD800 || 0xE000 <= n then Some((n as char, s[6..]))
        else if n < 0xDC00 then
          (match CodeUnit(s[6..])
           case Some(m) =>
             if 0xDC00 <= m < 0xE000 then Some(((0x10000 + (n - 0xD800) * 0x400 + (m - 0xDC00)) as char, s[12..])) else None
           case None => None)
        else None
  }

  // The text up to the closing quote, and what follows it
  function ReadString(s: string): (r: Option<(string, string)>)
    ensures r.Some? ==> |r.value.1| < |s|
    decreases |s|
  {
    if s == "" then None
    else if s[0] == '"' then Some(("", s[1..]))
    else if s[0] == '\\' then
      (match Unescape(s)
       case None => None
       case Some((c, rest)) =>
         match ReadString(rest)
         case None => None
         case Some((text, behind)) => Some(([c] + text, behind)))
    else if s[0] < ' ' then None
    else match ReadString(s[1..])
      case None => None
      case Some((text, behind)) => Some(([s[0]] + text, behind))
  }

  // ---------- Integers ----------

  function DigitRun(s: string): (n: nat)
    ensures n <= |s| && AllDigits(s[..n])
  {
    if s == "" || !IsDigit(s[0]) then 0 else 1 + DigitRun(s[1..])
  }

  // A zero, or digits that do not begin with one
  function ReadNat(s: string): (r: Option<(nat, string)>)
    ensures r.Some? ==> |r.value.1| < |s|
  {
    var n := DigitRun(s);
    if n == 0 then None else if s[0] == '0' then Some((0, s[1..])) else Some((DigitsValue(s[..n]), s[n..]))
  }

  function ReadInt(s: string): (r: Option<(int, string)>)
    ensures r.Some? ==> |r.value.1| < |s|
  {
    if s != "" && s[0] == '-' then
      match ReadNat(s[1..])
      case None => None
      case Some((n, rest)) =>
        var m: int := 0 - n;
        Some((m, rest))
    else
      match ReadNat(s)
      case None => None
      case Some((n, rest)) => Some((n, rest))
  }

  // ---------- Objects ----------

  function PrintValue(v: Json): string {
    match v case JString(text) => Quoted(text) case JInt(n) => IntToString(n)
  }

  function PrintMember(m: Member): string { Quoted(m.key) + ":" + PrintValue(m.value) }

  // Members after the opening brace
  function PrintMembers(ms: seq<Member>): string
    requires ms != []
  {
    PrintMember(ms[0]) + if |ms| == 1 then "}" else "," + PrintMembers(ms[1..])
  }

  function Print(ms: seq<Member>): string { "{" + if ms == [] then "}" else PrintMembers(ms) }

  function ReadValue(s: string): (r: Option<(Json, string)>)
    ensures r.Some? ==> |r.value.1| < |s|
  {
    if s != "" && s[0] == '"' then
      match ReadString(s[1..])
      case None => None
      case Some((text, rest)) => Some((JString(text), rest))
    else
      match ReadInt(s)
      case None => None
      case Some((n, rest)) => Some((JInt(n), rest))
  }

  function ReadMember(s: string): (r: Option<(Member, string)>)
    ensures r.Some? ==> |r.value.1| < |s|
  {
    if s == "" || s[0] != '"' then None
    else match ReadString(s[1..])
      case None => None
      case Some((key, rest)) =>
        if rest == "" || rest[0] != ':' then None
        else match ReadValue(rest[1..])
          case None => None
          case Some((v, behind)) => Some((Member(key, v), behind))
  }

  function ReadMembers(s: string): Option<seq<Member>>
    decreases |s|
  {
    match ReadMember(s)
    case None => None
    case Some((m, rest)) =>
      if rest == "}" then Some([m])
      else if rest == "" || rest[0] != ',' then None
      else match ReadMembers(rest[1..])
        case None => None
        case Some(ms) => Some([m] + ms)
  }

  // json.loads; None is the JSONDecodeError
  function Read(s: string): Option<seq<Member>> {
    if s == "{}" then Some([]) else if s == "" || s[0] != '{' then None else ReadMembers(s[1..])
  }

  // dict.get: a later member of the same name wins
  function Get(ms: seq<Member>, key: string): Option<Json> {
    if ms == [] then None
    else if ms[|ms| - 1].key == key then Some(ms[|ms| - 1].value)
    else Get(ms[..|ms| - 1], key)
  }

  // ---------- Reading what was printed ----------

  lemma HexRead(n: nat)
    requires n < 16
    ensures HexValue(HexChar(n)) == Some(n)
  {
  }

  lemma Nibbles(n: nat)
    requires n < 0x10000
    ensures n / 4096 < 16 && n == n / 4096 * 4096 + n / 256 % 16 * 256 + n / 16 % 16 * 16 + n % 16
  {
    assert n / 256 == n / 4096 * 16 + n / 256 % 16;
    assert n / 16 == n / 256 * 16 + n / 16 % 16;
  }

  lemma CodeUnitRead(n: nat, rest: string)
    requires n < 0x10000
    ensures CodeUnit(UnicodeEscape(n) + rest) == Some(n) && (UnicodeEscape(n) + rest)[6..] == rest
  {
    hide HexChar, HexValue;
    Nibbles(n);
    HexRead(n / 4096);
    HexRead(n / 256 % 16);
    HexRead(n / 16 % 16);
    HexRead(n % 16);
  }

  // Every character comes back, in front of any text
  lemma CharRead(c: char, rest: string)
    ensures var s := EscapeChar(c) + rest;
      if s[0] == '\\' then Unescape(s) == Some((c, rest)) else s == [c] + rest && c != '"' && c >= ' '
  {
    hide CodeUnit, UnicodeEscape;
    var s := EscapeChar(c) + rest;
    if ShortEscape(c).Some? {
      assert s[2..] == rest;
    } else if !(' ' <= c <= '~') {
      if c as int < 0x10000 {
        CodeUnitRead(c as int, rest);
        EscapeHead(c as int, rest);
      } else {
        PairRead(c, rest);
      }
    }
  }

  lemma EscapeHead(n: nat, rest: string)
    requires n < 0x10000
    ensures var s := UnicodeEscape(n) + rest; |s| >= 6 && s[0] == '\\' && s[1] == 'u'
  {
  }

  lemma PairRead(c: char, rest: string)
    requires c as int >= 0x10000
    ensures Unescape(EscapeChar(c) + rest) == Some((c, rest)) && (EscapeChar(c) + rest)[0] == '\\'
  {
    hide CodeUnit, UnicodeEscape;
    var n := c as int - 0x10000;
    var (high, low) := (0xD800 + n / 0x400, 0xDC00 + n % 0x400);
    var tail := UnicodeEscape(low) + rest;
    assert EscapeChar(c) + rest == UnicodeEscape(high) + tail;
    EscapeHead(high, tail);
    CodeUnitRead(high, tail);
    CodeUnitRead(low, rest);
    assert (UnicodeEscape(high) + tail)[12..] == tail[6..];
  }

  lemma {:induction false} StringRead(s: string, rest: string)
    ensures ReadString(Escape(s) + "\"" + rest) == Some((s, rest))
  {
    hide Unescape, EscapeChar;
    if s == "" {
      assert ("" + "\"" + rest)[1..] == rest;
    } else {
      var tail := Escape(s[1..]) + "\"" + rest;
      StringRead(s[1..], rest);
      CharRead(s[0], tail);
      assert Escape(s) + "\"" + rest == EscapeChar(s[0]) + tail;
      assert s == [s[0]] + s[1..];
    }
  }

  lemma {:induction false} RunOfDigits(digits: string, rest: string)
    requires AllDigits(digits) && (rest == "" || !IsDigit(rest[0]))
    ensures DigitRun(digits + rest) == |digits|
  {
    if digits == "" {
      assert "" + rest == rest;
    } else {
      RunOfDigits(digits[1..], rest);
      assert (digits + rest)[1..] == digits[1..] + rest;
    }
  }

  lemma {:induction false} LeadingDigit(n: nat)
    ensures NatToString(n)[0] == '0' <==> n == 0
    ensures n == 0 ==> NatToString(n) == "0"
  {
    if n >= 10 { LeadingDigit(n / 10); }
  }

  lemma NatRead(n: nat, rest: string)
    requires rest == "" || !IsDigit(rest[0])
    ensures ReadNat(NatToString(n) + rest) == Some((n, rest))
  {
    var digits := NatToString(n);
    RunOfDigits(digits, rest);
    LeadingDigit(n);
    NatToStringValue(n);
    assert (digits + rest)[..|digits|] == digits && (digits + rest)[|digits|..] == rest;
  }

  lemma IntRead(n: int, rest: string)
    requires rest == "" || !IsDigit(rest[0])
    ensures ReadInt(IntToString(n) + rest) == Some((n, rest)) && IntToString(n)[0] != '"'
  {
    hide ReadNat, NatToString;
    if n < 0 {
      NatRead(-n, rest);
      assert (IntToString(n) + rest)[1..] == NatToString(-n) + rest;
    } else {
      NatRead(n, rest);
      assert IsDigit((NatToString(n) + rest)[0]);
    }
  }

  lemma ValueRead(v: Json, rest: string)
    requires rest == "" || !IsDigit(rest[0])
    ensures ReadValue(PrintValue(v) + rest) == Some((v, rest))
  {
    hide ReadString, ReadInt, Escape, IntToString;
    match v {
      case JString(text) =>
        StringRead(text, rest);
        assert (Quoted(text) + rest)[1..] == Escape(text) + "\"" + rest;
      case JInt(n) => IntRead(n, rest);
    }
  }

  lemma MemberRead(m: Member, rest: string)
    requires rest == "" || !IsDigit(rest[0])
    ensures ReadMember(PrintMember(m) + rest) == Some((m, rest))
  {
    hide ReadString, ReadValue, Escape;
    var value := PrintValue(m.value) + rest;
    ValueRead(m.value, rest);
    StringRead(m.key, ":" + value);
    assert (PrintMember(m) + rest)[1..] == Escape(m.key) + "\"" + (":" + value);
    assert (":" + value)[1..] == value;
  }

  lemma {:induction false} MembersRead(ms: seq<Member>)
    requires ms != []
    ensures ReadMembers(PrintMembers(ms)) == Some(ms)
  {
    hide ReadMember, PrintMember;
    if |ms| == 1 {
      MemberRead(ms[0], "}");
      assert ms == [ms[0]];
    } else {
      var rest := "," + PrintMembers(ms[1..]);
      MembersRead(ms[1..]);
      MemberRead(ms[0], rest);
      assert rest[1..] == PrintMembers(ms[1..]) && rest != "}";
      assert ms == [ms[0]] + ms[1..];
    }
  }

  // Any flat object is read back from its text: every key, any string of any characters, any integer
  lemma PrintRead(ms: seq<Member>)
    ensures Read(Print(ms)) == Some(ms)
  {
    if ms != [] {
      MembersRead(ms);
      assert Print(ms)[1..] == PrintMembers(ms);
      assert Print(ms) != "{}" by {
        assert PrintMembers(ms)[0] == '"';
      }
    }
  }

  // ---------- The text is ASCII ----------

  predicate Ascii(s: string) { forall i :: 0 <= i < |s| ==> s[i] as int < 128 }

  lemma {:induction false} EscapeAscii(s: string)
    ensures Ascii(Escape(s))
  {
    if s != "" { EscapeAscii(s[1..]); }
  }

  lemma {:induction false} MembersAscii(ms: seq<Member>)
    requires ms != []
    ensures Ascii(PrintMembers(ms))
  {
    EscapeAscii(ms[0].key);
    match ms[0].value {
      case JString(text) => EscapeAscii(text);
      case JInt(n) =>
    }
    assert Ascii(PrintMember(ms[0]));
    if |ms| > 1 { MembersAscii(ms[1..]); }
  }

  lemma PrintAscii(ms: seq<Member>)
    ensures Ascii(Print(ms))
  {
    if ms != [] { MembersAscii(ms); }
  }
}

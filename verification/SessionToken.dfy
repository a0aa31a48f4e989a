/**
  Signed session tokens (app/database/auth.py:95-184). The keyed hash is a parameter: a function from
  key and message to bytes. Usernames and keys are any strings.
*/
module SessionToken {
  import opened Text
  import opened Base64Url
  import opened TokenJson

  type Hmac = (string, string) -> seq<Byte>

  function ToBytes(s: string): seq<Byte>
    requires Ascii(s)
  {
    if s == "" then [] else [s[0] as int] + ToBytes(s[1..])
  }

  // Bytes beyond ASCII are no text
  function FromBytes(b: seq<Byte>): Option<string> {
    if b == [] then Some("")
    else if b[0] >= 128 then None
    else match FromBytes(b[1..])
      case None => None
      case Some(s) => Some([b[0] as char] + s)
  }

  // str.split(".")
  function SplitDots(s: string): (parts: seq<string>)
    ensures |parts| >= 1
  {
    if s == "" then [""]
    else
      var parts := SplitDots(s[1..]);
      if s[0] == '.' then [""] + parts else [[s[0]] + parts[0]] + parts[1..]
  }

  // int(): towards zero
  function Truncated(t: real): int { if t >= 0.0 then t.Floor else -((-t).Floor) }

  function Signature(hmac: Hmac, key: string, payload: string): string { StripPadding(Encode(hmac(key, payload))) }

  function Payload(username: string, expires: int, nonce: string): seq<Member> {
    [Member("sub", JString(username)), Member("exp", JInt(expires)), Member("nonce", JString(nonce))]
  }

  function PayloadText(ms: seq<Member>): string {
    PrintAscii(ms);
    StripPadding(Encode(ToBytes(Print(ms))))
  }

  // generate_session_token, with the time and the random nonce as parameters
  function Generate(hmac: Hmac, username: string, key: string, now: real, lifetime: int, nonce: string): string {
    var payload := PayloadText(Payload(username, Truncated(now) + lifetime, nonce));
    payload + "." + Signature(hmac, key, payload)
  }

  // TypeError: compare_digest refuses a signature with a character beyond ASCII
  datatype Verdict = User(name: string) | Rejected | TypeError

  function ReadPayload(payload: string): Option<seq<Member>> {
    match Decode(RestorePadding(payload))
    case None => None
    case Some(bytes) =>
      match FromBytes(bytes)
      case None => None
      case Some(text) => Read(text)
  }

  // verify_session_token
  function Verify(hmac: Hmac, token: string, key: string, now: real): Verdict {
    var parts := SplitDots(token);
    if |parts| != 2 then Rejected
    else if !Ascii(parts[1]) then TypeError
    else if parts[1] != Signature(hmac, key, parts[0]) then Rejected
    else
      match ReadPayload(parts[0])
      case None => Rejected
      case Some(ms) => Judge(ms, now)
  }

  // The expiry first, then the name
  function Judge(ms: seq<Member>, now: real): Verdict {
    match Get(ms, "exp")
    case Some(JInt(expires)) =>
      if (expires as real) < now then Rejected
      else
        (match Get(ms, "sub")
         case Some(JString(name)) => if name == "" then Rejected else User(name)
         case _ => Rejected)
    case _ => Rejected
  }

  // ---------- Two parts ----------

  predicate NoDot(s: string) { forall i :: 0 <= i < |s| ==> s[i] != '.' }

  lemma {:induction false} SplitOne(s: string)
    requires NoDot(s)
    ensures SplitDots(s) == [s]
  {
    if s != "" {
      SplitOne(s[1..]);
      assert [s[0]] + s[1..] == s;
    }
  }

  lemma {:induction false} SplitAtDot(a: string, b: string)
    requires NoDot(a)
    ensures SplitDots(a + "." + b) == [a] + SplitDots(b)
  {
    var s := a + "." + b;
    if a == "" {
      assert s[1..] == b;
    } else {
      SplitAtDot(a[1..], b);
      assert s[1..] == a[1..] + "." + b;
      assert [a[0]] + a[1..] == a;
    }
  }

  // The parts put together again
  function Join(parts: seq<string>): string
    requires |parts| >= 1
  {
    if |parts| == 1 then parts[0] else parts[0] + "." + Join(parts[1..])
  }

  lemma {:induction false} SplitJoin(s: string)
    ensures Join(SplitDots(s)) == s && forall i :: 0 <= i < |SplitDots(s)| ==> NoDot(SplitDots(s)[i])
  {
    if s != "" {
      SplitJoin(s[1..]);
      var parts := SplitDots(s[1..]);
      if s[0] == '.' {
        assert ([""] + parts)[1..] == parts;
      } else {
        var more := [[s[0]] + parts[0]] + parts[1..];
        assert more[1..] == parts[1..];
      }
    }
  }

  lemma TwoParts(hmac: Hmac, username: string, key: string, now: real, lifetime: int, nonce: string)
    ensures var payload := PayloadText(Payload(username, Truncated(now) + lifetime, nonce));
      && SplitDots(Generate(hmac, username, key, now, lifetime, nonce)) == [payload, Signature(hmac, key, payload)]
      && Ascii(Signature(hmac, key, payload))
  {
    hide Encode, StripPadding, Print;
    var ms := Payload(username, Truncated(now) + lifetime, nonce);
    PrintAscii(ms);
    PaddingRestored(ToBytes(Print(ms)));
    var payload := PayloadText(ms);
    PaddingRestored(hmac(key, payload));
    SplitAtDot(payload, Signature(hmac, key, payload));
    SplitOne(Signature(hmac, key, payload));
  }

  // ---------- A generated token ----------

  lemma {:induction false} BytesBack(s: string)
    requires Ascii(s)
    ensures FromBytes(ToBytes(s)) == Some(s)
  {
    if s != "" {
      BytesBack(s[1..]);
      assert [s[0]] + s[1..] == s;
    }
  }

  lemma PayloadRead(ms: seq<Member>)
    ensures ReadPayload(PayloadText(ms)) == Some(ms)
  {
    hide Encode, Decode, StripPadding, Print, Read;
    PrintAscii(ms);
    PaddingRestored(ToBytes(Print(ms)));
    BytesBack(Print(ms));
    PrintRead(ms);
  }

  lemma PayloadClaims(username: string, expires: int, nonce: string)
    ensures Get(Payload(username, expires, nonce), "exp") == Some(JInt(expires))
    ensures Get(Payload(username, expires, nonce), "sub") == Some(JString(username))
  {
    var ms := Payload(username, expires, nonce);
    var (two, one) := ([ms[0], ms[1]], [ms[0]]);
    assert ms[..2] == two && two[..1] == one;
    assert Get(ms, "sub") == Get(two, "sub") == Get(one, "sub");
  }

  // For every key and hash, every username, every clock and lifetime: a generated token gives back
  // the name until its expiry and never after, and an empty name never
  lemma GeneratedTokenVerifies(hmac: Hmac, username: string, key: string, now: real, lifetime: int, nonce: string, later: real)
    ensures Verify(hmac, Generate(hmac, username, key, now, lifetime, nonce), key, later) ==
            if username != "" && later <= (Truncated(now) + lifetime) as real then User(username) else Rejected
  {
    hide Generate, PayloadText, Payload, ReadPayload, Get, Signature;
    var ms := Payload(username, Truncated(now) + lifetime, nonce);
    TwoParts(hmac, username, key, now, lifetime, nonce);
    PayloadRead(ms);
    PayloadClaims(username, Truncated(now) + lifetime, nonce);
  }

  // ---------- An accepted token ----------

  // A token is accepted exactly when it is a payload and that payload's own signature, and the
  // payload names a user and an expiry that has not passed
  lemma AcceptedIff(hmac: Hmac, token: string, key: string, now: real, name: string)
    ensures Verify(hmac, token, key, now) == User(name) <==>
      exists payload :: NoDot(payload) && token == payload + "." + Signature(hmac, key, payload)
        && ReadPayload(payload).Some? && Judge(ReadPayload(payload).value, now) == User(name)
  {
    hide Signature, ReadPayload, Judge;
    SplitJoin(token);
    var parts := SplitDots(token);
    if Verify(hmac, token, key, now) == User(name) {
      assert parts == [parts[0], parts[1]];
      assert Join(parts[1..]) == parts[1];
      assert NoDot(parts[0]) && token == parts[0] + "." + Signature(hmac, key, parts[0]);
    }
    forall payload | NoDot(payload) && token == payload + "." + Signature(hmac, key, payload)
        && ReadPayload(payload).Some? && Judge(ReadPayload(payload).value, now) == User(name)
      ensures Verify(hmac, token, key, now) == User(name)
    {
      SignatureShape(hmac, key, payload);
      SplitAtDot(payload, Signature(hmac, key, payload));
      SplitOne(Signature(hmac, key, payload));
    }
  }

  lemma SignatureShape(hmac: Hmac, key: string, payload: string)
    ensures NoDot(Signature(hmac, key, payload)) && Ascii(Signature(hmac, key, payload))
  {
    hide Encode, StripPadding;
    PaddingRestored(hmac(key, payload));
  }

  // Acceptance only ever ends: what is accepted at one time was accepted, for the same user, before
  lemma AcceptedEarlier(hmac: Hmac, token: string, key: string, now: real, earlier: real)
    requires earlier <= now && Verify(hmac, token, key, now).User?
    ensures Verify(hmac, token, key, earlier) == Verify(hmac, token, key, now)
  {
  }
}

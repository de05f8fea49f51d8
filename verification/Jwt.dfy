/** Compact tokens signed with HS256 (sections 3 and 7.1 of RFC 7515): the two
    places that mint them and the three that check them. */
module Jwt {
  import opened Wrappers
  import opened Base64Url

  datatype Json =
    | JNull
    | JBool(b: bool)
    | JNumber(n: real)
    | JString(s: string)
    | JArray(items: seq<Json>)
    | JObject(fields: map<string, Json>)

  /** What the token code calls into: the keyed hash of a text under the shared
      secret, and printing and reading JSON. */
  datatype Env = Env(mac: string -> seq<byte>, dumps: Json -> seq<byte>, loads: seq<byte> -> Option<Json>)

  /** HMAC-SHA256 digests have 32 bytes, and no JSON text is empty. */
  ghost predicate Sound(env: Env) {
    (forall text: string :: |env.mac(text)| == 32) && env.loads([]) == None
  }

  const HEADER := JObject(map["alg" := JString("HS256"), "typ" := JString("JWT")])

  /** `text.split(".")`. */
  function Split(text: string): (parts: seq<string>)
    ensures parts != []
  {
    if text == [] then [""]
    else
      var rest := Split(text[1..]);
      if text[0] == '.' then [""] + rest else [[text[0]] + rest[0]] + rest[1..]
  }

  /** `json.loads(decode(segment))`, with every exception read as `None`. */
  function Read(env: Env, segment: string): Option<Json> {
    match Decode(segment)
    case None => None
    case Some(bytes) => env.loads(bytes)
  }

  function Lookup(j: Json, key: string): Option<Json> {
    if j.JObject? && key in j.fields then Some(j.fields[key]) else None
  }

  /** The number a value compares as; `None` is Python's TypeError. */
  function Numeric(j: Json): Option<real> {
    match j
    case JNumber(n) => Some(n)
    case JBool(b) => Some(if b then 1.0 else 0.0)
    case _ => None
  }

  /** `payload.get("exp", 0)` compared with the clock. */
  predicate NotExpired(payload: Json, now: real) {
    && payload.JObject?
    && var exp := if "exp" in payload.fields then Numeric(payload.fields["exp"]) else Some(0.0);
       exp.Some? && now <= exp.value
  }

  predicate Hs256(header: Option<Json>) {
    header.Some? && Lookup(header.value, "alg") == Some(JString("HS256"))
  }

  // ----- minting -----

  function SigningInput(header: string, payload: string): string {
    header + "." + payload
  }

  /** `_make_jwt`, in both modules. */
  function Mint(env: Env, payload: Json): string {
    var header64, payload64 := Encode(env.dumps(HEADER)), Encode(env.dumps(payload));
    var input := SigningInput(header64, payload64);
    input + "." + Encode(env.mac(input))
  }

  function GuestPayload(guest: string, now: int, expiry: int): Json {
    JObject(map["sub" := JString(guest), "iat" := JNumber(now as real), "exp" := JNumber((now + expiry) as real)])
  }

  // ----- the three validators -----

  /** `WebJwtVerifier.verify`. */
  predicate WebAccepts(env: Env, token: string, now: real) {
    var parts := Split(token);
    && |parts| == 3
    && Hs256(Read(env, parts[0]))
    && IsAscii(SigningInput(parts[0], parts[1]))
    && Decode(parts[2]) == Some(env.mac(SigningInput(parts[0], parts[1])))
    && var payload := Read(env, parts[1]);
       payload.Some? && NotExpired(payload.value, now)
  }

  /** `WebAdapter.process_message`, up to the user id; an error is the
      exception it raises. */
  function WebUser(env: Env, token: string, now: real): Result<Json> {
    if !WebAccepts(env, token, now) then Err("WebAuthError")
    else
      var payload := Read(env, Split(token)[1]);
      match Lookup(payload.value, "sub")
      case Some(sub) => Ok(sub)
      case None => Err("KeyError")
  }

  /** `get_current_user_role`. */
  function Role(env: Env, token: string, now: real, adminUser: string): string {
    var parts := Split(token);
    if token == "" || |parts| != 3 then "anonymous"
    else if parts[2] != Encode(env.mac(SigningInput(parts[0], parts[1]))) then "anonymous"
    else
      var payload := Read(env, parts[1]);
      if payload.None? || !NotExpired(payload.value, now) then "anonymous"
      else if Subject(payload.value) == JString(adminUser) then "admin" else "customer"
  }

  function Subject(payload: Json): Json {
    match Lookup(payload, "sub")
    case Some(sub) => sub
    case None => JString("")
  }

  predicate AuthAccepts(env: Env, token: string, now: real, adminUser: string) {
    Role(env, token, now, adminUser) != "anonymous"
  }

  datatype Verdict = Accepted | Refused | Raised

  /** Is `key` a substring of `text`? */
  predicate Contains(text: string, key: string) {
    exists i {:trigger text[i..]} | 0 <= i <= |text| :: key <= text[i..]
  }

  /** `"exp" in payload and now > payload["exp"]`; `None` is an exception. */
  function Lapsed(payload: Json, now: real): Option<bool> {
    match payload
    case JObject(fields) =>
      if "exp" !in fields then Some(false)
      else (match Numeric(fields["exp"]) case Some(exp) => Some(now > exp) case None => None)
    case JArray(items) => if JString("exp") in items then None else Some(false)
    case JString(s) => if Contains(s, "exp") then None else Some(false)
    case _ => None
  }

  /** `verify_jwt` of the WebSocket endpoint. */
  function WsVerdict(env: Env, token: string, now: real): Verdict {
    var parts := Split(token);
    if token == "" || |parts| != 3 || "" in parts then Refused
    else if !Hs256(Read(env, parts[0])) then Refused
    else if !IsAscii(SigningInput(parts[0], parts[1])) then Raised
    else if Decode(parts[2]) != Some(env.mac(SigningInput(parts[0], parts[1]))) then Refused
    else
      match Read(env, parts[1])
      case None => Refused
      case Some(payload) => if Lapsed(payload, now) == Some(false) then Accepted else Refused
  }

  // ----- tokens that the system minted -----

  lemma {:induction false} SplitSegment(a: string, rest: string)
    requires '.' !in a
    ensures Split(a) == [a]
    ensures Split(a + "." + rest) == [a] + Split(rest)
  {
    if a == "" {
      assert "" + "." + rest == ['.'] + rest;
    } else {
      assert (a + "." + rest)[1..] == a[1..] + "." + rest;
      SplitSegment(a[1..], rest);
      assert [a[0]] + a[1..] == a;
    }
  }

  function JoinDots(parts: seq<string>): string
    requires parts != []
  {
    if |parts| == 1 then parts[0] else parts[0] + "." + JoinDots(parts[1..])
  }

  /** Splitting cuts at every dot and nowhere else. */
  lemma {:induction false} SplitExactly(text: string)
    ensures JoinDots(Split(text)) == text && forall part | part in Split(text) :: '.' !in part
  {
    if text != "" {
      var rest := Split(text[1..]);
      SplitExactly(text[1..]);
      assert text == [text[0]] + text[1..];
      if text[0] == '.' {
        assert ([""] + rest)[1..] == rest;
      } else {
        var parts := [[text[0]] + rest[0]] + rest[1..];
        assert parts[1..] == rest[1..];
      }
    }
  }

  lemma MintedSegments(env: Env, payload: Json)
    ensures
      var h, p := Encode(env.dumps(HEADER)), Encode(env.dumps(payload));
      Split(Mint(env, payload)) == [h, p, Encode(env.mac(SigningInput(h, p)))]
  {
    hide Encode, Decode;
    var h, p := Encode(env.dumps(HEADER)), Encode(env.dumps(payload));
    var s := Encode(env.mac(SigningInput(h, p)));
    RoundTrip(env.dumps(HEADER));
    RoundTrip(env.dumps(payload));
    RoundTrip(env.mac(SigningInput(h, p)));
    assert Mint(env, payload) == h + "." + (p + "." + s);
    SplitSegment(h, p + "." + s);
    SplitSegment(p, s);
    SplitSegment(s, "");
  }

  /** A minted token with a numeric expiry is accepted by every validator as
      long as it has not expired, and by none afterwards. */
  lemma MintedTokensAgree(env: Env, payload: Json, exp: real, now: real, adminUser: string)
    requires Sound(env)
    requires env.loads(env.dumps(HEADER)) == Some(HEADER) && env.loads(env.dumps(payload)) == Some(payload)
    requires payload.JObject? && Lookup(payload, "exp") == Some(JNumber(exp))
    ensures WebAccepts(env, Mint(env, payload), now) <==> now <= exp
    ensures AuthAccepts(env, Mint(env, payload), now, adminUser) <==> now <= exp
    ensures WsVerdict(env, Mint(env, payload), now) == if now <= exp then Accepted else Refused
  {
    hide Encode, Decode, Split;
    var h, p := Encode(env.dumps(HEADER)), Encode(env.dumps(payload));
    var input := SigningInput(h, p);
    MintedSegments(env, payload);
    RoundTrip(env.dumps(HEADER));
    RoundTrip(env.dumps(payload));
    RoundTrip(env.mac(input));
    DecodeEmpty();
    assert "" !in [h, p, Encode(env.mac(input))];
    assert Mint(env, payload) != "";
  }

  lemma DecodeEmpty()
    ensures Decode("") == Some([])
  {
    assert "" + Padding(0) == "";
  }

  /** Whom the API takes the bearer of a minted token for: while it is live, the
      administrator if the subject is the administrator's name, where a missing
      subject counts as the empty name, and a customer otherwise. */
  lemma MintedRoles(env: Env, fields: map<string, Json>, exp: real, now: real, adminUser: string)
    requires Sound(env) && env.loads(env.dumps(HEADER)) == Some(HEADER)
    requires env.loads(env.dumps(JObject(fields))) == Some(JObject(fields))
    requires "exp" in fields && fields["exp"] == JNumber(exp)
    ensures
      var named := if "sub" in fields then fields["sub"] == JString(adminUser) else adminUser == "";
      Role(env, Mint(env, JObject(fields)), now, adminUser)
      == if exp < now then "anonymous" else if named then "admin" else "customer"
  {
    hide Encode, Decode, Split, NotExpired;
    var payload := JObject(fields);
    MintedTokensAgree(env, payload, exp, now, adminUser);
    MintedSegments(env, payload);
    RoundTrip(env.dumps(payload));
  }

  // ----- tokens that only look minted -----

  /** A token of three encoded segments: any header, any signature. */
  function Assembled(env: Env, header: Json, payload: Json, sig: seq<byte>): string {
    SigningInput(Encode(env.dumps(header)), Encode(env.dumps(payload))) + "." + Encode(sig)
  }

  lemma AssembledSegments(env: Env, header: Json, payload: Json, sig: seq<byte>)
    ensures
      var h, p := Encode(env.dumps(header)), Encode(env.dumps(payload));
      Split(Assembled(env, header, payload, sig)) == [h, p, Encode(sig)] && IsAscii(SigningInput(h, p))
  {
    hide Encode, Decode;
    var h, p, s := Encode(env.dumps(header)), Encode(env.dumps(payload)), Encode(sig);
    RoundTrip(env.dumps(header));
    RoundTrip(env.dumps(payload));
    RoundTrip(sig);
    assert Assembled(env, header, payload, sig) == h + "." + (p + "." + s);
    SplitSegment(h, p + "." + s);
    SplitSegment(p, s);
    SplitSegment(s, "");
    AsciiConcat(h, p);
  }

  /** With a live payload, a token assembled from any header and any signature
      is accepted by the API if and only if the signature is right, and by the
      two others if and only if the header names HS256 as well. */
  lemma AssembledTokens(env: Env, header: Json, payload: Json, sig: seq<byte>, exp: real, now: real, adminUser: string)
    requires Sound(env)
    requires env.loads(env.dumps(header)) == Some(header) && env.loads(env.dumps(payload)) == Some(payload)
    requires payload.JObject? && Lookup(payload, "exp") == Some(JNumber(exp)) && now <= exp
    ensures
      var token := Assembled(env, header, payload, sig);
      var genuine := sig == env.mac(SigningInput(Encode(env.dumps(header)), Encode(env.dumps(payload))));
      var named := header.JObject? && "alg" in header.fields && header.fields["alg"] == JString("HS256");
      && (AuthAccepts(env, token, now, adminUser) <==> genuine)
      && (WebAccepts(env, token, now) <==> genuine && named)
      && WsVerdict(env, token, now) == if genuine && named then Accepted else Refused
  {
    hide Encode, Decode, Split;
    AssembledSegments(env, header, payload, sig);
    RoundTrip(env.dumps(header));
    RoundTrip(env.dumps(payload));
    RoundTrip(sig);
    DecodeEmpty();
    RoundTrip(env.mac(SigningInput(Encode(env.dumps(header)), Encode(env.dumps(payload)))));
    assert Assembled(env, header, payload, sig) != "";
  }

  // ----- tokens without an expiry -----

  /** The text "exp" stands in `s` at position `i`. */
  predicate ExpAt(s: string, i: nat) {
    i + 2 < |s| && s[i] == 'e' && s[i + 1] == 'x' && s[i + 2] == 'p'
  }

  lemma ContainsExp(s: string)
    ensures Contains(s, "exp") <==> exists i: nat :: ExpAt(s, i)
  {
    if Contains(s, "exp") {
      var i :| 0 <= i <= |s| && "exp" <= s[i..];
      assert s[i..][..3] == "exp";
      assert s[i..][0] == s[i] && s[i..][1] == s[i + 1] && s[i..][2] == s[i + 2];
      assert ExpAt(s, i);
    }
    if i: nat :| ExpAt(s, i) {
      assert s[i..][..3] == "exp";
    }
  }

  /** A minted token whose payload has no expiry: after the epoch the API and the
      web adapter refuse it; the WebSocket accepts objects, arrays that do not
      list "exp" and strings in which "exp" does not occur. */
  lemma MintedWithoutExpiry(env: Env, payload: Json, now: real, adminUser: string)
    requires Sound(env) && now > 0.0
    requires env.loads(env.dumps(HEADER)) == Some(HEADER) && env.loads(env.dumps(payload)) == Some(payload)
    requires Lookup(payload, "exp") == None
    ensures !WebAccepts(env, Mint(env, payload), now) && !AuthAccepts(env, Mint(env, payload), now, adminUser)
    ensures WsVerdict(env, Mint(env, payload), now) == Accepted
       <==> (match payload
             case JObject(_) => true
             case JArray(items) => JString("exp") !in items
             case JString(s) => !exists i: nat :: ExpAt(s, i)
             case _ => false)
    ensures WsVerdict(env, Mint(env, payload), now) != Raised
  {
    hide Encode, Decode, Split, Contains, ExpAt;
    var h, p := Encode(env.dumps(HEADER)), Encode(env.dumps(payload));
    var input := SigningInput(h, p);
    MintedSegments(env, payload);
    RoundTrip(env.dumps(HEADER));
    RoundTrip(env.dumps(payload));
    RoundTrip(env.mac(input));
    DecodeEmpty();
    assert "" !in [h, p, Encode(env.mac(input))];
    assert Mint(env, payload) != "";
    if payload.JString? { ContainsExp(payload.s); }
  }

  /** What counts as an expiry in an object: a number; true and false are 1 and
      0; with anything else no validator accepts, and the WebSocket refuses. */
  lemma OddExpiries(env: Env, fields: map<string, Json>, now: real, adminUser: string)
    requires Sound(env)
    requires env.loads(env.dumps(HEADER)) == Some(HEADER)
    requires env.loads(env.dumps(JObject(fields))) == Some(JObject(fields))
    requires "exp" in fields && !fields["exp"].JNumber?
    ensures
      var token, live := Mint(env, JObject(fields)), fields["exp"].JBool? && now <= if fields["exp"].b then 1.0 else 0.0;
      && (WebAccepts(env, token, now) <==> live) && (AuthAccepts(env, token, now, adminUser) <==> live)
      && WsVerdict(env, token, now) == if live then Accepted else Refused
  {
    hide Encode, Decode, Split;
    var h, p := Encode(env.dumps(HEADER)), Encode(env.dumps(JObject(fields)));
    var input := SigningInput(h, p);
    MintedSegments(env, JObject(fields));
    RoundTrip(env.dumps(HEADER));
    RoundTrip(env.dumps(JObject(fields)));
    RoundTrip(env.mac(input));
    DecodeEmpty();
    assert "" !in [h, p, Encode(env.mac(input))];
    assert Mint(env, JObject(fields)) != "";
  }

  /** A guest session's token names the guest it was created for. */
  lemma GuestTokenNamesGuest(env: Env, guest: string, start: int, expiry: int, now: real)
    requires Sound(env)
    requires env.loads(env.dumps(HEADER)) == Some(HEADER)
    requires var p := GuestPayload(guest, start, expiry); env.loads(env.dumps(p)) == Some(p)
    ensures WebUser(env, Mint(env, GuestPayload(guest, start, expiry)), now)
         == if now <= (start + expiry) as real then Ok(JString(guest)) else Err("WebAuthError")
  {
    hide Encode, Decode, Split;
    var p := GuestPayload(guest, start, expiry);
    MintedTokensAgree(env, p, (start + expiry) as real, now, "");
    MintedSegments(env, p);
    RoundTrip(env.dumps(p));
  }

  // ----- any token -----

  /** The signature is written the one way the minting side writes it. */
  predicate Canonical(env: Env, token: string) {
    var parts := Split(token);
    |parts| == 3 && parts[2] == Encode(env.mac(SigningInput(parts[0], parts[1])))
  }

  predicate HeaderIsHs256(env: Env, token: string) {
    var parts := Split(token);
    |parts| == 3 && Hs256(Read(env, parts[0]))
  }

  /** On every token: the API accepts what the web adapter accepts with a
      canonical signature, and the only further thing the web adapter asks for
      is the algorithm in the header. */
  lemma AuthAgainstWeb(env: Env, token: string, now: real, adminUser: string)
    ensures AuthAccepts(env, token, now, adminUser) && HeaderIsHs256(env, token)
       <==> WebAccepts(env, token, now) && Canonical(env, token)
  {
    hide Encode, Decode;
    var parts := Split(token);
    if |parts| == 3 && parts[2] == Encode(env.mac(SigningInput(parts[0], parts[1]))) {
      RoundTrip(env.mac(SigningInput(parts[0], parts[1])));
      ReadIsAscii(env, parts[0]);
      ReadIsAscii(env, parts[1]);
    }
  }

  lemma ReadIsAscii(env: Env, segment: string)
    ensures Read(env, segment).Some? ==> IsAscii(segment)
  {
  }

  /** On every token: what the web adapter accepts the WebSocket accepts too,
      and what the WebSocket accepts beyond that (after the epoch) are exactly
      payloads without an expiry. */
  lemma WebAgainstWs(env: Env, token: string, now: real)
    requires Sound(env) && now > 0.0
    ensures WebAccepts(env, token, now)
       <==> WsVerdict(env, token, now) == Accepted
            && Lookup(Read(env, Split(token)[1]).value, "exp").Some?
  {
    hide Encode, Decode;
    var parts := Split(token);
    DecodeEmpty();
    if WebAccepts(env, token, now) {
      assert parts[0] != "" && parts[1] != "" && parts[2] != "";
      assert token != "";
    }
  }

  /** The WebSocket check is the only one that can raise: on a token with a
      good header whose payload segment is not ASCII. */
  lemma WsRaisesExactly(env: Env, token: string, now: real)
    requires Sound(env)
    ensures WsVerdict(env, token, now) == Raised
       <==> (var parts := Split(token);
             |parts| == 3 && parts[2] != "" && Hs256(Read(env, parts[0])) && !IsAscii(parts[1]))
  {
    hide Encode, Decode;
    var parts := Split(token);
    DecodeEmpty();
    if |parts| == 3 {
      ReadIsAscii(env, parts[0]);
      AsciiConcat(parts[0], parts[1]);
    }
  }

  /** Such a token: a good header, a payload segment that is an accented letter,
      and any signature segment. */
  lemma WsRaises(env: Env, now: real)
    requires Sound(env) && env.loads(env.dumps(HEADER)) == Some(HEADER)
    ensures WsVerdict(env, Encode(env.dumps(HEADER)) + "." + ("\U{E9}" + "." + "x"), now) == Raised
  {
    hide Encode, Decode, WsVerdict;
    var header, payload := Encode(env.dumps(HEADER)), "\U{E9}";
    var token := header + "." + (payload + "." + "x");
    RoundTrip(env.dumps(HEADER));
    SplitSegment(header, payload + "." + "x");
    SplitSegment(payload, "x");
    SplitSegment("x", "");
    assert payload[0] as int >= 128;
    WsRaisesExactly(env, token, now);
  }

  lemma AsciiConcat(a: string, b: string)
    ensures IsAscii(SigningInput(a, b)) <==> IsAscii(a) && IsAscii(b)
  {
    var t := SigningInput(a, b);
    assert forall i | 0 <= i < |a| :: t[i] == a[i];
    assert forall i | 0 <= i < |b| :: t[|a| + 1 + i] == b[i];
  }

  /** A minted token whose signature is rewritten with other spare bits. */
  function Respelled(env: Env, payload: Json, spare: nat): string
    requires spare < 4
  {
    var input := SigningInput(Encode(env.dumps(HEADER)), Encode(env.dumps(payload)));
    input + "." + EncodeSpare(env.mac(input), spare)
  }

  /** The canonical-signature condition matters: rewritten, a live token is
      still accepted by two of the three, and refused by the third. */
  lemma RespelledTokens(env: Env, payload: Json, exp: real, now: real, adminUser: string, spare: nat)
    requires Sound(env) && 0 < spare < 4
    requires env.loads(env.dumps(HEADER)) == Some(HEADER) && env.loads(env.dumps(payload)) == Some(payload)
    requires payload.JObject? && Lookup(payload, "exp") == Some(JNumber(exp)) && 0.0 < now <= exp
    ensures WebAccepts(env, Respelled(env, payload, spare), now)
    ensures WsVerdict(env, Respelled(env, payload, spare), now) == Accepted
    ensures !AuthAccepts(env, Respelled(env, payload, spare), now, adminUser)
  {
    hide Encode, EncodeSpare, Decode, Split;
    var h, p := Encode(env.dumps(HEADER)), Encode(env.dumps(payload));
    var input := SigningInput(h, p);
    var s := EncodeSpare(env.mac(input), spare);
    RoundTrip(env.dumps(HEADER));
    RoundTrip(env.dumps(payload));
    EncodeShape(env.mac(input), spare);
    DecodeEncoded(env.mac(input), spare);
    SpareBitsDiffer(env.mac(input), spare);
    assert Respelled(env, payload, spare) == h + "." + (p + "." + s);
    SplitSegment(h, p + "." + s);
    SplitSegment(p, s);
    SplitSegment(s, "");
    AsciiConcat(h, p);
    WebAgainstWs(env, Respelled(env, payload, spare), now);
  }
}

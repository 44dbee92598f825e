/**
 The signed, self-describing OAuth state token and its fingerprint cookie
 (apps/web/lib/discord-oauth-cookies.ts). A path is its UTF-8 bytes. The keyed
 hash, the hash and the path sanitizer are arbitrary functions.
 */
module OAuthAttempt {
  import opened Wrappers
  import opened BigEndian
  import opened Base64Url

  type Digest = d: seq<byte> | |d| == 32 witness seq(32, i => 0)

  type Path = p: seq<byte> | p != [] witness [47]

  datatype Kit = Kit(sign: (seq<byte>, string) -> Digest, hash: string -> Digest, sanitize: seq<byte> -> Path)

  const VERSION := 1
  const NONCE_BYTES := 24
  const SIGNATURE_BYTES := 32
  const HEADER_BYTES := 31
  const MAX_AGE_SECONDS := 600
  const FUTURE_SKEW_SECONDS := 30
  const PATH_MAX_BYTES := 512
  const SLOT_COUNT := 32
  const ROOT: Path := [47]
  const SLOT_PREFIX := "__Host-ivrm_discord_oauth_slot_"

  datatype Error = NoSecret | BadIssueTime | IssueTimeOutOfRange

  datatype Result<T> = Ok(value: T) | Err(error: Error)

  datatype Attempt = Attempt(state: string, returnTo: Path, cookieName: string, cookieValue: string)

  predicate IsToken(s: string) { 80 <= |s| <= 800 && IsText(s) }

  predicate IsFingerprint(s: string) { |s| == 43 && IsText(s) }

  function Hex(v: int): char
    requires 0 <= v < 16
  {
    if v < 10 then '0' + v as char else 'a' + (v - 10) as char
  }

  function CookieName(fingerprint: Digest): string {
    var slot := (fingerprint[0] as int * 256 + fingerprint[1] as int) % SLOT_COUNT;
    SLOT_PREFIX + [Hex(slot / 16), Hex(slot % 16)]
  }

  function SafeReturnPath(kit: Kit, value: seq<byte>): (p: Path)
    ensures 1 <= |p| <= PATH_MAX_BYTES
  {
    if |kit.sanitize(value)| <= PATH_MAX_BYTES then kit.sanitize(value) else ROOT
  }

  // ---- The payload

  /** Version, issue time, nonce, path length, path. */
  function Payload(issued: int, nonce: seq<byte>, path: seq<byte>): (p: seq<byte>)
    requires 0 <= issued <= MAX_UINT32 && |nonce| == NONCE_BYTES && |path| <= PATH_MAX_BYTES
    ensures |p| == HEADER_BYTES + |path|
  {
    [VERSION] + Big32(issued) + nonce + Big16(|path|) + path
  }

  /** The source's buffer, filled in place field by field. */
  method BuildPayload(issued: int, nonce: seq<byte>, path: seq<byte>) returns (payload: array<byte>)
    requires 0 <= issued <= MAX_UINT32 && |nonce| == NONCE_BYTES && |path| <= PATH_MAX_BYTES
    ensures fresh(payload) && payload[..] == Payload(issued, nonce, path)
  {
    payload := new byte[HEADER_BYTES + |path|](_ => 0);
    payload[0] := VERSION;
    payload[1], payload[2], payload[3], payload[4] :=
      issued / 0x1_0000 / 0x100, issued / 0x1_0000 % 0x100, issued % 0x1_0000 / 0x100, issued % 0x1_0000 % 0x100;
    forall i | 0 <= i < NONCE_BYTES { payload[5 + i] := nonce[i]; }
    payload[29], payload[30] := |path| / 0x100, |path| % 0x100;
    forall i | 0 <= i < |path| { payload[HEADER_BYTES + i] := path[i]; }
    PayloadBytes(issued, nonce, path, payload[..]);
  }

  lemma {:induction false} PayloadBytes(issued: int, nonce: seq<byte>, path: seq<byte>, p: seq<byte>)
    requires 0 <= issued <= MAX_UINT32 && |nonce| == NONCE_BYTES && |path| <= PATH_MAX_BYTES
    requires |p| == HEADER_BYTES + |path| && p[0] == VERSION
    requires [p[1], p[2], p[3], p[4]] == Big32(issued)
    requires forall i | 0 <= i < NONCE_BYTES :: p[5 + i] == nonce[i]
    requires [p[29], p[30]] == Big16(|path|)
    requires forall i | 0 <= i < |path| :: p[HEADER_BYTES + i] == path[i]
    ensures p == Payload(issued, nonce, path)
  {
    assert p[5..29] == nonce;
    assert p[31..] == path;
    assert p[1..5] == [p[1], p[2], p[3], p[4]];
    assert p[29..31] == [p[29], p[30]];
    assert p == [p[0]] + p[1..5] + p[5..29] + p[29..31] + p[31..];
    hide Big16, Big32;
  }

  lemma {:induction false} ReadBack(issued: int, nonce: seq<byte>, path: seq<byte>)
    requires 0 <= issued <= MAX_UINT32 && |nonce| == NONCE_BYTES && |path| <= PATH_MAX_BYTES
    ensures var p := Payload(issued, nonce, path);
            && p[0] == VERSION && ReadBig32(p, 1) == issued && ReadBig16(p, 5 + NONCE_BYTES) == |path|
            && p[HEADER_BYTES..] == path && p[5..5 + NONCE_BYTES] == nonce
            && |p| == 31 + |path| && p[0] == 1 && p[5..29] == nonce && p[31..] == path
            && ((p[1] as int * 256 + p[2] as int) * 256 + p[3] as int) * 256 + p[4] as int == issued
            && p[29] as int * 256 + p[30] as int == |path|
  {
    var p := Payload(issued, nonce, path);
    assert p[1..5] == Big32(issued) && p[29..31] == Big16(|path|);
    Back32(issued);
    Back16(|path|);
    ReadSlice(p, 1);
    ReadSlice(p, 29);
    hide Big16, Big32;
  }

  /** Any payload with the right version and length field is one that could have been written. */
  lemma {:induction false} WriteBack(p: seq<byte>)
    requires HEADER_BYTES <= |p| <= HEADER_BYTES + PATH_MAX_BYTES
    requires p[0] == VERSION && ReadBig16(p, 5 + NONCE_BYTES) == |p| - HEADER_BYTES
    ensures p == Payload(ReadBig32(p, 1), p[5..5 + NONCE_BYTES], p[HEADER_BYTES..])
  {
    hide Big16, Big32, ReadBig16, ReadBig32;
    Forth16(p, 29);
    Forth32(p, 1);
    assert p == [p[0]] + p[1..5] + p[5..29] + p[29..31] + p[31..];
  }

  // ---- Creating and verifying

  /** The token of a payload and the fingerprint the browser keeps. */
  function Token(kit: Kit, secret: string, payload: seq<byte>): string { Encode(payload + kit.sign(payload, secret)) }

  function Created(kit: Kit, returnPath: seq<byte>, secret: string, issuedMs: int, nonce: seq<byte>): Result<Attempt>
    requires |nonce| == NONCE_BYTES
  {
    if secret == "" then Err(NoSecret)
    else if issuedMs < 0 then Err(BadIssueTime)
    else if issuedMs / 1000 > MAX_UINT32 then Err(IssueTimeOutOfRange)
    else
      var path := SafeReturnPath(kit, returnPath);
      var state := Token(kit, secret, Payload(issuedMs / 1000, nonce, path));
      Ok(Attempt(state, path, CookieName(kit.hash(state)), Encode(kit.hash(state))))
  }

  method Create(kit: Kit, returnPath: seq<byte>, secret: string, issuedMs: int, nonce: seq<byte>)
    returns (r: Result<Attempt>)
    requires |nonce| == NONCE_BYTES
    ensures r == Created(kit, returnPath, secret, issuedMs, nonce)
  {
    if secret == "" { return Err(NoSecret); }
    if issuedMs < 0 { return Err(BadIssueTime); }
    var returnTo := SafeReturnPath(kit, returnPath);
    var issued := issuedMs / 1000;
    if issued > MAX_UINT32 { return Err(IssueTimeOutOfRange); }
    var payload := BuildPayload(issued, nonce, returnTo);
    var state := Encode(payload[..] + kit.sign(payload[..], secret));
    var fingerprint := kit.hash(state);
    return Ok(Attempt(state, returnTo, CookieName(fingerprint), Encode(fingerprint)));
  }

  function SlotCookieName(kit: Kit, state: Option<string>): Option<string> {
    if state.None? || !IsToken(state.value) then None else Some(CookieName(kit.hash(state.value)))
  }

  function Verify(kit: Kit, state: Option<string>, cookie: Option<string>, secret: string, nowMs: int): Option<Path> {
    if state.None? || cookie.None? || secret == "" || !IsToken(state.value) || !IsFingerprint(cookie.value) then None
    else
      var encoded := Decode(state.value);
      if |encoded| < HEADER_BYTES + 1 + SIGNATURE_BYTES ||
         |encoded| > HEADER_BYTES + PATH_MAX_BYTES + SIGNATURE_BYTES then None
      else
        var payload, signature := encoded[..|encoded| - SIGNATURE_BYTES], encoded[|encoded| - SIGNATURE_BYTES..];
        if signature != kit.sign(payload, secret) then None
        else if payload[0] != VERSION then None
        else
          var issued, now := ReadBig32(payload, 1), nowMs / 1000;
          if issued > now + FUTURE_SKEW_SECONDS || now - issued > MAX_AGE_SECONDS then None
          else
            var length := ReadBig16(payload, 5 + NONCE_BYTES);
            if length < 1 || length > PATH_MAX_BYTES || |payload| != HEADER_BYTES + length then None
            else if Encode(kit.hash(state.value)) != cookie.value then None
            else Some(SafeReturnPath(kit, payload[HEADER_BYTES..]))
  }

  // ---- What is accepted

  /** The state decodes to a payload of this issue time, nonce and path, followed by its signature. */
  ghost predicate Carries(kit: Kit, state: string, secret: string, issued: int, nonce: seq<byte>, path: seq<byte>) {
    && 80 <= |state| <= 800 && IsText(state)
    && 0 <= issued <= MAX_UINT32 && |nonce| == NONCE_BYTES && 1 <= |path| <= PATH_MAX_BYTES
    && Decode(state) == Payload(issued, nonce, path) + kit.sign(Payload(issued, nonce, path), secret)
  }

  predicate InTime(issued: int, nowMs: int) { issued - FUTURE_SKEW_SECONDS <= nowMs / 1000 <= issued + MAX_AGE_SECONDS }

  predicate KeepsFingerprint(kit: Kit, state: string, cookie: string) { cookie == Encode(kit.hash(state)) }

  lemma {:induction false} CarriedIsAccepted(kit: Kit, state: string, cookie: string, secret: string, nowMs: int,
                          issued: int, nonce: seq<byte>, path: seq<byte>)
    requires secret != "" && Carries(kit, state, secret, issued, nonce, path)
    ensures Verify(kit, Some(state), Some(cookie), secret, nowMs) ==
            if InTime(issued, nowMs) && KeepsFingerprint(kit, state, cookie) then Some(SafeReturnPath(kit, path))
            else None
  {
    var payload, encoded := Payload(issued, nonce, path), Decode(state);
    ReadBack(issued, nonce, path);
    assert encoded[..|encoded| - SIGNATURE_BYTES] == payload;
    assert encoded[|encoded| - SIGNATURE_BYTES..] == kit.sign(payload, secret);
    hide Payload, ReadBig16, ReadBig32, Decode, Encode, SafeReturnPath;
  }

  /** Exactly the signed payloads are accepted, in time and with their own fingerprint, and give back their path. */
  lemma {:induction false} AcceptsExactly(kit: Kit, state: string, cookie: string, secret: string, nowMs: int)
    ensures Verify(kit, Some(state), Some(cookie), secret, nowMs).Some? <==>
            secret != "" && KeepsFingerprint(kit, state, cookie) &&
            exists issued, nonce, path :: Carries(kit, state, secret, issued, nonce, path) && InTime(issued, nowMs)
  {
    if Verify(kit, Some(state), Some(cookie), secret, nowMs).Some? {
      var encoded := Decode(state);
      var payload := encoded[..|encoded| - SIGNATURE_BYTES];
      WriteBack(payload);
      assert encoded == payload + encoded[|encoded| - SIGNATURE_BYTES..];
      hide Payload, ReadBig16, ReadBig32, Decode, Encode;
      assert Carries(kit, state, secret, ReadBig32(payload, 1), payload[5..5 + NONCE_BYTES], payload[HEADER_BYTES..]);
    } else if secret != "" && KeepsFingerprint(kit, state, cookie) {
      forall issued, nonce, path | Carries(kit, state, secret, issued, nonce, path) ensures !InTime(issued, nowMs) {
        CarriedIsAccepted(kit, state, cookie, secret, nowMs, issued, nonce, path);
      }
    }
  }

  /** Every token made for a path is within the accepted length, 80 to 800. */
  lemma {:induction false} TokenLength(kit: Kit, secret: string, issued: int, nonce: seq<byte>, path: seq<byte>)
    requires 0 <= issued <= MAX_UINT32 && |nonce| == NONCE_BYTES && 1 <= |path| <= PATH_MAX_BYTES
    ensures var token := Token(kit, secret, Payload(issued, nonce, path));
            86 <= |token| <= 767 && Carries(kit, token, secret, issued, nonce, path)
  {
    var payload := Payload(issued, nonce, path);
    RoundTrip(payload + kit.sign(payload, secret));
    hide Payload, Encode, Decode;
  }

  /** Creation fails only for a missing secret or an issue second outside 32 bits. */
  lemma {:induction false} CreationSucceeds(kit: Kit, returnPath: seq<byte>, secret: string, issuedMs: int,
                                            nonce: seq<byte>)
    requires |nonce| == NONCE_BYTES
    ensures Created(kit, returnPath, secret, issuedMs, nonce).Ok? <==>
            secret != "" && 0 <= issuedMs < 0x1_0000_0000 * 1000
  {
    hide Token, CookieName;
  }

  /**
     A created attempt verifies with its own cookie and secret exactly while the current whole second is from 30
     before to 600 after its issue second, and gives back the sanitized path. Its cookie is found by its state.
   */
  lemma {:induction false} CreatedVerifies(kit: Kit, returnPath: seq<byte>, secret: string, issuedMs: int,
                                           nonce: seq<byte>, nowMs: int)
    requires |nonce| == NONCE_BYTES && Created(kit, returnPath, secret, issuedMs, nonce).Ok?
    ensures var a := Created(kit, returnPath, secret, issuedMs, nonce).value;
            && Verify(kit, Some(a.state), Some(a.cookieValue), secret, nowMs) ==
               (if issuedMs / 1000 - 30 <= nowMs / 1000 <= issuedMs / 1000 + 600
                then Some(if |kit.sanitize(a.returnTo)| <= 512 then kit.sanitize(a.returnTo) else [47])
                else None)
            && a.returnTo == (if |kit.sanitize(returnPath)| <= 512 then kit.sanitize(returnPath) else [47])
            && SlotCookieName(kit, Some(a.state)) == Some(a.cookieName)
            && 86 <= |a.state| <= 767 && IsFingerprint(a.cookieValue)
  {
    var path := SafeReturnPath(kit, returnPath);
    TokenLength(kit, secret, issuedMs / 1000, nonce, path);
    var a := Created(kit, returnPath, secret, issuedMs, nonce).value;
    CarriedIsAccepted(kit, a.state, a.cookieValue, secret, nowMs, issuedMs / 1000, nonce, path);
    hide Token, Verify, Encode, Decode, Payload, CookieName;
  }

  /** With a sanitizer that leaves its own results and the root alone, verification gives back the path of creation. */
  lemma {:induction false} PathComesBack(kit: Kit, returnPath: seq<byte>, secret: string, issuedMs: int,
                                         nonce: seq<byte>, nowMs: int)
    requires |nonce| == NONCE_BYTES && Created(kit, returnPath, secret, issuedMs, nonce).Ok?
    requires kit.sanitize(kit.sanitize(returnPath)) == kit.sanitize(returnPath) && kit.sanitize([47]) == [47]
    ensures var a := Created(kit, returnPath, secret, issuedMs, nonce).value;
            var verified := Verify(kit, Some(a.state), Some(a.cookieValue), secret, nowMs);
            verified.Some? ==> verified.value == a.returnTo
  {
    CreatedVerifies(kit, returnPath, secret, issuedMs, nonce, nowMs);
    hide Created, Verify;
  }

  // ---- The cookie's name

  /** A cookie is looked up exactly for states of 80 to 800 characters of the alphabet. */
  lemma {:induction false} SlotExactly(kit: Kit, state: Option<string>)
    ensures SlotCookieName(kit, state) ==
            if state.Some? && 80 <= |state.value| <= 800 && IsText(state.value)
            then Some(CookieName(kit.hash(state.value))) else None
  {
    hide CookieName;
  }

  /** The last two characters of a cookie's name are the hexadecimal digits of the fingerprint's slot, 0 to 31. */
  lemma {:induction false} CookieSlot(fingerprint: Digest)
    ensures var slot := fingerprint[1] % 32;
            CookieName(fingerprint) ==
            "__Host-ivrm_discord_oauth_slot_" + [if slot < 16 then '0' else '1', "0123456789abcdef"[slot % 16]]
  {
    var high, low: int := fingerprint[0], fingerprint[1];
    assert (high * 256 + low) % 32 == low % 32;
  }

  /** Two fingerprints share a cookie exactly when their second bytes agree in the last five bits. */
  lemma {:induction false} CookieShared(a: Digest, b: Digest)
    ensures CookieName(a) == CookieName(b) <==> a[1] % 32 == b[1] % 32
  {
    CookieSlot(a);
    CookieSlot(b);
    HexDistinct(a[1] % 32, b[1] % 32);
    var n := |SLOT_PREFIX|;
    if CookieName(a) == CookieName(b) {
      assert CookieName(a)[n] == CookieName(b)[n] && CookieName(a)[n + 1] == CookieName(b)[n + 1];
    }
    hide CookieName;
  }

  lemma {:induction false} HexDistinct(a: int, b: int)
    requires 0 <= a < 32 && 0 <= b < 32
    ensures (a < 16 <==> b < 16) && "0123456789abcdef"[a % 16] == "0123456789abcdef"[b % 16] ==> a == b
  {
    assert forall i, j | 0 <= i < j < 16 :: "0123456789abcdef"[i] != "0123456789abcdef"[j];
  }
}

/** The signed llmToken: payload and signature in base64url, joined by a dot. */
module Tokens {
  import opened Common
  import opened Base64

  const MIN_TTL := 60

  datatype Field = Text(text: string) | Number(number: int)

  /** A JSON document, as far as the verification looks at it. */
  datatype Json = NotAnObject | Object(fields: map<string, Field>)

  /** Library functions: the HMAC of a text under a key, and JSON on UTF-8 bytes. */
  datatype Library = Library(
    hmac: (string, string) -> seq<Byte>,
    dumps: map<string, Field> -> seq<Byte>,
    loads: seq<int> -> Option<Json>,
    parseInt: string -> Option<int>)

  /** Serialisation is read back exactly. */
  ghost predicate Faithful(lib: Library) {
    forall m :: lib.loads(lib.dumps(m)) == Some(Object(m))
  }

  /** Unavailable: no key is configured (503). Crash: an exception the verification does not catch. */
  datatype TokenError = Unavailable | Malformed | BadSignature | BadPayload | Expired | Crash

  function Claims(jti: string, uuid: string, email: string, now: int, ttl: int): map<string, Field> {
    map["jti" := Text(jti), "iat" := Number(now), "exp" := Number(now + Max(MIN_TTL, ttl)),
        "client_uuid" := Text(uuid), "email" := Text(email), "scope" := Text("llm")]
  }

  /** The token and its expiry, or nothing when no key is configured. */
  function Mint(lib: Library, key: string, jti: string, uuid: string, email: string, now: int,
                ttl: int): Option<(string, int)> {
    if key == "" then None
    else
      var payload := Encode(lib.dumps(Claims(jti, uuid, email, now, ttl)));
      Some((payload + "." + Encode(lib.hmac(key, payload)), now + Max(MIN_TTL, ttl)))
  }

  /** The parts before and after the first dot. */
  function SplitAtDot(s: string): Option<(string, string)> {
    if s == "" then None
    else if s[0] == '.' then Some(("", s[1..]))
    else match SplitAtDot(s[1..])
      case Some((a, b)) => Some(([s[0]] + a, b))
      case None => None
  }

  /** The expiry as an integer, 0 if it is missing or empty; None where it is no number. */
  function Expiry(lib: Library, fields: map<string, Field>): Option<int> {
    if "exp" !in fields || fields["exp"] == Text("") then Some(0)
    else match fields["exp"]
      case Number(n) => Some(n)
      case Text(t) => lib.parseInt(t)
  }

  function Verify(lib: Library, key: string, token: string, now: int): Result<map<string, Field>, TokenError> {
    if key == "" then Err(Unavailable)
    else match SplitAtDot(token)
      case None => Err(Malformed)
      case Some((payload, signature)) =>
        match Decode(signature)
        case None => Err(Malformed)
        case Some(provided) =>
          if provided != lib.hmac(key, payload) then Err(BadSignature)
          else
            var json := match Decode(payload) case Some(raw) => lib.loads(raw) case None => None;
            match json
            case None => Err(Malformed)
            case Some(NotAnObject) => Err(BadPayload)
            case Some(Object(fields)) =>
              if "scope" !in fields || fields["scope"] != Text("llm") then Err(BadPayload)
              else match Expiry(lib, fields)
                case None => Err(Crash)
                case Some(exp) => if exp <= now then Err(Expired) else Ok(fields)
  }

  /** Without a dot before it, the separator is the first dot. */
  lemma {:induction false} SplitAtSeparator(a: string, b: string)
    requires '.' !in a
    ensures SplitAtDot(a + "." + b) == Some((a, b))
  {
    var s := a + "." + b;
    if a == "" {
      assert s[1..] == b;
    } else {
      assert s[1..] == a[1..] + "." + b;
      SplitAtSeparator(a[1..], b);
      assert a == [a[0]] + a[1..];
    }
  }

  /** The separator is the first dot, if there is one. */
  lemma {:induction false} SplitIsAtFirstDot(s: string)
    ensures SplitAtDot(s).None? ==> '.' !in s
    ensures SplitAtDot(s).Some? ==>
              var (a, b) := SplitAtDot(s).value; '.' !in a && s == a + "." + b
  {
    if s != "" && s[0] != '.' {
      SplitIsAtFirstDot(s[1..]);
      assert s == [s[0]] + s[1..];
    } else if s != "" {
      assert s == "" + "." + s[1..];
    }
  }

  /** p and s are the payload and signature parts of the token, and s is the HMAC of p under the key. */
  predicate IsSigned(lib: Library, key: string, token: string, p: string, s: string) {
    '.' !in p && token == p + "." + s && Decode(s) == Some(lib.hmac(key, p))
  }

  predicate Carries(lib: Library, p: string, fields: map<string, Field>) {
    Decode(p).Some? && lib.loads(Decode(p).value) == Some(Object(fields))
  }

  /** A missing or empty expiry counts as zero. */
  predicate ExpiresAfter(lib: Library, fields: map<string, Field>, now: int) {
    if "exp" in fields && fields["exp"].Number? then fields["exp"].number > now
    else if "exp" in fields && fields["exp"].text != "" then
      lib.parseInt(fields["exp"].text).Some? && lib.parseInt(fields["exp"].text).value > now
    else now < 0
  }

  lemma PartsAreUnique(token: string, p: string, s: string)
    requires '.' !in p && token == p + "." + s
    ensures SplitAtDot(token) == Some((p, s))
  {
    SplitAtSeparator(p, s);
  }

  /** A token is accepted if and only if a key is configured, its second part is the HMAC of its first under that key,
      and its first part carries the fields returned, with the scope and an expiry still to come. */
  lemma AcceptedIffSigned(lib: Library, key: string, token: string, now: int, fields: map<string, Field>)
    ensures Verify(lib, key, token, now) == Ok(fields) <==>
            && key != ""
            && (exists p, s :: IsSigned(lib, key, token, p, s) && Carries(lib, p, fields))
            && "scope" in fields && fields["scope"] == Text("llm") && ExpiresAfter(lib, fields, now)
  {
    SplitIsAtFirstDot(token);
    if Verify(lib, key, token, now) == Ok(fields) {
      var (p, s) := SplitAtDot(token).value;
      assert IsSigned(lib, key, token, p, s) && Carries(lib, p, fields);
    }
    forall p, s | IsSigned(lib, key, token, p, s) ensures SplitAtDot(token) == Some((p, s)) {
      PartsAreUnique(token, p, s);
    }
  }

  /** A token whose signature is not the HMAC of its payload is refused, as such if it can be decoded at all. */
  lemma ForgedIsRefused(lib: Library, key: string, p: string, s: string, now: int)
    requires '.' !in p && Decode(s) != Some(lib.hmac(key, p))
    ensures Verify(lib, key, p + "." + s, now).Err?
    ensures key != "" && Decode(s).Some? ==> Verify(lib, key, p + "." + s, now) == Err(BadSignature)
  {
    PartsAreUnique(p + "." + s, p, s);
  }

  /** Under the key it was minted with, a token is accepted with exactly its payload until its expiry, and refused as
      expired from then on; the lifetime is the one configured, but at least a minute. */
  lemma MintedTokensVerify(lib: Library, key: string, jti: string, uuid: string, email: string, minted: int, ttl: int,
                           now: int)
    requires Faithful(lib) && key != ""
    ensures var token := Mint(lib, key, jti, uuid, email, minted, ttl);
            && token.Some? && token.value.1 == minted + Max(60, ttl)
            && var r := Verify(lib, key, token.value.0, now);
               && (now >= token.value.1 ==> r == Err(Expired))
               && (now < token.value.1 ==>
                     && r.Ok? && r.value.Keys == {"jti", "iat", "exp", "client_uuid", "email", "scope"}
                     && r.value["jti"] == Text(jti) && r.value["client_uuid"] == Text(uuid)
                     && r.value["email"] == Text(email) && r.value["scope"] == Text("llm")
                     && r.value["iat"] == Number(minted) && r.value["exp"] == Number(token.value.1))
  {
    var claims := Claims(jti, uuid, email, minted, ttl);
    var payload := Encode(lib.dumps(claims));
    EncodeShape(lib.dumps(claims));
    SplitAtSeparator(payload, Encode(lib.hmac(key, payload)));
    RoundTrip(lib.hmac(key, payload));
    RoundTrip(lib.dumps(claims));
    assert lib.loads(lib.dumps(claims)) == Some(Object(claims));
  }
}

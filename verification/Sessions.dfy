/**
 The session secret and session tokens (main.go): how the environment value is decoded, and that a
 token gives back the user it was made for, for exactly as long as it should.
 */
module Sessions {
  import opened Wrappers
  import opened Codecs
  import Text

  // ---------------------------------------------------------------- the secret

  /** The environment value as hex, else as base64, else as it stands; unset, a generated secret. */
  function LoadSessionSecret(raw: string, generated: seq<byte>): seq<byte> {
    if raw == "" then generated
    else match HexDecode(raw)
      case Some(secret) => secret
      case None =>
        match Base64Decode(raw)
        case Some(secret) => secret
        case None => Bytes(raw)
  }

  /** A secret given in hex is decoded to the exact bytes. */
  lemma HexSecret(key: seq<byte>, generated: seq<byte>)
    requires key != []
    ensures LoadSessionSecret(HexEncode(key), generated) == key
  {
    HexRoundTrip(key);
  }

  /** A secret given in base64 is decoded to the exact bytes if and only if its encoding contains a
      character that is not hexadecimal; and it always does if its length is not a multiple of three. */
  lemma Base64Secret(key: seq<byte>, generated: seq<byte>)
    requires key != []
    ensures LoadSessionSecret(Base64Encode(key), generated) == key <==> !AllHex(Base64Encode(key))
    ensures |key| % 3 != 0 ==> !AllHex(Base64Encode(key))
  {
    hide HexDecode, Base64Decode, Base64Encode, AllHex;
    var raw := Base64Encode(key);
    Base64RoundTrip(key);
    HexDecodes(raw);
    EncodedLength(|key|);
    PaddedUnlessMultipleOfThree(key);
    if '=' in raw {
      PaddingIsNotHex(raw);
    }
  }

  lemma EncodedLength(k: nat)
    requires k > 0
    ensures (k + 2) / 3 * 4 % 2 == 0
    ensures k % 3 == 0 ==> (k + 2) / 3 * 4 != 2 * k
    ensures (k + 2) / 3 * 4 > 0
  {
  }

  lemma PaddingIsNotHex(s: string)
    requires '=' in s
    ensures !AllHex(s)
  {
    var i :| 0 <= i < |s| && s[i] == '=';
    assert HexValue(s[i]).None?;
  }

  /** The exception occurs: three bytes whose base64 form is four hex digits are read as two bytes. */
  lemma Base64SecretMisread(generated: seq<byte>)
    ensures Base64Encode([211, 77, 52]) == "0000"
    ensures LoadSessionSecret("0000", generated) == [0, 0]
  {
    assert Base64Encode([211, 77, 52]) == Group(211, 77, 52) + Base64Encode([]);
    assert HexEncode([0]) == ['0', '0'] + HexEncode([]);
    assert HexEncode([0, 0]) == ['0', '0'] + HexEncode([0]);
    HexRoundTrip([0, 0]);
  }

  /** A text that is neither hex nor base64 is the secret itself, byte for byte. */
  lemma RawSecret(raw: string, generated: seq<byte>, i: nat)
    requires raw != "" && HexDecode(raw).None? && Base64Decode(raw).None? && i < |raw|
    ensures |LoadSessionSecret(raw, generated)| == |raw|
    ensures raw[i] as int < 256 ==> LoadSessionSecret(raw, generated)[i] == raw[i] as int
  {
    BytesAreCodes(raw, i);
  }

  /** Which of the three it is: hex if all characters are hex digits, in an even number; else base64 if
      that accepts the text; and a generated secret is used if and only if none is configured. */
  lemma SecretForms(raw: string, generated: seq<byte>, other: seq<byte>)
    ensures raw == "" ==> LoadSessionSecret(raw, generated) == generated
    ensures raw != "" ==> LoadSessionSecret(raw, generated) == LoadSessionSecret(raw, other)
    ensures raw != "" && |raw| % 2 == 0 && AllHex(raw) ==> HexDecode(raw) == Some(LoadSessionSecret(raw, generated))
    ensures raw != "" && !(|raw| % 2 == 0 && AllHex(raw)) && Base64Decode(raw).Some? ==>
              Base64Decode(raw) == Some(LoadSessionSecret(raw, generated))
  {
    hide HexDecode, Base64Decode, AllHex;
    HexDecodes(raw);
  }

  // ---------------------------------------------------------------- session tokens

  const SECOND: int := 1_000_000_000

  /** HMAC-SHA256 in hex is the only thing the source does with a secret; nothing is assumed of it. */
  type Mac = (seq<byte>, string) -> seq<byte>

  function Signature(mac: Mac, secret: seq<byte>, payload: string): string {
    HexEncode(mac(secret, payload))
  }

  /** `now` in nanoseconds since 1970; the token carries whole seconds. */
  function CreateSessionToken(mac: Mac, username: string, secret: seq<byte>, now: int): string {
    var payload := username + ":" + Text.PrintInt(now / SECOND);
    payload + "." + Signature(mac, secret, payload)
  }

  function ExtractSessionUser(mac: Mac, token: string, secret: seq<byte>, maxAge: int, now: int): Option<string> {
    var dot := Text.LastIndex(token, '.');
    if dot < 0 then None
    else
      var payload, sig := token[..dot], token[dot+1..];
      if sig != Signature(mac, secret, payload) then None
      else
        var colon := Text.LastIndex(payload, ':');
        if colon < 0 then None
        else
          var username := payload[..colon];
          if now - Text.ScanInt(payload[colon+1..]) * SECOND > maxAge then None
          else if username == "" then None
          else Some(username)
  }

  lemma LastSeparator(before: string, c: char, after: string)
    requires c !in after
    ensures var s := before + [c] + after;
            Text.LastIndex(s, c) == |before| && s[..|before|] == before && s[|before|+1..] == after
  {
    var s := before + [c] + after;
    assert s[|before|] == c;
  }

  /** user ":" ts "." and the HMAC under the secret of what precedes the dot, in hex. */
  predicate SignedForm(mac: Mac, token: string, secret: seq<byte>, user: string, ts: string) {
    token == user + ":" + ts + "." + HexEncode(mac(secret, user + ":" + ts))
  }

  /** The token that is made: for this user, at this second, under this secret. */
  lemma CreatedTokensAreSigned(mac: Mac, username: string, secret: seq<byte>, now: int)
    ensures SignedForm(mac, CreateSessionToken(mac, username, secret, now), secret, username, Text.PrintInt(now / 1_000_000_000))
  {
  }

  lemma SignedParts(mac: Mac, token: string, secret: seq<byte>, user: string, ts: string)
    requires SignedForm(mac, token, secret, user, ts) && ':' !in ts
    ensures var payload := user + ":" + ts;
            && Text.LastIndex(token, '.') == |payload| < |token|
            && token[..|payload|] == payload
            && token[|payload|+1..] == HexEncode(mac(secret, payload))
            && Text.LastIndex(payload, ':') == |user|
            && payload[..|user|] == user && payload[|user|+1..] == ts
  {
    hide Text.LastIndex;
    var payload := user + ":" + ts;
    LastSeparator(user, ':', ts);
    HexRoundTrip(mac(secret, payload));
    LastSeparator(payload, '.', HexEncode(mac(secret, payload)));
  }

  /** Exactly these tokens are accepted: a non-empty user, a timestamp that is not too old, and the hex
      HMAC of the two under the secret of this process. */
  lemma AcceptedTokensAreSigned(mac: Mac, token: string, secret: seq<byte>, maxAge: int, now: int, user: string)
    ensures ExtractSessionUser(mac, token, secret, maxAge, now) == Some(user) <==>
            && user != ""
            && exists ts :: ':' !in ts && SignedForm(mac, token, secret, user, ts) && now - Text.ScanInt(ts) * SECOND <= maxAge
  {
    hide Text.ScanInt, Text.LastIndex;
    if ExtractSessionUser(mac, token, secret, maxAge, now) == Some(user) {
      var dot := Text.LastIndex(token, '.');
      var payload := token[..dot];
      var colon := Text.LastIndex(payload, ':');
      var ts := payload[colon+1..];
      assert payload == payload[..colon] + ":" + ts;
      assert token == payload + "." + token[dot+1..];
      assert ':' !in ts by {
        assert forall i :: 0 <= i < |ts| ==> ts[i] == payload[colon+1+i];
      }
      assert SignedForm(mac, token, secret, payload[..colon], ts);
    }
    if exists ts :: ':' !in ts && SignedForm(mac, token, secret, user, ts) && now - Text.ScanInt(ts) * SECOND <= maxAge {
      var ts :| ':' !in ts && SignedForm(mac, token, secret, user, ts) && now - Text.ScanInt(ts) * SECOND <= maxAge;
      SignedParts(mac, token, secret, user, ts);
    }
  }

  /** A token made under one secret is accepted under another if and only if it is fresh and the two
      secrets have the same HMAC for its payload; in particular it is refused when they differ. */
  lemma OtherSecretsAreRefused(mac: Mac, username: string, maker: seq<byte>, checker: seq<byte>, t: int, maxAge: int, now: int)
    requires username != "" && -Text.MAX_INT64 - 1 <= t / SECOND <= Text.MAX_INT64
    ensures var payload := username + ":" + Text.PrintInt(t / SECOND);
            ExtractSessionUser(mac, CreateSessionToken(mac, username, maker, t), checker, maxAge, now) ==
            if mac(maker, payload) == mac(checker, payload) && now <= t / SECOND * SECOND + maxAge then Some(username) else None
  {
    hide Text.ScanInt, Text.PrintInt, Text.LastIndex;
    var payload := username + ":" + Text.PrintInt(t / SECOND);
    var token := CreateSessionToken(mac, username, maker, t);
    Text.ScanPrinted(t / SECOND);
    SignedParts(mac, token, maker, username, Text.PrintInt(t / SECOND));
    HexRoundTrip(mac(maker, payload));
    HexRoundTrip(mac(checker, payload));
  }

  /** Round trip.  A token made at time `t` for any non-empty username, with ':' and '.' in it or not,
      gives back that username until `maxAge` has passed since the second in which it was made, and is
      refused after that. */
  lemma TokenRoundTrip(mac: Mac, username: string, secret: seq<byte>, t: int, maxAge: int, now: int)
    requires username != "" && -Text.MAX_INT64 - 1 <= t / SECOND <= Text.MAX_INT64
    ensures ExtractSessionUser(mac, CreateSessionToken(mac, username, secret, t), secret, maxAge, now) ==
            if now <= t / SECOND * SECOND + maxAge then Some(username) else None
  {
    OtherSecretsAreRefused(mac, username, secret, secret, t, maxAge, now);
  }

  /** In real time: accepted throughout [t, t + maxAge - 1s], and refused after t + maxAge, although
      the token only knows the second in which it was made. */
  lemma TokenLifetime(mac: Mac, username: string, secret: seq<byte>, t: int, maxAge: int, now: int)
    requires username != "" && -Text.MAX_INT64 - 1 <= t / SECOND <= Text.MAX_INT64
    ensures var user := ExtractSessionUser(mac, CreateSessionToken(mac, username, secret, t), secret, maxAge, now);
            && (now <= t + maxAge - 1_000_000_000 ==> user == Some(username))
            && (now > t + maxAge ==> user == None)
  {
    TokenRoundTrip(mac, username, secret, t, maxAge, now);
  }

  /** Sessions survive a restart: with a persistent 32-byte secret in base64, a token signed by one
      process is accepted by the next, whatever ephemeral secrets either of them would have made. */
  lemma TokensSurviveRestart(mac: Mac, username: string, key: seq<byte>, first: seq<byte>, second: seq<byte>,
                             t: int, maxAge: int, now: int)
    requires username != "" && |key| == 32
    requires -Text.MAX_INT64 - 1 <= t / SECOND <= Text.MAX_INT64 && now <= t + maxAge - SECOND
    ensures var signer := LoadSessionSecret(Base64Encode(key), first);
            var checker := LoadSessionSecret(Base64Encode(key), second);
            ExtractSessionUser(mac, CreateSessionToken(mac, username, signer, t), checker, maxAge, now) == Some(username)
  {
    hide LoadSessionSecret, CreateSessionToken, ExtractSessionUser, Base64Encode;
    Base64Secret(key, first);
    Base64Secret(key, second);
    TokenLifetime(mac, username, key, t, maxAge, now);
  }
}

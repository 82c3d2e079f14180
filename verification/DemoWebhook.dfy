/** payment-demo.ts: signing a webhook delivery and checking one. HMAC-SHA-256 and JSON are given as functions. */
module DemoWebhook {
  import opened Wrappers
  import opened Digits
  import opened PaymentMoney

  const TOLERANCE_MS := 300000

  /** HMAC-SHA-256 of a message under a secret, in lower-case hexadecimal. */
  type Mac = (string, string) -> string

  predicate IsHex(c: char) {
    '0' <= c <= '9' || 'a' <= c <= 'f'
  }

  predicate IsHex64(s: string) {
    |s| == 64 && forall i :: 0 <= i < 64 ==> IsHex(s[i])
  }

  /** What HMAC-SHA-256 guarantees of its results. */
  ghost predicate GivesHex(mac: Mac) {
    forall secret, message :: IsHex64(mac(secret, message))
  }

  function Decimal10(n: int): string {
    if n < 0 then "-" + Numeral(-n) else Numeral(n)
  }

  function HeaderOf(digits: string, hex: string): string {
    "t=" + digits + ",v1=" + hex
  }

  /** `signDemoWebhook`. */
  function Sign(mac: Mac, rawBody: string, secret: string, at: int): string {
    HeaderOf(Decimal10(at / 1000), mac(secret, Decimal10(at / 1000) + "." + rawBody))
  }

  datatype Header = Header(digits: string, hex: string)

  /** `/^t=(\d+),v1=([0-9a-f]{64})$/.exec(header)`. */
  function ParseHeader(text: string): Option<Header> {
    if |text| < 2 || text[..2] != "t=" then None
    else
      var n := DigitRun(text[2..]);
      var rest := text[2 + n..];
      if n > 0 && |rest| > 4 && rest[..4] == ",v1=" && IsHex64(rest[4..]) then Some(Header(text[2..2 + n], rest[4..])) else None
  }

  lemma HeaderIsRead(digits: string, hex: string)
    requires IsNumeral(digits) && IsHex64(hex)
    ensures ParseHeader(HeaderOf(digits, hex)) == Some(Header(digits, hex))
  {
    var text, rest := HeaderOf(digits, hex), ",v1=" + hex;
    assert text == "t=" + (digits + rest) && text[2..] == digits + rest;
    DigitRunStops(digits, rest);
    assert text[2..2 + |digits|] == digits && text[2 + |digits|..] == rest;
    assert rest[4..] == hex && rest[..4] == ",v1=";
  }

  lemma HeaderAsRead(text: string)
    requires ParseHeader(text).Some?
    ensures var h := ParseHeader(text).value; IsNumeral(h.digits) && IsHex64(h.hex) && text == HeaderOf(h.digits, h.hex)
  {
    var n := DigitRun(text[2..]);
    DigitRunDigits(text[2..]);
    assert text[2..2 + n] == text[2..][..n];
    var rest := text[2 + n..];
    assert text == text[..2] + text[2..2 + n] + rest && rest == rest[..4] + rest[4..];
  }

  /** The pattern has exactly one reading of a header. */
  lemma ParseHeaderIsGrammar(text: string, h: Header)
    ensures ParseHeader(text) == Some(h) <==> IsNumeral(h.digits) && IsHex64(h.hex) && text == HeaderOf(h.digits, h.hex)
  {
    hide ParseHeader, HeaderOf, IsHex64, IsNumeral;
    if IsNumeral(h.digits) && IsHex64(h.hex) {
      HeaderIsRead(h.digits, h.hex);
    }
    if ParseHeader(text).Some? {
      HeaderAsRead(text);
    }
  }

  datatype Verdict = Accepted | ModeMismatch | SignatureInvalid | InvalidRequest | Threw

  /**
   * What `JSON.parse` makes of a body: nothing; a value whose fields cannot be read as an event's, `null` above all; or one
   * whose fields can, whatever they are.
   */
  datatype Json = NotJson | Unreadable | Readable


  function Distance(a: int, b: int): nat {
    if a < b then b - a else a - b
  }

  /** What `verifyWebhook` answers at `now`. */
  function Verify(mac: Mac, json: string -> Json, testMode: bool, secret: Option<string>, header: string, rawBody: string, now: int): Verdict {
    if !testMode then ModeMismatch
    else if secret.None? || secret.value == "" then SignatureInvalid
    else
      match ParseHeader(header)
      case None => SignatureInvalid
      case Some(h) =>
        var t := Value(h.digits);
        if Distance(now, t * 1000) > TOLERANCE_MS then SignatureInvalid
        else if mac(secret.value, Numeral(t) + "." + rawBody) != h.hex then SignatureInvalid
        else
          match json(rawBody)
          case NotJson => InvalidRequest
          case Unreadable => Threw
          case Readable => Accepted
  }

  /**
   * A delivery signed at `at` with the same secret is accepted exactly within the tolerance of the second it was signed in,
   * and what was signed must be JSON that can be read. Within it a signed `null`, or the like, makes the check throw.
   */
  lemma SignedIsAccepted(mac: Mac, json: string -> Json, secret: string, rawBody: string, at: int, now: int)
    requires GivesHex(mac) && secret != ""
    ensures Verify(mac, json, true, Some(secret), Sign(mac, rawBody, secret, at), rawBody, now) == Accepted
            <==> at >= 0 && Distance(now, at / 1000 * 1000) <= 300000 && json(rawBody) == Readable
    ensures Verify(mac, json, true, Some(secret), Sign(mac, rawBody, secret, at), rawBody, now) == Threw
            <==> at >= 0 && Distance(now, at / 1000 * 1000) <= 300000 && json(rawBody) == Unreadable
  {
    var t := at / 1000;
    var header, hex := Sign(mac, rawBody, secret, at), mac(secret, Decimal10(t) + "." + rawBody);
    if at >= 0 {
      NumeralValue(t);
      ParseHeaderIsGrammar(header, Header(Numeral(t), hex));
    } else {
      assert header[2] == '-';
      assert DigitRun(header[2..]) == 0;
    }
  }

  /** The header carries the signature, under the secret, of this body and of the second it names, which is recent. */
  ghost predicate Carries(mac: Mac, secret: string, header: string, rawBody: string, now: int) {
    exists digits, hex :: && IsNumeral(digits) && IsHex64(hex) && header == HeaderOf(digits, hex)
                          && Distance(now, Value(digits) * 1000) <= 300000
                          && hex == mac(secret, Numeral(Value(digits)) + "." + rawBody)
  }

  lemma CarriesIs(mac: Mac, secret: string, header: string, rawBody: string, now: int)
    ensures Carries(mac, secret, header, rawBody, now) <==>
            match ParseHeader(header)
            case None => false
            case Some(h) => Distance(now, Value(h.digits) * 1000) <= TOLERANCE_MS && h.hex == mac(secret, Numeral(Value(h.digits)) + "." + rawBody)
  {
    hide ParseHeader;
    match ParseHeader(header)
    case Some(h) =>
      ParseHeaderIsGrammar(header, h);
      forall digits, hex | IsNumeral(digits) && IsHex64(hex) && header == HeaderOf(digits, hex)
        ensures h == Header(digits, hex)
      {
        ParseHeaderIsGrammar(header, Header(digits, hex));
      }
    case None =>
      forall digits, hex
        ensures !(IsNumeral(digits) && IsHex64(hex) && header == HeaderOf(digits, hex))
      {
        ParseHeaderIsGrammar(header, Header(digits, hex));
      }
  }

  /** Whatever is accepted carries the signature of its own body, and each refusal has its own reason. */
  lemma AcceptedWasSigned(mac: Mac, json: string -> Json, testMode: bool, secret: Option<string>, header: string, rawBody: string, now: int)
    ensures var verdict := Verify(mac, json, testMode, secret, header, rawBody, now);
            var signed := testMode && secret.Some? && secret.value != "" && Carries(mac, secret.value, header, rawBody, now);
            && (verdict == ModeMismatch <==> !testMode)
            && (verdict == SignatureInvalid <==> testMode && !signed)
            && (verdict == InvalidRequest <==> signed && json(rawBody) == NotJson)
            && (verdict == Threw <==> signed && json(rawBody) == Unreadable)
            && (verdict == Accepted <==> signed && json(rawBody) == Readable)
  {
    hide ParseHeader, Carries;
    if secret.Some? {
      CarriesIs(mac, secret.value, header, rawBody, now);
    }
  }

  /** Compares two texts, as UTF-16 code units, without stopping at the first difference. */
  method SameHex(a: seq<bv16>, b: seq<bv16>) returns (same: bool)
    ensures same <==> a == b
  {
    if |a| != |b| {
      return false;
    }
    var diff: bv16 := 0;
    var i := 0;
    while i < |a|
      invariant i <= |a|
      invariant diff == 0 <==> a[..i] == b[..i]
    {
      assert a[..i + 1] == a[..i] + [a[i]] && b[..i + 1] == b[..i] + [b[i]];
      diff := diff | (a[i] ^ b[i]);
      i := i + 1;
    }
    assert a[..i] == a && b[..i] == b;
    return diff == 0;
  }
}

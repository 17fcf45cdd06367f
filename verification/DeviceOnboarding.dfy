/** Device onboarding payloads: certificates out of a PEM bundle, text into an Apple profile. */
module DeviceOnboarding {
  import opened Results
  import opened Strings

  // ----- PEM

  const BEGIN := "-----BEGIN CERTIFICATE-----"
  const END := "-----END CERTIFICATE-----"

  /** Where a pattern first occurs. */
  function Find(s: string, pattern: string): Option<nat>
  {
    if StartsWith(s, pattern) then Some(0)
    else if s == "" then None
    else match Find(s[1..], pattern) case None => None case Some(k) => Some(k + 1)
  }

  lemma {:induction false} FindInside(s: string, pattern: string)
    requires Find(s, pattern).Some?
    ensures Find(s, pattern).value + |pattern| <= |s|
  {
    if !StartsWith(s, pattern) { FindInside(s[1..], pattern); }
  }

  /** The texts between a `BEGIN` and the nearest `END` behind it, left to right without overlap. */
  function Blocks(s: string): seq<string>
    decreases |s|
  {
    if s == "" then []
    else if !StartsWith(s, BEGIN) then Blocks(s[1..])
    else
      var inside := s[|BEGIN|..];
      match Find(inside, END)
      case None => Blocks(s[1..])
      case Some(k) =>
        FindInside(inside, END);
        [inside[..k]] + Blocks(inside[k + |END|..])
  }

  function DropSpaces(s: string): string
  {
    if s == "" then "" else (if JsSpace(s[0]) then [] else [s[0]]) + DropSpaces(s[1..])
  }

  predicate Base64Char(c: char)
  {
    'A' <= c <= 'Z' || 'a' <= c <= 'z' || '0' <= c <= '9' || c == '+' || c == '/' || c == '='
  }

  predicate Base64(s: string) { forall i :: 0 <= i < |s| ==> Base64Char(s[i]) }

  function BodyOf(block: string): seq<string>
  {
    var body := DropSpaces(block);
    if body != "" && Base64(body) then [body] else []
  }

  function BodiesOf(blocks: seq<string>, n: nat): seq<string>
    requires n <= |blocks|
  {
    if n == 0 then [] else BodiesOf(blocks, n - 1) + BodyOf(blocks[n - 1])
  }

  method CertificateBodies(pem: string) returns (bodies: seq<string>)
    ensures bodies == BodiesOf(Blocks(pem), |Blocks(pem)|)
  {
    hide Blocks, Base64, DropSpaces;
    var blocks := Blocks(pem);
    bodies := [];
    for i := 0 to |blocks|
      invariant bodies == BodiesOf(blocks, i)
    {
      var body := DropSpaces(blocks[i]);
      if |body| > 0 && Base64(body) {
        bodies := bodies + [body];
      } else {
        assert bodies + [] == bodies;
      }
    }
  }

  // ----- XML text

  function EscapeXml(s: string): string
  {
    ReplaceAll(ReplaceAll(ReplaceAll(ReplaceAll(s, "&", "&amp;"), "<", "&lt;"), ">", "&gt;"), "\"", "&quot;")
  }

  // ----- lines of 64

  const COLUMNS := 64

  /** `.` of a JavaScript regular expression does not match these. */
  predicate LineTerminator(c: char)
  {
    c == '\n' || c == '\r' || c as int == 8232 || c as int == 8233
  }

  /** How much `.{1,64}` takes at the start of `s`; zero when it does not match there. */
  function Run(s: string, max: nat): nat
  {
    if max == 0 || s == "" || LineTerminator(s[0]) then 0 else 1 + Run(s[1..], max - 1)
  }

  lemma {:induction false} RunInside(s: string, max: nat)
    ensures Run(s, max) <= |s| && Run(s, max) <= max
    ensures forall i :: 0 <= i < Run(s, max) ==> !LineTerminator(s[i])
  {
    if !(max == 0 || s == "" || LineTerminator(s[0])) { RunInside(s[1..], max - 1); }
  }

  function Pieces(s: string): seq<string>
    decreases |s|
  {
    if s == "" then []
    else
      var k := Run(s, COLUMNS);
      RunInside(s, COLUMNS);
      if k == 0 then Pieces(s[1..]) else [s[..k]] + Pieces(s[k..])
  }

  function Wrap(body: string): string { Join(Pieces(body), "\n") }

  // ----- profiles

  function Decimal(n: nat): string
  {
    if n < 10 then [('0' as int + n) as char] else Decimal(n / 10) + [('0' as int + n % 10) as char]
  }

  datatype Payload = Payload(identifier: string, uuid: string, data: string)

  function CertificatePayload(identifier: string, uuid: string, index: nat, body: string): Payload
  {
    Payload(EscapeXml(identifier + ".cert." + Decimal(index)),
            EscapeXml(if index == 0 then uuid else uuid + "-" + Decimal(index)),
            Wrap(body))
  }

  function CertificatePayloads(identifier: string, uuid: string, bodies: seq<string>): seq<Payload>
  {
    seq(|bodies|, i requires 0 <= i < |bodies| => CertificatePayload(identifier, uuid, i, bodies[i]))
  }

  datatype ProfileError = NoCertificate | NoBundle

  /** The payload list of the trust profile. */
  function TrustPayloads(pem: string, identifier: string, uuid: string): Result<seq<Payload>, ProfileError>
  {
    var bodies := BodiesOf(Blocks(pem), |Blocks(pem)|);
    if bodies == [] then Err(NoCertificate) else Ok(CertificatePayloads(identifier, uuid, bodies))
  }

  /** The identity profile adds the device's own key. Its bundle may hold base64 and spaces. */
  function IdentityPayloads(pem: string, identifier: string, uuid: string, bundle: string, identityUuid: string)
    : Result<seq<Payload>, ProfileError>
  {
    match TrustPayloads(pem, identifier, uuid)
    case Err(e) => Err(e)
    case Ok(payloads) =>
      if bundle == "" || exists i :: 0 <= i < |bundle| && !Base64Char(bundle[i]) && !JsSpace(bundle[i])
      then Err(NoBundle)
      else
        var key := Payload(EscapeXml(identifier + ".identity"), EscapeXml(identityUuid), Wrap(DropSpaces(bundle)));
        Ok(payloads + [key])
  }
}

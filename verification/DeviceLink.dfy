/** One-time device link codes: drawing one, and reading what a person types. */
module DeviceLink {
  import opened Results
  import opened Strings

  const ALPHABET := "0123456789ABCDEFGHJKMNPQRSTVWXYZ"
  const CODE_LENGTH := 8
  const TTL_MS := 2 * 60 * 1000

  // ----- drawing

  /** Bytes from here on are rejected: the rest would favour the first symbols. */
  function Threshold(size: nat): nat
    requires 1 <= size <= 256
  {
    256 - 256 % size
  }

  predicate Bytes(batch: seq<nat>) { forall i :: 0 <= i < |batch| ==> batch[i] < 256 }

  function CodeOf(batch: seq<nat>): string
  {
    seq(|batch|, i requires 0 <= i < |batch| => ALPHABET[batch[i] % 32])
  }

  /** `randomBytes(k)` is the batch the k-th call of the generator returns. One batch is enough. */
  method CreateDeviceLinkCode(randomBytes: nat -> seq<nat>) returns (code: string)
    requires forall k :: |randomBytes(k)| == CODE_LENGTH && Bytes(randomBytes(k))
    ensures code == CodeOf(randomBytes(0)) && |code| == CODE_LENGTH
  {
    code := "";
    ghost var first := randomBytes(0);
    var calls := 0;
    while |code| < CODE_LENGTH
      invariant (calls == 0 && code == "") || code == CodeOf(first)
      decreases CODE_LENGTH - |code|
    {
      var batch := randomBytes(calls);
      calls := calls + 1;
      var i := 0;
      while i < |batch|
        invariant i <= |batch| && batch == first && code == CodeOf(first)[..i]
      {
        var byte := batch[i];
        i := i + 1;
        if byte >= Threshold(|ALPHABET|) { continue; }
        code := code + [ALPHABET[byte % |ALPHABET|]];
        if |code| == CODE_LENGTH { break; }
      }
    }
  }

  // ----- reading

  /** `toUpperCase` maps each character by itself, perhaps to several; what it does to ASCII is known. */
  type Upper = char -> string

  predicate Ascii(c: char) { c as int < 128 }

  function AsciiUpper(c: char): char
  {
    if 'a' <= c <= 'z' then (c as int - 'a' as int + 'A' as int) as char else c
  }

  ghost predicate UppersAscii(upper: Upper) { forall c :: Ascii(c) ==> upper(c) == [AsciiUpper(c)] }

  function UpperCase(upper: Upper, s: string): string
  {
    if s == "" then "" else upper(s[0]) + UpperCase(upper, s[1..])
  }

  predicate Separator(c: char) { JsSpace(c) || c == '-' }

  function DropSeparators(s: string): string
  {
    if s == "" then "" else (if Separator(s[0]) then [] else [s[0]]) + DropSeparators(s[1..])
  }

  function Replace(s: string, from: string, to: char): string
  {
    seq(|s|, i requires 0 <= i < |s| => if s[i] in from then to else s[i])
  }

  /** `[0-9A-HJKMNP-TV-Z]` */
  predicate CodeChar(c: char)
  {
    '0' <= c <= '9' || 'A' <= c <= 'H' || c == 'J' || c == 'K' || c == 'M' || c == 'N' ||
    'P' <= c <= 'T' || 'V' <= c <= 'Z'
  }

  predicate CodePattern(s: string)
  {
    |s| == CODE_LENGTH && forall i :: 0 <= i < |s| ==> CodeChar(s[i])
  }

  function Cleaned(upper: Upper, input: string): string
  {
    Replace(Replace(Replace(DropSeparators(UpperCase(upper, input)), "IL", '1'), "O", '0'), "U", 'V')
  }

  function Normalize(upper: Upper, input: string): Option<string>
  {
    var cleaned := Cleaned(upper, input);
    if CodePattern(cleaned) then Some(cleaned) else None
  }

  datatype LinkError = CodeInvalid

  function Format(upper: Upper, code: string): Result<string, LinkError>
  {
    match Normalize(upper, code)
    case None => Err(CodeInvalid)
    case Some(normalized) => Ok(normalized[..4] + "-" + normalized[4..])
  }

  function Hash(upper: Upper, sha256: string -> string, code: string): Result<string, LinkError>
  {
    match Normalize(upper, code)
    case None => Err(CodeInvalid)
    case Some(normalized) => Ok(sha256(normalized))
  }

  // ----- redeeming

  datatype Record = Record(expiresAt: Option<int>, consumed: bool)
  datatype Verdict = Usable | Expired | AlreadyUsed

  /** Times are milliseconds; an invalid date has none, and compares false with everything. */
  function Inspect(record: Record, now: Option<int>): Verdict
  {
    if record.consumed then AlreadyUsed
    else if record.expiresAt.None? || (now.Some? && record.expiresAt.value <= now.value) then Expired
    else Usable
  }

  function Expiry(now: int, ttl: int := TTL_MS): int { now + ttl }
}

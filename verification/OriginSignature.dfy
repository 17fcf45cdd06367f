/** The signature under which the trusted-origin configuration is cached: the JSON text of the three
    environment variables it depends on. Two environments share a signature only if they are equal. */
module OriginSignature {
  import opened Results
  import opened Strings

  datatype Env = Env(authUrl: Option<string>, trustedOrigins: Option<string>, nodeEnv: Option<string>)

  function HexDigit(n: nat): char
    requires n < 16
  {
    if n < 10 then ('0' as int + n) as char else ('a' as int + n - 10) as char
  }

  /** A character inside a JSON string (section 7 of RFC 8259), as `JSON.stringify` writes it. */
  function JsonChar(c: char): string
  {
    var n := c as int;
    if c == '"' then ['\\', '"']
    else if c == '\\' then ['\\', '\\']
    else if n == 8 then ['\\', 'b']
    else if n == 9 then ['\\', 't']
    else if n == 10 then ['\\', 'n']
    else if n == 12 then ['\\', 'f']
    else if n == 13 then ['\\', 'r']
    else if n < 32 then ['\\', 'u', '0', '0', HexDigit(n / 16), HexDigit(n % 16)]
    else [c]
  }

  function JsonChars(s: string): string
  {
    if s == "" then "" else JsonChar(s[0]) + JsonChars(s[1..])
  }

  function JsonValue(value: Option<string>): string
  {
    match value case None => "null" case Some(s) => ['"'] + JsonChars(s) + ['"']
  }

  function Signature(env: Env): string
  {
    "{\"betterAuthUrl\":" + JsonValue(env.authUrl)
    + ",\"trustedOrigins\":" + JsonValue(env.trustedOrigins)
    + ",\"nodeEnv\":" + JsonValue(env.nodeEnv) + "}"
  }

  lemma {:induction false} HexDigitsDiffer(m: nat, n: nat)
    requires m < 16 && n < 16 && HexDigit(m) == HexDigit(n)
    ensures m == n
  {
  }

  /** The first character, and the kind of escape by its second, tell how a character was written. */
  lemma {:induction false} CharsPrefixFree(c: char, d: char, x: string, y: string)
    requires JsonChar(c) + x == JsonChar(d) + y
    ensures c == d && x == y
  {
    var e, f := JsonChar(c), JsonChar(d);
    assert e[0] == (e + x)[0] == (f + y)[0] == f[0];
    if |e| > 1 {
      assert e[1] == (e + x)[1] == (f + y)[1] == f[1];
      if |e| == 6 {
        assert e[4] == (e + x)[4] == (f + y)[4] == f[4] && e[5] == (e + x)[5] == (f + y)[5] == f[5];
        HexDigitsDiffer(c as int / 16, d as int / 16);
        HexDigitsDiffer(c as int % 16, d as int % 16);
      }
    }
    SameTail(e, x, y);
  }

  lemma {:induction false} NeverAQuote(c: char)
    ensures JsonChar(c) != "" && JsonChar(c)[0] != '"'
  {
  }

  lemma {:induction false} QuoteEnds(s: string, x: string)
    ensures (JsonChars(s) + ['"'] + x)[0] == '"' <==> s == ""
  {
    hide JsonChar;
    if s != "" { NeverAQuote(s[0]); }
  }

  lemma {:induction false} CharsUnique(s: string, t: string, x: string, y: string)
    requires JsonChars(s) + ['"'] + x == JsonChars(t) + ['"'] + y
    ensures s == t && x == y
    decreases |s| + |t|
  {
    hide JsonChar;
    var left, right := JsonChars(s) + ['"'] + x, JsonChars(t) + ['"'] + y;
    QuoteEnds(s, x);
    QuoteEnds(t, y);
    if s == "" {
      assert left == ['"'] + x && right == ['"'] + y;
      SameTail(['"'], x, y);
    } else {
      var x', y' := JsonChars(s[1..]) + ['"'] + x, JsonChars(t[1..]) + ['"'] + y;
      assert left == JsonChar(s[0]) + x' && right == JsonChar(t[0]) + y';
      CharsPrefixFree(s[0], t[0], x', y');
      CharsUnique(s[1..], t[1..], x, y);
      assert s == [s[0]] + s[1..] && t == [t[0]] + t[1..];
    }
  }

  lemma {:induction false} ValueText(value: Option<string>, x: string)
    ensures JsonValue(value) + x
         == match value case None => "null" + x case Some(s) => ['"'] + (JsonChars(s) + ['"'] + x)
  {
    hide JsonChars;
  }

  lemma {:induction false} ValuesUnique(a: Option<string>, b: Option<string>, x: string, y: string)
    requires JsonValue(a) + x == JsonValue(b) + y
    ensures a == b && x == y
  {
    hide JsonChars, JsonValue;
    ValueText(a, x);
    ValueText(b, y);
    assert (JsonValue(a) + x)[0] == (JsonValue(b) + y)[0];
    if a.None? {
      SameTail("null", x, y);
    } else {
      SameTail(['"'], JsonChars(a.value) + ['"'] + x, JsonChars(b.value) + ['"'] + y);
      CharsUnique(a.value, b.value, x, y);
    }
  }

  /** Labelled values one after the other. */
  function Labelled(name: string, value: Option<string>, rest: string): string { name + (JsonValue(value) + rest) }

  lemma {:induction false} LabelledUnique(name: string, a: Option<string>, b: Option<string>, x: string, y: string)
    requires Labelled(name, a, x) == Labelled(name, b, y)
    ensures a == b && x == y
  {
    hide JsonValue;
    SameTail(name, JsonValue(a) + x, JsonValue(b) + y);
    ValuesUnique(a, b, x, y);
  }

  lemma {:induction false} Regroup(k1: string, a: string, k2: string, b: string, k3: string, c: string, end: string)
    ensures k1 + a + k2 + b + k3 + c + end == k1 + (a + (k2 + (b + (k3 + (c + end)))))
  {
  }

  lemma {:induction false} SignatureText(env: Env)
    ensures Signature(env) == Labelled("{\"betterAuthUrl\":", env.authUrl,
                              Labelled(",\"trustedOrigins\":", env.trustedOrigins,
                              Labelled(",\"nodeEnv\":", env.nodeEnv, "}")))
  {
    hide JsonValue;
    Regroup("{\"betterAuthUrl\":", JsonValue(env.authUrl), ",\"trustedOrigins\":", JsonValue(env.trustedOrigins),
            ",\"nodeEnv\":", JsonValue(env.nodeEnv), "}");
  }

  /** Equal signatures come from equal environments. */
  lemma {:induction false} SignatureInjective(env: Env, env': Env)
    requires Signature(env) == Signature(env')
    ensures env == env'
  {
    hide JsonValue, Labelled, Signature;
    SignatureText(env);
    SignatureText(env');
    var c, c' := Labelled(",\"nodeEnv\":", env.nodeEnv, "}"), Labelled(",\"nodeEnv\":", env'.nodeEnv, "}");
    var b, b' := Labelled(",\"trustedOrigins\":", env.trustedOrigins, c),
        Labelled(",\"trustedOrigins\":", env'.trustedOrigins, c');
    LabelledUnique("{\"betterAuthUrl\":", env.authUrl, env'.authUrl, b, b');
    LabelledUnique(",\"trustedOrigins\":", env.trustedOrigins, env'.trustedOrigins, c, c');
    LabelledUnique(",\"nodeEnv\":", env.nodeEnv, env'.nodeEnv, "}", "}");
  }
}

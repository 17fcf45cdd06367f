/** Round trips of the onboarding text: escaping, wrapping, and certificates through a PEM bundle; and
    the payloads of a profile are told apart by their identifiers. */
module DeviceOnboardingLaws {
  import opened Results
  import opened Strings
  import opened DeviceOnboarding

  // ----- escaping (sections 2.4 and 4.6 of XML 1.0)

  function EscapeChar(c: char): string
  {
    if c == '&' then "&amp;" else if c == '<' then "&lt;" else if c == '>' then "&gt;"
    else if c == '"' then "&quot;" else [c]
  }

  function EscapeEach(s: string): string
  {
    if s == "" then "" else EscapeChar(s[0]) + EscapeEach(s[1..])
  }

  lemma {:induction false} EscapeConcat(s: string, t: string)
    ensures EscapeXml(s + t) == EscapeXml(s) + EscapeXml(t)
  {
    hide ReplaceAll;
    var s1, t1 := ReplaceAll(s, "&", "&amp;"), ReplaceAll(t, "&", "&amp;");
    var s2, t2 := ReplaceAll(s1, "<", "&lt;"), ReplaceAll(t1, "<", "&lt;");
    var s3, t3 := ReplaceAll(s2, ">", "&gt;"), ReplaceAll(t2, ">", "&gt;");
    ReplaceAllConcat(s, t, '&', "&amp;");
    ReplaceAllConcat(s1, t1, '<', "&lt;");
    ReplaceAllConcat(s2, t2, '>', "&gt;");
    ReplaceAllConcat(s3, t3, '"', "&quot;");
  }

  lemma {:induction false} ReplaceOne(c: char, d: char, replacement: string)
    ensures ReplaceAll([c], [d], replacement) == if c == d then replacement else [c]
  {
    ReplaceAllStep([c], d, replacement);
    assert [c][1..] == "";
  }

  lemma {:induction false} EscapeOne(c: char)
    ensures EscapeXml([c]) == EscapeChar(c)
  {
    hide ReplaceAll;
    ReplaceOne(c, '&', "&amp;");
    if c == '&' {
      ReplaceAllAbsent("&amp;", '<', "&lt;");
      ReplaceAllAbsent("&amp;", '>', "&gt;");
      ReplaceAllAbsent("&amp;", '"', "&quot;");
    } else {
      ReplaceOne(c, '<', "&lt;");
      if c == '<' {
        ReplaceAllAbsent("&lt;", '>', "&gt;");
        ReplaceAllAbsent("&lt;", '"', "&quot;");
      } else {
        ReplaceOne(c, '>', "&gt;");
        ReplaceOne(c, '"', "&quot;");
        if c == '>' { ReplaceAllAbsent("&gt;", '"', "&quot;"); }
      }
    }
  }

  /** The four replacements one after the other are one map over the characters. */
  lemma {:induction false} EscapesEachCharacter(s: string)
    ensures EscapeXml(s) == EscapeEach(s)
  {
    if s == "" {
    } else {
      hide EscapeXml, EscapeChar;
      EscapeOne(s[0]);
      EscapeConcat([s[0]], s[1..]);
      assert [s[0]] + s[1..] == s;
      EscapesEachCharacter(s[1..]);
    }
  }

  /** An XML parser's view of character data: the named entities stand for their characters, and any
      other `&` and every `<`, `>` and `"` is not accepted. */
  function Unescape(s: string): Option<string>
    decreases |s|
  {
    if s == "" then Some("")
    else if StartsWith(s, "&amp;") then Before('&', Unescape(s[5..]))
    else if StartsWith(s, "&lt;") then Before('<', Unescape(s[4..]))
    else if StartsWith(s, "&gt;") then Before('>', Unescape(s[4..]))
    else if StartsWith(s, "&quot;") then Before('"', Unescape(s[6..]))
    else if s[0] in "&<>\"" then None
    else Before(s[0], Unescape(s[1..]))
  }

  function Before(c: char, rest: Option<string>): Option<string>
  {
    match rest case None => None case Some(s) => Some([c] + s)
  }

  lemma {:induction false} UnescapeOne(c: char, rest: string)
    ensures Unescape(EscapeChar(c) + rest) == Before(c, Unescape(rest))
  {
    var s := EscapeChar(c) + rest;
    if c == '&' {
      assert StartsWith(s, "&amp;") && s[5..] == rest;
    } else if c == '<' {
      OtherStart(s, "&amp;", 1);
      assert StartsWith(s, "&lt;") && s[4..] == rest;
    } else if c == '>' {
      OtherStart(s, "&amp;", 1);
      OtherStart(s, "&lt;", 1);
      assert StartsWith(s, "&gt;") && s[4..] == rest;
    } else if c == '"' {
      UnescapeQuote(s, rest);
    } else {
      UnescapeOther(s, c, rest);
    }
  }

  lemma {:induction false} UnescapeQuote(s: string, rest: string)
    requires s == "&quot;" + rest
    ensures Unescape(s) == Before('"', Unescape(rest))
  {
    OtherStart(s, "&amp;", 1);
    OtherStart(s, "&lt;", 1);
    OtherStart(s, "&gt;", 1);
    assert StartsWith(s, "&quot;") && s[6..] == rest;
  }

  lemma {:induction false} UnescapeOther(s: string, c: char, rest: string)
    requires s == [c] + rest && c !in "&<>\""
    ensures Unescape(s) == Before(c, Unescape(rest))
  {
    assert c !in "&";
    OtherStart(s, "&amp;", 0);
    OtherStart(s, "&lt;", 0);
    OtherStart(s, "&gt;", 0);
    OtherStart(s, "&quot;", 0);
    assert s[1..] == rest;
  }

  /** Escaped text parses, and parses back to the original: escaping is injective and leaves no markup. */
  lemma {:induction false} EscapeRoundTrip(s: string)
    ensures Unescape(EscapeXml(s)) == Some(s)
  {
    EscapesEachCharacter(s);
    hide EscapeXml;
    UnescapeEach(s);
  }

  lemma {:induction false} UnescapeEach(s: string)
    ensures Unescape(EscapeEach(s)) == Some(s)
  {
    if s != "" {
      hide EscapeChar, Unescape;
      UnescapeOne(s[0], EscapeEach(s[1..]));
      UnescapeEach(s[1..]);
      assert [s[0]] + s[1..] == s;
    } else {
      assert EscapeEach(s) == "";
    }
  }

  lemma {:induction false} EscapeInjective(s: string, t: string)
    requires EscapeXml(s) == EscapeXml(t)
    ensures s == t
  {
    hide EscapeXml;
    EscapeRoundTrip(s);
    EscapeRoundTrip(t);
  }

  lemma {:induction false} EscapeLeavesNoMarkup(s: string)
    ensures forall c :: c in EscapeXml(s) ==> c != '<' && c != '>' && c != '"'
  {
    EscapesEachCharacter(s);
    hide EscapeXml;
    EachLeavesNoMarkup(s);
  }

  lemma {:induction false} EachLeavesNoMarkup(s: string)
    ensures forall c :: c in EscapeEach(s) ==> c != '<' && c != '>' && c != '"'
  {
    if s != "" {
      EachLeavesNoMarkup(s[1..]);
      assert forall c :: c in EscapeChar(s[0]) ==> c != '<' && c != '>' && c != '"';
      hide EscapeChar;
    }
  }

  // ----- wrapping (section 2 of RFC 7468)

  predicate NoTerminators(s: string) { forall i :: 0 <= i < |s| ==> !LineTerminator(s[i]) }

  lemma {:induction false} FullRun(s: string, max: nat)
    requires NoTerminators(s)
    ensures Run(s, max) == if |s| <= max then |s| else max
  {
    if !(max == 0 || s == "") { FullRun(s[1..], max - 1); }
  }

  /** The characters of the pieces, in order. */
  function Together(pieces: seq<string>): string
  {
    if pieces == [] then "" else pieces[0] + Together(pieces[1..])
  }

  lemma {:induction false} PiecesStep(s: string)
    requires NoTerminators(s) && s != ""
    ensures var k := if |s| <= COLUMNS then |s| else COLUMNS;
      Pieces(s) == [s[..k]] + Pieces(s[k..]) && NoTerminators(s[k..])
  {
    FullRun(s, COLUMNS);
    hide Run;
  }

  /** All lines but the last have exactly 64 characters, the last has 1 to 64, and together they are the
      text. */
  lemma {:induction false} WrappedLines(s: string)
    requires NoTerminators(s)
    ensures var pieces := Pieces(s);
      && Together(pieces) == s
      && (forall i :: 0 <= i < |pieces| - 1 ==> |pieces[i]| == 64)
      && (pieces != [] ==> 0 < |pieces[|pieces| - 1]| <= 64)
      && (forall i :: 0 <= i < |pieces| ==> NoTerminators(pieces[i]))
    decreases |s|
  {
    if s != "" {
      var k := if |s| <= COLUMNS then |s| else COLUMNS;
      PiecesStep(s);
      WrappedLines(s[k..]);
      hide Pieces;
      assert s == s[..k] + s[k..];
      if |s| <= COLUMNS { NoPieces(s[k..]); }
    }
  }

  lemma {:induction false} NoPieces(s: string)
    requires s == ""
    ensures Pieces(s) == []
  {
  }

  function Unwrap(s: string): string
  {
    if s == "" then "" else (if s[0] == '\n' then [] else [s[0]]) + Unwrap(s[1..])
  }

  lemma {:induction false} UnwrapConcat(s: string, t: string)
    ensures Unwrap(s + t) == Unwrap(s) + Unwrap(t)
  {
    if s == "" {
      assert s + t == t;
    } else {
      assert (s + t)[1..] == s[1..] + t;
      UnwrapConcat(s[1..], t);
    }
  }

  lemma {:induction false} UnwrapPiece(s: string)
    requires NoTerminators(s)
    ensures Unwrap(s) == s
  {
    if s != "" { UnwrapPiece(s[1..]); }
  }

  lemma {:induction false} UnwrapJoined(pieces: seq<string>)
    requires forall i :: 0 <= i < |pieces| ==> NoTerminators(pieces[i])
    ensures Unwrap(Join(pieces, "\n")) == Together(pieces)
  {
    hide NoTerminators;
    if |pieces| == 1 {
      UnwrapPiece(pieces[0]);
      assert Together(pieces[1..]) == "";
    } else if |pieces| > 1 {
      UnwrapPiece(pieces[0]);
      UnwrapJoined(pieces[1..]);
      var rest := Join(pieces[1..], "\n");
      UnwrapConcat(pieces[0] + "\n", rest);
      UnwrapConcat(pieces[0], "\n");
      assert Unwrap("\n") == "";
    }
  }

  /** Dropping the line breaks of a wrapped text gives the text back. */
  lemma {:induction false} WrapRoundTrip(s: string)
    requires NoTerminators(s)
    ensures Unwrap(Wrap(s)) == s
  {
    hide Pieces, Unwrap, NoTerminators;
    WrappedLines(s);
    UnwrapJoined(Pieces(s));
  }

  lemma {:induction false} Base64HasNoBreaks(s: string)
    requires Base64(s)
    ensures NoTerminators(s) && '-' !in s && DropSpaces(s) == s
  {
    if s != "" {
      assert Base64Char(s[0]);
      Base64HasNoBreaks(s[1..]);
      assert [s[0]] + s[1..] == s;
    }
  }

  // ----- PEM bundles

  /** A certificate in a bundle: whatever stands before it, and the text between its markers. */
  datatype Part = Part(separator: string, text: string)

  function Bundle(parts: seq<Part>, tail: string): string
  {
    if parts == [] then tail
    else parts[0].separator + BEGIN + parts[0].text + END + Bundle(parts[1..], tail)
  }

  function TextsOf(parts: seq<Part>): seq<string>
  {
    seq(|parts|, i requires 0 <= i < |parts| => parts[i].text)
  }

  lemma {:induction false} MarkersStartWithDash()
    ensures BEGIN != "" && BEGIN[0] == '-' && END != "" && END[0] == '-'
  {
  }

  lemma {:induction false} SkipSeparator(separator: string, rest: string)
    requires '-' !in separator
    ensures Blocks(separator + rest) == Blocks(rest)
  {
    var s := separator + rest;
    if separator == "" {
      assert s == rest;
    } else {
      MarkersStartWithDash();
      OtherStart(s, BEGIN, 0);
      assert s[1..] == separator[1..] + rest;
      SkipSeparator(separator[1..], rest);
    }
  }

  lemma {:induction false} FindEnd(text: string, rest: string)
    requires '-' !in text
    ensures Find(text + END + rest, END) == Some(|text|)
  {
    hide END;
    var s := text + END + rest;
    if text == "" {
      assert s == END + rest;
    } else {
      MarkersStartWithDash();
      OtherStart(s, END, 0);
      assert s[1..] == text[1..] + END + rest;
      FindEnd(text[1..], rest);
    }
  }

  lemma {:induction false} OneBlock(text: string, rest: string)
    requires '-' !in text
    ensures Blocks(BEGIN + text + END + rest) == [text] + Blocks(rest)
  {
    hide BEGIN, END, Find;
    MarkersStartWithDash();
    var s, inside := BEGIN + text + END + rest, text + END + rest;
    assert s == BEGIN + inside && s[|BEGIN|..] == inside;
    FindEnd(text, rest);
    assert inside[..|text|] == text && inside[|text| + |END|..] == rest;
  }

  lemma {:induction false} NoBlocks(tail: string)
    requires '-' !in tail
    ensures Blocks(tail) == []
  {
    SkipSeparator(tail, "");
    assert tail + "" == tail;
    assert Blocks("") == [];
  }

  lemma {:induction false} BundleBlocks(parts: seq<Part>, tail: string)
    requires '-' !in tail && forall i :: 0 <= i < |parts| ==> '-' !in parts[i].separator && '-' !in parts[i].text
    ensures Blocks(Bundle(parts, tail)) == TextsOf(parts)
  {
    hide Blocks, BEGIN, END;
    if parts == [] {
      NoBlocks(tail);
    } else {
      var part, rest := parts[0], Bundle(parts[1..], tail);
      BundleBlocks(parts[1..], tail);
      assert Bundle(parts, tail) == part.separator + (BEGIN + part.text + END + rest);
      SkipSeparator(part.separator, BEGIN + part.text + END + rest);
      OneBlock(part.text, rest);
    }
  }

  /** A bundle of wrapped bodies, whatever dash-free text stands around them. */
  function Wrapped(separators: seq<string>, bodies: seq<string>): seq<Part>
    requires |separators| == |bodies|
  {
    seq(|bodies|, i requires 0 <= i < |bodies| => Part(separators[i], "\n" + Wrap(bodies[i]) + "\n"))
  }

  lemma {:induction false} DropSpacesConcat(s: string, t: string)
    ensures DropSpaces(s + t) == DropSpaces(s) + DropSpaces(t)
  {
    hide JsSpace;
    if s == "" {
      assert s + t == t;
    } else {
      assert (s + t)[1..] == s[1..] + t;
      DropSpacesConcat(s[1..], t);
    }
  }

  lemma {:induction false} DropSpacesJoined(pieces: seq<string>)
    requires forall i :: 0 <= i < |pieces| ==> Base64(pieces[i])
    ensures DropSpaces(Join(pieces, "\n")) == Together(pieces) && '-' !in Join(pieces, "\n")
  {
    hide Base64, DropSpaces;
    if |pieces| == 0 {
      NothingToDrop();
    } else {
      Base64HasNoBreaks(pieces[0]);
      if |pieces| == 1 {
        assert pieces[1..] == [] && Together(pieces) == pieces[0] + "";
      } else {
        DropSpacesJoined(pieces[1..]);
        var rest := Join(pieces[1..], "\n");
        DropSpacesConcat(pieces[0] + "\n", rest);
        DropSpacesConcat(pieces[0], "\n");
        NothingToDrop();
      }
    }
  }

  lemma {:induction false} NothingToDrop()
    ensures DropSpaces("") == "" && DropSpaces("\n") == ""
  {
  }

  lemma {:induction false} PiecesBase64(s: string)
    requires Base64(s)
    ensures forall i :: 0 <= i < |Pieces(s)| ==> Base64(Pieces(s)[i])
    decreases |s|
  {
    if s != "" {
      Base64HasNoBreaks(s);
      PiecesStep(s);
      PiecesBase64(s[if |s| <= COLUMNS then |s| else COLUMNS..]);
      hide Pieces;
    }
  }

  lemma {:induction false} BodyFromText(body: string)
    requires Base64(body) && body != ""
    ensures var text := "\n" + Wrap(body) + "\n"; BodyOf(text) == [body] && '-' !in text
  {
    hide Pieces, Base64, DropSpaces, Join, NoTerminators;
    var text := "\n" + Wrap(body) + "\n";
    PiecesBase64(body);
    DropSpacesJoined(Pieces(body));
    Base64HasNoBreaks(body);
    WrappedLines(body);
    DropSpacesConcat("\n" + Wrap(body), "\n");
    DropSpacesConcat("\n", Wrap(body));
    NothingToDrop();
    assert DropSpaces(text) == "" + DropSpaces(Wrap(body)) + "" == body;
  }

  lemma {:induction false} BodiesRecovered(texts: seq<string>, bodies: seq<string>, n: nat)
    requires |texts| == |bodies| && n <= |texts|
    requires forall i :: 0 <= i < |texts| ==> BodyOf(texts[i]) == [bodies[i]]
    ensures BodiesOf(texts, n) == bodies[..n]
  {
    hide BodyOf;
    if n > 0 {
      BodiesRecovered(texts, bodies, n - 1);
      assert bodies[..n] == bodies[..n - 1] + [bodies[n - 1]];
    }
  }

  /** Any list of certificates, each wrapped between its markers and with any dash-free text around
      them, comes back in order. */
  lemma {:induction false} BundleRoundTrip(separators: seq<string>, bodies: seq<string>, tail: string)
    requires |separators| == |bodies| && '-' !in tail
    requires forall i :: 0 <= i < |bodies| ==> '-' !in separators[i] && Base64(bodies[i]) && bodies[i] != ""
    ensures var blocks := Blocks(Bundle(Wrapped(separators, bodies), tail)); BodiesOf(blocks, |blocks|) == bodies
  {
    hide Blocks, Bundle, Base64, BodyOf, Wrap;
    var parts := Wrapped(separators, bodies);
    forall i | 0 <= i < |parts| ensures '-' !in parts[i].text && BodyOf(parts[i].text) == [bodies[i]] {
      BodyFromText(bodies[i]);
    }
    BundleBlocks(parts, tail);
    BodiesRecovered(TextsOf(parts), bodies, |bodies|);
    assert bodies[..|bodies|] == bodies;
  }

  // ----- profiles

  function Value(digits: string): nat
    requires forall i :: 0 <= i < |digits| ==> '0' <= digits[i] <= '9'
  {
    if digits == "" then 0 else 10 * Value(digits[..|digits| - 1]) + (digits[|digits| - 1] as int - '0' as int)
  }

  lemma {:induction false} DecimalRoundTrip(n: nat)
    ensures forall i :: 0 <= i < |Decimal(n)| ==> '0' <= Decimal(n)[i] <= '9'
    ensures Decimal(n) != "" && Value(Decimal(n)) == n && (n > 0 ==> Decimal(n)[0] != '0')
  {
    if n < 10 {
      assert Decimal(n)[..0] == "";
    } else {
      DecimalRoundTrip(n / 10);
      assert Decimal(n)[..|Decimal(n)| - 1] == Decimal(n / 10);
    }
  }

  /** Payloads of different certificates differ in identifier and in UUID. */
  lemma {:induction false} PayloadsDiffer(identifier: string, uuid: string, bodies: seq<string>, i: nat, j: nat)
    requires i < j < |bodies|
    ensures var payloads := CertificatePayloads(identifier, uuid, bodies);
      payloads[i].identifier != payloads[j].identifier && payloads[i].uuid != payloads[j].uuid
  {
    hide EscapeXml, Wrap, Decimal;
    var payloads := CertificatePayloads(identifier, uuid, bodies);
    DecimalRoundTrip(i);
    DecimalRoundTrip(j);
    if payloads[i].identifier == payloads[j].identifier {
      EscapeInjective(identifier + ".cert." + Decimal(i), identifier + ".cert." + Decimal(j));
      SameTail(identifier + ".cert.", Decimal(i), Decimal(j));
    }
    if payloads[i].uuid == payloads[j].uuid {
      EscapeInjective(if i == 0 then uuid else uuid + "-" + Decimal(i), uuid + "-" + Decimal(j));
      if i > 0 { SameTail(uuid + "-", Decimal(i), Decimal(j)); }
    }
  }

  /** The identity payload's identifier is none of the certificates', nor is any of them the profile's. */
  lemma {:induction false} IdentityDiffers(identifier: string, uuid: string, bodies: seq<string>, i: nat)
    requires i < |bodies|
    ensures CertificatePayloads(identifier, uuid, bodies)[i].identifier != EscapeXml(identifier + ".identity")
    ensures CertificatePayloads(identifier, uuid, bodies)[i].identifier != EscapeXml(identifier)
  {
    hide EscapeXml, Wrap, Decimal;
    var mine, key := identifier + ".cert." + Decimal(i), identifier + ".identity";
    assert |mine| > |identifier| && mine[|identifier| + 1] == 'c' && key[|identifier| + 1] == 'i';
    if EscapeXml(mine) == EscapeXml(key) { EscapeInjective(mine, key); }
    if EscapeXml(mine) == EscapeXml(identifier) { EscapeInjective(mine, identifier); }
  }

  lemma {:induction false} BodiesAreBase64(blocks: seq<string>, n: nat)
    requires n <= |blocks|
    ensures forall i :: 0 <= i < |BodiesOf(blocks, n)| ==>
        BodiesOf(blocks, n)[i] != "" && Base64(BodiesOf(blocks, n)[i])
  {
    hide DropSpaces, Base64;
    if n > 0 { BodiesAreBase64(blocks, n - 1); }
  }

  /** A trust profile is refused exactly when the bundle has no certificate; otherwise it carries one
      payload for each, in order, never empty, which unwraps to that certificate. */
  lemma {:induction false} TrustProfileCarriesAll(pem: string, identifier: string, uuid: string)
    ensures var bodies, profile := BodiesOf(Blocks(pem), |Blocks(pem)|), TrustPayloads(pem, identifier, uuid);
      && (profile == Err(NoCertificate) <==> bodies == [])
      && (profile.Ok? ==> |profile.value| == |bodies| > 0)
      && (profile.Ok? ==> forall i :: 0 <= i < |bodies| ==> Unwrap(profile.value[i].data) == bodies[i] != "")
  {
    hide Blocks, EscapeXml, Decimal, Wrap, Unwrap, Base64, NoTerminators;
    var bodies := BodiesOf(Blocks(pem), |Blocks(pem)|);
    BodiesAreBase64(Blocks(pem), |Blocks(pem)|);
    hide BodiesOf;
    forall i | 0 <= i < |bodies| ensures Unwrap(Wrap(bodies[i])) == bodies[i] {
      Base64HasNoBreaks(bodies[i]);
      WrapRoundTrip(bodies[i]);
    }
  }

  lemma {:induction false} OnlySpaces(s: string)
    ensures DropSpaces(s) == "" <==> forall i :: 0 <= i < |s| ==> JsSpace(s[i])
  {
    hide JsSpace;
    if s != "" {
      OnlySpaces(s[1..]);
      assert forall i :: 1 <= i < |s| ==> s[i] == s[1..][i - 1];
    }
  }

  lemma {:induction false} KeptCharacters(s: string)
    ensures forall i :: 0 <= i < |DropSpaces(s)| ==> DropSpaces(s)[i] in s && !JsSpace(DropSpaces(s)[i])
  {
    hide JsSpace;
    if s != "" { KeptCharacters(s[1..]); }
  }

  /** The identity profile's check lets an all-space bundle through: its payload then carries no data.
      It carries some exactly when the bundle has a character that is not a space. */
  lemma {:induction false} IdentityCarriesKey(pem: string, identifier: string, uuid: string, bundle: string,
      identityUuid: string)
    requires IdentityPayloads(pem, identifier, uuid, bundle, identityUuid).Ok?
    ensures var payloads := IdentityPayloads(pem, identifier, uuid, bundle, identityUuid).value;
      && payloads != [] && Unwrap(payloads[|payloads| - 1].data) == DropSpaces(bundle)
      && (DropSpaces(bundle) != "" <==> exists i :: 0 <= i < |bundle| && !JsSpace(bundle[i]))
  {
    hide TrustPayloads, EscapeXml, Wrap, Unwrap, Base64Char, JsSpace, DropSpaces;
    OnlySpaces(bundle);
    KeptCharacters(bundle);
    var body := DropSpaces(bundle);
    forall i | 0 <= i < |body| ensures Base64Char(body[i]) { assert body[i] in bundle; }
    Base64HasNoBreaks(body);
    WrapRoundTrip(body);
  }

  /** A bundle of one space passes the check and yields an empty payload. */
  lemma {:induction false} BlankBundleAccepted(pem: string, identifier: string, uuid: string, identityUuid: string)
    requires TrustPayloads(pem, identifier, uuid).Ok?
    ensures IdentityPayloads(pem, identifier, uuid, " ", identityUuid).Ok? && Wrap(DropSpaces(" ")) == ""
  {
    hide TrustPayloads, EscapeXml;
    assert DropSpaces(" ") == "";
    assert Pieces("") == [];
  }

  // ----- the rules in full

  /** `marker` starts at place `p` of `s`. */
  predicate At(s: string, p: int, marker: string)
  {
    0 <= p <= |s| - |marker| && s[p..p + |marker|] == marker
  }

  lemma {:induction false} StartsAt(s: string, marker: string, p: nat)
    requires p <= |s|
    ensures StartsWith(s[p..], marker) <==> At(s, p, marker)
  {
    if p + |marker| <= |s| { assert s[p..][..|marker|] == s[p..p + |marker|]; }
  }

  lemma {:induction false} Behind(s: string, k: nat, p: int, marker: string)
    requires k <= |s| && 0 <= p
    ensures At(s[k..], p, marker) <==> At(s, k + p, marker)
  {
    if k + p + |marker| <= |s| { assert s[k..][p..p + |marker|] == s[k + p..k + p + |marker|]; }
  }

  /** What is found is an occurrence, and no later than any other. */
  lemma {:induction false} FindFirst(s: string, marker: string, p: nat)
    ensures Find(s, marker).Some? ==> At(s, Find(s, marker).value, marker)
    ensures At(s, p, marker) ==> Find(s, marker).Some? && Find(s, marker).value <= p
  {
    StartsAt(s, marker, 0);
    assert s[0..] == s;
    assert s == "" ==> (At(s, p, marker) ==> p == 0);
    hide At, StartsWith;
    if s != "" && !StartsWith(s, marker) {
      FindFirst(s[1..], marker, if p == 0 then 0 else p - 1);
      if p > 0 { Behind(s, 1, p - 1, marker); }
      if Find(s[1..], marker).Some? { Behind(s, 1, Find(s[1..], marker).value, marker); }
    }
  }

  lemma {:induction false} SkipTo(s: string, p: nat)
    requires p <= |s| && forall i: nat :: i < p ==> !At(s, i, BEGIN)
    ensures Blocks(s) == Blocks(s[p..])
    decreases p
  {
    hide At;
    if p == 0 {
      assert s[0..] == s;
    } else {
      StartsAt(s, BEGIN, 0);
      assert s[0..] == s && !At(s, 0, BEGIN);
      forall i: nat | i < p - 1 ensures !At(s[1..], i, BEGIN) { Behind(s, 1, i, BEGIN); }
      SkipTo(s[1..], p - 1);
      assert s[1..][p - 1..] == s[p..];
    }
  }

  /** The first certificate of any text runs from the first begin marker to the nearest end marker behind
      it, whatever stands before or between; the rest is read behind that. */
  lemma {:induction false} FirstBlock(s: string, p: nat, q: nat)
    requires At(s, p, "-----BEGIN CERTIFICATE-----")
    requires forall i: nat :: i < p ==> !At(s, i, "-----BEGIN CERTIFICATE-----")
    requires p + 27 <= q && At(s, q, "-----END CERTIFICATE-----")
    requires forall i: nat :: p + 27 <= i < q ==> !At(s, i, "-----END CERTIFICATE-----")
    ensures Blocks(s) == [s[p + 27..q]] + Blocks(s[q + 25..])
  {
    assert |BEGIN| == 27 && |END| == 25 && p + 27 <= |s| && q + 25 <= |s|;
    hide StartsWith, At;
    SkipTo(s, p);
    StartsAt(s, BEGIN, p);
    var inside := s[p + 27..];
    assert s[p..][27..] == inside;
    FindFrom(s, p + 27, q);
    assert inside[..q - p - 27] == s[p + 27..q] && inside[q - p - 27 + 25..] == s[q + 25..];
  }

  lemma {:induction false} FindFrom(s: string, k: nat, q: nat)
    requires k <= q && At(s, q, END) && forall i: nat :: k <= i < q ==> !At(s, i, END)
    ensures k <= |s| && Find(s[k..], END) == Some(q - k) && q + |END| <= |s|
  {
    assert q + |END| <= |s|;
    hide At, StartsWith;
    Behind(s, k, q - k, END);
    FindFirst(s[k..], END, q - k);
    Behind(s, k, Find(s[k..], END).value, END);
    assert k + Find(s[k..], END).value >= q;
  }

  /** A text has no certificate when no end marker stands behind a begin marker. */
  lemma {:induction false} NoBlock(s: string)
    requires forall p: nat, q: nat :: At(s, p, "-----BEGIN CERTIFICATE-----") && p + 27 <= q
                                      ==> !At(s, q, "-----END CERTIFICATE-----")
    ensures Blocks(s) == []
  {
    assert |BEGIN| == 27 && (At(s, 0, BEGIN) ==> |s| >= 27);
    hide StartsWith, At;
    if s != "" {
      StartsAt(s, BEGIN, 0);
      assert s[0..] == s;
      forall p: nat, q: nat | At(s[1..], p, BEGIN) && p + 27 <= q ensures !At(s[1..], q, END) {
        Behind(s, 1, p, BEGIN);
        Behind(s, 1, q, END);
        assert !At(s, 1 + q, END);
      }
      NoBlock(s[1..]);
      if At(s, 0, BEGIN) { NoEnd(s); }
    }
  }

  lemma {:induction false} NoEnd(s: string)
    requires |s| >= 27 && forall q: nat :: 27 <= q ==> !At(s, q, END)
    ensures Find(s[27..], END) == None
  {
    hide At, StartsWith;
    FindFirst(s[27..], END, 0);
    if Find(s[27..], END).Some? { Behind(s, 27, Find(s[27..], END).value, END); }
  }

  /** A character of a certificate as it may be written: one of base64, or a space. */
  predicate Writable(c: char)
  {
    'A' <= c <= 'Z' || 'a' <= c <= 'z' || '0' <= c <= '9' || c in "+/=" || JsSpace(c)
  }

  /** A block holds a certificate exactly when it is not blank and no character in it is foreign. */
  lemma {:induction false} BodyExactly(block: string)
    ensures BodyOf(block) != [] <==>
      (exists i :: 0 <= i < |block| && !JsSpace(block[i])) && forall i :: 0 <= i < |block| ==> Writable(block[i])
    ensures BodyOf(block) != [] ==> BodyOf(block) == [DropSpaces(block)]
  {
    hide DropSpaces, JsSpace;
    OnlySpaces(block);
    KeptAll(block);
  }

  lemma {:induction false} KeptAll(s: string)
    ensures Base64(DropSpaces(s)) <==> forall i :: 0 <= i < |s| ==> Writable(s[i])
  {
    hide JsSpace;
    if s != "" {
      KeptAll(s[1..]);
      assert forall i :: 1 <= i < |s| ==> s[i] == s[1..][i - 1];
      var kept := if JsSpace(s[0]) then [] else [s[0]];
      assert DropSpaces(s) == kept + DropSpaces(s[1..]);
      Base64Joined(kept, DropSpaces(s[1..]));
    }
  }

  lemma {:induction false} Base64Joined(s: string, t: string)
    ensures Base64(s + t) <==> Base64(s) && Base64(t)
  {
    hide Base64Char;
    if Base64(s + t) {
      forall i | 0 <= i < |t| ensures Base64Char(t[i]) { assert t[i] == (s + t)[|s| + i]; }
      forall i | 0 <= i < |s| ensures Base64Char(s[i]) { assert s[i] == (s + t)[i]; }
    }
  }

  /** Each payload in full: certificate `i` is identified by its number behind `.cert.`, and the first of
      them keeps the UUID it was given. */
  lemma {:induction false} PayloadInFull(pem: string, identifier: string, uuid: string, i: nat)
    requires var profile := TrustPayloads(pem, identifier, uuid); profile.Ok? && i < |profile.value|
    ensures var payload := TrustPayloads(pem, identifier, uuid).value[i];
      && payload.identifier == EscapeEach(identifier + ".cert." + Decimal(i))
      && (i == 0 ==> payload.uuid == EscapeEach(uuid))
      && (i > 0 ==> payload.uuid == EscapeEach(uuid + "-" + Decimal(i)))
  {
    hide EscapeXml, Wrap, Decimal, BodiesOf, Blocks, EscapeEach;
    EscapesEachCharacter(identifier + ".cert." + Decimal(i));
    EscapesEachCharacter(if i == 0 then uuid else uuid + "-" + Decimal(i));
  }

  /** The identity profile is refused for the reasons of the trust profile, and for a bundle that is empty
      or holds a foreign character; otherwise it is the trust profile and one payload more. */
  lemma {:induction false} IdentityInFull(pem: string, identifier: string, uuid: string, bundle: string,
      identityUuid: string)
    ensures var trust, profile := TrustPayloads(pem, identifier, uuid),
                                  IdentityPayloads(pem, identifier, uuid, bundle, identityUuid);
      && (trust.Err? ==> profile == trust)
      && (trust.Ok? ==>
            (profile.Ok? <==> bundle != "" && forall i :: 0 <= i < |bundle| ==> Writable(bundle[i])))
      && (trust.Ok? && profile.Err? ==> profile == Err(NoBundle))
      && (profile.Ok? ==>
            && |profile.value| == |trust.value| + 1 && profile.value[..|trust.value|] == trust.value
            && profile.value[|trust.value|].identifier == EscapeEach(identifier + ".identity")
            && profile.value[|trust.value|].uuid == EscapeEach(identityUuid)
            && Unwrap(profile.value[|trust.value|].data) == DropSpaces(bundle))
  {
    hide EscapeXml, Wrap, Unwrap, TrustPayloads, DropSpaces, EscapeEach, JsSpace;
    EscapesEachCharacter(identifier + ".identity");
    EscapesEachCharacter(identityUuid);
    if IdentityPayloads(pem, identifier, uuid, bundle, identityUuid).Ok? {
      IdentityCarriesKey(pem, identifier, uuid, bundle, identityUuid);
    }
  }
}

/** What is accepted as an origin and why a value is rejected, which values are offered, and what a report
    says, written out. */
module AuthOriginRules {
  import opened Results
  import opened Strings
  import opened OriginSignature
  import opened AuthOrigins
  import opened AuthOriginLaws

  // ----- trimming

  predicate Space(s: string) { forall i :: 0 <= i < |s| ==> JsSpace(s[i]) }
  predicate Slashes(s: string) { forall i :: 0 <= i < |s| ==> s[i] == '/' }

  lemma {:induction false} TrimLeftExactly(left: string, rest: string)
    requires Space(left) && (rest == "" || !JsSpace(rest[0]))
    ensures JsTrimLeft(left + rest) == rest
  {
    hide JsSpace;
    if left == "" {
      assert left + rest == rest;
    } else {
      assert (left + rest)[1..] == left[1..] + rest;
      TrimLeftExactly(left[1..], rest);
    }
  }

  lemma {:induction false} TrimRightExactly(core: string, right: string)
    requires Space(right) && (core == "" || !JsSpace(core[|core| - 1]))
    ensures JsTrimRight(core + right) == core
  {
    hide JsSpace;
    if right == "" {
      assert core + right == core;
    } else {
      assert (core + right)[..|core + right| - 1] == core + right[..|right| - 1];
      TrimRightExactly(core, right[..|right| - 1]);
    }
  }

  lemma {:induction false} Trimmed(left: string, core: string, right: string)
    requires Space(left) && Space(right) && (core == "" || (!JsSpace(core[0]) && !JsSpace(core[|core| - 1])))
    ensures JsTrim(left + core + right) == core
  {
    hide JsSpace;
    if core == "" {
      assert left + core + right == (left + right) + "";
      TrimLeftExactly(left + right, "");
      assert JsTrimRight("") == "";
    } else {
      assert left + core + right == left + (core + right);
      TrimLeftExactly(left, core + right);
      TrimRightExactly(core, right);
    }
  }

  lemma {:induction false} Unslashed(bare: string, slashes: string)
    requires Slashes(slashes) && (bare == "" || bare[|bare| - 1] != '/')
    ensures TrimRight(bare + slashes, '/') == bare
  {
    if slashes == "" {
      assert bare + slashes == bare;
    } else {
      assert (bare + slashes)[..|bare + slashes| - 1] == bare + slashes[..|slashes| - 1];
      Unslashed(bare, slashes[..|slashes| - 1]);
    }
  }

  // ----- accepting an origin

  /** A value with space around it and slashes behind. */
  predicate Wrapped(value: string, left: string, bare: string, slashes: string, right: string)
  {
    && value == left + (bare + slashes) + right && Space(left) && Space(right) && Slashes(slashes)
    && (bare == "" || (!JsSpace(bare[0]) && bare[|bare| - 1] != '/'))
    && (bare == "" || slashes != "" || !JsSpace(bare[|bare| - 1]))
  }

  lemma {:induction false} Unwrapped(value: string, left: string, bare: string, slashes: string, right: string)
    requires Wrapped(value, left, bare, slashes, right)
    ensures TrimRight(JsTrim(value), '/') == bare
  {
    var core := bare + slashes;
    if slashes != "" { assert core[|core| - 1] == '/'; }
    Trimmed(left, core, right);
    Unslashed(bare, slashes);
  }

  /** An origin must be there, be absolute, use the web's protocols, and have no wildcard in its host name,
      no path, no query and no fragment; the first of these that fails is the reason given. */
  lemma {:induction false} StrictExactly(p: Platform, value: string, left: string, bare: string, slashes: string,
      right: string)
    requires Wrapped(value, left, bare, slashes, right)
    ensures var normalized, url := NormalizeStrict(p, value), p.parse(bare);
      if bare == "" then normalized == Err(Empty)
      else if url.None? then normalized == Err(NotAbsolute)
      else if url.value.protocol !in {"http:", "https:"} then normalized == Err(WrongProtocol)
      else if '*' in url.value.hostname then normalized == Err(Wildcard)
      else if url.value.pathname != "/" || url.value.search != ""
          || url.value.hash != "" then normalized == Err(HasPath)
      else normalized == Ok(url.value.origin)
  {
    Unwrapped(value, left, bare, slashes, right);
    hide JsTrim, TrimRight;
  }

  /** The base URL may have a path, a query and a fragment: only its origin is taken. */
  lemma {:induction false} BaseExactly(p: Platform, left: string, bare: string, right: string)
    requires Space(left) && Space(right) && (bare == "" || (!JsSpace(bare[0]) && !JsSpace(bare[|bare| - 1])))
    ensures var normalized, url := NormalizeUrl(p, left + bare + right), p.parse(bare);
      if bare == "" then normalized == Err(Empty)
      else if url.None? then normalized == Err(NotAbsolute)
      else if url.value.protocol !in {"http:", "https:"} then normalized == Err(WrongProtocol)
      else if '*' in url.value.hostname then normalized == Err(Wildcard)
      else normalized == Ok(url.value.origin)
  {
    Trimmed(left, bare, right);
    hide JsTrim;
  }

  // ----- what is offered

  /** The base URL's origin, if it is set and has one; the tokens of the list; and in development the two
      local addresses. */
  lemma {:induction false} InputsInFull(p: Platform, env: Env)
    ensures var given := env.authUrl.Some? && env.authUrl.value != "";
      var base := if given && NormalizeUrl(p, env.authUrl.value).Ok?
                  then [Input(NormalizeUrl(p, env.authUrl.value).value, AuthUrl)] else [];
      var tokens := Tokens(if env.trustedOrigins.Some? then env.trustedOrigins.value else "");
      var listed := seq(|tokens|, i requires 0 <= i < |tokens| => Input(tokens[i], TrustedList));
      var local := if env.nodeEnv == Some("development")
                   then [Input("http://localhost:3000", DevelopmentDefault),
                         Input("http://127.0.0.1:3000", DevelopmentDefault)] else [];
      Inputs(p, env) == base + listed + local
  {
    hide NormalizeUrl, Tokens;
    var tokens := Listed(env);
    assert ListedInputs(tokens) == seq(|tokens|, i requires 0 <= i < |tokens| => Input(tokens[i], TrustedList));
  }

  /** Besides, a base URL that is set but has no origin is reported with the reason. */
  lemma {:induction false} BaseReported(p: Platform, env: Env)
    ensures var given := env.authUrl.Some? && env.authUrl.value != "";
      BaseInvalid(p, env) == if given && NormalizeUrl(p, env.authUrl.value).Err?
        then [Invalid(env.authUrl.value, AuthUrl, NormalizeUrl(p, env.authUrl.value).error)] else []
    ensures Computed(p, env).authBaseOrigin.Some? <==>
      env.authUrl.Some? && env.authUrl.value != "" && NormalizeUrl(p, env.authUrl.value).Ok?
    ensures Computed(p, env).authBaseOrigin.Some? ==>
      Computed(p, env).authBaseOrigin.value == NormalizeUrl(p, env.authUrl.value).value
  {
    hide NormalizeUrl, Collected;
  }

  /** Tokens are parted by commas and by the spaces of JavaScript, any number of them. */
  lemma {:induction false} TokensExactly(separator: char, token: string, rest: string)
    requires separator == ','
        || separator as int in {9, 10, 11, 12, 13, 32, 160, 5760, 8232, 8233, 8239, 8287, 12288, 65279}
        || 8192 <= separator as int <= 8202
    ensures Tokens([separator] + rest) == Tokens(rest)
    ensures CleanToken(token) ==>
      Tokens(token + [separator] + rest) == [token] + Tokens(rest) && Tokens(token) == [token]
  {
    assert Separates(separator);
    assert ([separator] + rest)[1..] == rest;
    hide Separates, CleanToken;
    if CleanToken(token) { FirstToken(token, separator, rest); }
  }

  // ----- sources

  function SourceName(s: Source): string
  {
    match s
    case AuthUrl => "BETTER_AUTH_URL"
    case TrustedList => "BETTER_AUTH_TRUSTED_ORIGINS"
    case DevelopmentDefault => "development-default"
  }

  lemma {:induction false} ListBeforeUrl()
    ensures Leq("BETTER_AUTH_TRUSTED_ORIGINS", "BETTER_AUTH_URL")
        && !Leq("BETTER_AUTH_URL", "BETTER_AUTH_TRUSTED_ORIGINS")
  {
    hide Leq;
    Behind("BETTER_AUTH_", "TRUSTED_ORIGINS", "URL");
    assert "BETTER_AUTH_" + "TRUSTED_ORIGINS" == "BETTER_AUTH_TRUSTED_ORIGINS"
        && "BETTER_AUTH_" + "URL" == "BETTER_AUTH_URL";
  }

  lemma {:induction false} Behind(prefix: string, a: string, b: string)
    requires a != "" && b != "" && a[0] < b[0]
    ensures Leq(prefix + a, prefix + b) && !Leq(prefix + b, prefix + a)
  {
    if prefix == "" {
      assert prefix + a == a && prefix + b == b;
    } else {
      assert (prefix + a)[1..] == prefix[1..] + a && (prefix + b)[1..] == prefix[1..] + b;
      Behind(prefix[1..], a, b);
    }
  }

  /** Sources are sorted by their names. */
  lemma {:induction false} RankedByName(a: Source, b: Source)
    ensures Rank(a) <= Rank(b) <==> Leq(SourceName(a), SourceName(b))
  {
    ListBeforeUrl();
    hide Leq;
    LeqTotal(SourceName(a), SourceName(a));
    assert 'B' < 'd';
    Behind("", "BETTER_AUTH_URL", "development-default");
    Behind("", "BETTER_AUTH_TRUSTED_ORIGINS", "development-default");
    assert "" + "BETTER_AUTH_URL" == "BETTER_AUTH_URL" && "" + "development-default" == "development-default";
    assert "" + "BETTER_AUTH_TRUSTED_ORIGINS" == "BETTER_AUTH_TRUSTED_ORIGINS";
  }

  // ----- the report

  /** A rejected value is shown as protocol and host, with a mark for a path; and not at all unless it is a
      web URL. */
  lemma {:induction false} RedactExactly(p: Platform, value: string)
    ensures var url := p.parse(value);
      Redact(p, value) ==
        if url.None? || url.value.protocol !in {"http:", "https:"} then "<redacted>"
        else if url.value.pathname == "/" then url.value.protocol + "//" + url.value.host
        else url.value.protocol + "//" + url.value.host + "/<path>"
  {
  }

  /** The report keeps the configuration but for the values of the invalid list; says whether the request's
      origin is trusted, if it is known; and warns of a missing base, of an invalid list that is not empty,
      and of a request's origin that is not trusted, in this order. */
  lemma {:induction false} ReportExactly(p: Platform, config: Config, current: Option<string>)
    ensures var r := Report(p, config, current);
      && r.current == current && r.config.(invalid := []) == config.(invalid := [])
      && |r.config.invalid| == |config.invalid|
      && (forall i :: 0 <= i < |config.invalid| ==>
            r.config.invalid[i] == config.invalid[i].(value := Redact(p, config.invalid[i].value)))
      && (current == None ==> r.trusted == None)
      && (current.Some? ==> r.trusted == Some(current.value in config.trustedOrigins))
      && (NoBase in r.warnings <==> config.authBaseOrigin == None)
      && (InvalidConfigured in r.warnings <==> config.invalid != [])
      && (CurrentNotTrusted in r.warnings <==> current.Some? && current.value !in config.trustedOrigins)
      && (forall i, j :: 0 <= i < j < |r.warnings| ==>
            (r.warnings[i] == NoBase && r.warnings[j] != NoBase)
            || (r.warnings[i] == InvalidConfigured && r.warnings[j] == CurrentNotTrusted))
  {
    hide Redact;
  }
}

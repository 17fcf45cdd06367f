/** The cache is transparent, and the configuration is exactly what the environment's tokens ask for:
    every token is either trusted under its origin or reported, never both. */
module AuthOriginLaws {
  import opened Results
  import opened Strings
  import opened OrderedMaps
  import opened Sorting
  import opened OriginSignature
  import opened AuthOrigins

  // ----- the cache

  /** The cache after resolving under each of the first `n` environments in turn. */
  function CacheAfter(p: Platform, cache: Cache, envs: seq<Env>, n: nat): Cache
    requires n <= |envs|
  {
    if n == 0 then cache else Resolved(p, CacheAfter(p, cache, envs, n - 1), envs[n - 1]).1
  }

  lemma {:induction false} ResolvingKeepsFresh(p: Platform, cache: Cache, env: Env)
    requires Fresh(p, cache)
    ensures Resolved(p, cache, env).0 == Computed(p, env) && Fresh(p, Resolved(p, cache, env).1)
  {
    hide Computed, Signature;
    forall env': Env | Signature(env') == Signature(env) ensures env' == env { SignatureInjective(env, env'); }
  }

  /** However the environment changes between calls, every call returns what a fresh computation would. */
  lemma {:induction false} CacheTransparent(p: Platform, envs: seq<Env>, k: nat)
    requires k < |envs|
    ensures Resolved(p, CacheAfter(p, Cache(None, None), envs, k), envs[k]).0 == Computed(p, envs[k])
  {
    hide Fresh, Resolved, Computed;
    CacheStaysFresh(p, envs, k);
    ResolvingKeepsFresh(p, CacheAfter(p, Cache(None, None), envs, k), envs[k]);
  }

  lemma {:induction false} CacheStaysFresh(p: Platform, envs: seq<Env>, n: nat)
    requires n <= |envs|
    ensures Fresh(p, CacheAfter(p, Cache(None, None), envs, n))
  {
    hide Resolved, Computed;
    if n > 0 {
      CacheStaysFresh(p, envs, n - 1);
      ResolvingKeepsFresh(p, CacheAfter(p, Cache(None, None), envs, n - 1), envs[n - 1]);
    }
  }

  // ----- the table

  /** The input is accepted, under this origin. */
  predicate Gives(p: Platform, input: Input, origin: string)
  {
    var normalized := NormalizeStrict(p, input.value);
    JsTrim(input.value) != "" && normalized.Ok? && normalized.value == origin
  }

  ghost predicate Given(p: Platform, inputs: seq<Input>, n: nat, origin: string)
    requires n <= |inputs|
  {
    exists k :: 0 <= k < n && Gives(p, inputs[k], origin)
  }

  ghost predicate GivenBy(p: Platform, inputs: seq<Input>, n: nat, origin: string, source: Source)
    requires n <= |inputs|
  {
    exists k :: 0 <= k < n && Gives(p, inputs[k], origin) && inputs[k].source == source
  }

  function FailureOf(p: Platform, input: Input): seq<Invalid>
  {
    if JsTrim(input.value) == "" then []
    else
      match NormalizeStrict(p, input.value)
      case Ok(_) => []
      case Err(reason) => [Invalid(input.value, input.source, reason)]
  }

  function Failures(p: Platform, inputs: seq<Input>, n: nat): seq<Invalid>
    requires n <= |inputs|
  {
    if n == 0 then [] else Failures(p, inputs, n - 1) + FailureOf(p, inputs[n - 1])
  }

  const NO_ORIGINS: OrderedMap<string, seq<Source>> := OrderedMap([], map[])

  ghost predicate Sources(p: Platform, inputs: seq<Input>, n: nat, origin: string, sources: seq<Source>)
    requires n <= |inputs|
  {
    && Distinct(sources)
    && (sources != [] <==> Given(p, inputs, n, origin))
    && forall s: Source :: s in sources <==> GivenBy(p, inputs, n, origin, s)
  }

  lemma {:induction false} GivenStep(p: Platform, inputs: seq<Input>, n: nat, origin: string)
    requires n < |inputs|
    ensures Given(p, inputs, n + 1, origin) <==> Given(p, inputs, n, origin) || Gives(p, inputs[n], origin)
    ensures forall s: Source :: GivenBy(p, inputs, n + 1, origin, s) <==>
      GivenBy(p, inputs, n, origin, s) || (Gives(p, inputs[n], origin) && inputs[n].source == s)
  {
    hide Gives;
    if Given(p, inputs, n + 1, origin) {
      var k :| 0 <= k < n + 1 && Gives(p, inputs[k], origin);
      assert k < n ==> Given(p, inputs, n, origin);
    }
    forall s: Source
      ensures GivenBy(p, inputs, n + 1, origin, s)
         <==> GivenBy(p, inputs, n, origin, s) || (Gives(p, inputs[n], origin) && inputs[n].source == s) {
      if GivenBy(p, inputs, n + 1, origin, s) {
        var k :| 0 <= k < n + 1 && Gives(p, inputs[k], origin) && inputs[k].source == s;
        assert k < n ==> GivenBy(p, inputs, n, origin, s);
      }
    }
  }

  lemma {:induction false} AddSourceKeeps(sources: seq<Source>, s: Source)
    requires Distinct(sources)
    ensures Distinct(AddSource(sources, s)) && AddSource(sources, s) != []
    ensures forall x: Source :: x in AddSource(sources, s) <==> x in sources || x == s
  {
    if s !in sources { DistinctAppend(sources, s); }
  }

  lemma {:induction false} AddedOrigins(p: Platform, t: Table, input: Input)
    ensures forall origin :: Gives(p, input, origin) ==>
      Added(p, t, input) == Table(t.origins.Put(origin, AddSource(t.origins.Get(origin, []), input.source)), t.invalid)
    ensures (forall origin :: !Gives(p, input, origin)) ==>
        Added(p, t, input) == Table(t.origins, t.invalid + FailureOf(p, input))
    ensures (exists origin :: Gives(p, input, origin)) ==> FailureOf(p, input) == []
  {
    hide NormalizeStrict, JsTrim;
    if JsTrim(input.value) != "" && NormalizeStrict(p, input.value).Ok? {
      assert Gives(p, input, NormalizeStrict(p, input.value).value);
    }
  }

  ghost predicate Exact(p: Platform, invalid: seq<Invalid>, inputs: seq<Input>, n: nat, t: Table)
    requires n <= |inputs|
  {
    && t.origins.Valid()
    && (forall origin :: origin in t.origins.entries <==> Given(p, inputs, n, origin))
    && (forall origin :: Sources(p, inputs, n, origin, t.origins.Get(origin, [])))
    && t.invalid == invalid + Failures(p, inputs, n)
  }

  lemma {:induction false} AcceptedStep(p: Platform, invalid: seq<Invalid>, inputs: seq<Input>, n: nat, t: Table,
      o: string)
    requires n < |inputs| && Exact(p, invalid, inputs, n, t) && Gives(p, inputs[n], o)
    ensures Exact(p, invalid, inputs, n + 1, Added(p, t, inputs[n]))
  {
    hide Gives, Added, FailureOf, Given, GivenBy;
    AddedOrigins(p, t, inputs[n]);
    var sources := t.origins.Get(o, []);
    var t' := Added(p, t, inputs[n]);
    assert t'.origins == t.origins.Put(o, AddSource(sources, inputs[n].source));
    assert Sources(p, inputs, n, o, sources);
    AddSourceKeeps(sources, inputs[n].source);
    forall origin
      ensures origin in t'.origins.entries <==> Given(p, inputs, n + 1, origin)
      ensures Sources(p, inputs, n + 1, origin, t'.origins.Get(origin, []))
    {
      GivenStep(p, inputs, n, origin);
      OneOrigin(p, inputs[n], o, origin);
      assert Sources(p, inputs, n, origin, t.origins.Get(origin, []));
      GetAfterPut(t.origins, o, AddSource(sources, inputs[n].source), origin, []);
    }
    assert Failures(p, inputs, n + 1) == Failures(p, inputs, n) + [];
  }

  lemma {:induction false} OneOrigin(p: Platform, input: Input, a: string, b: string)
    requires Gives(p, input, a)
    ensures Gives(p, input, b) <==> a == b
  {
  }

  lemma {:induction false} RejectedStep(p: Platform, invalid: seq<Invalid>, inputs: seq<Input>, n: nat, t: Table)
    requires n < |inputs| && Exact(p, invalid, inputs, n, t) && forall o :: !Gives(p, inputs[n], o)
    ensures Exact(p, invalid, inputs, n + 1, Added(p, t, inputs[n]))
  {
    hide Gives, Added, FailureOf, Given, GivenBy;
    AddedOrigins(p, t, inputs[n]);
    var t' := Added(p, t, inputs[n]);
    forall origin
      ensures origin in t'.origins.entries <==> Given(p, inputs, n + 1, origin)
      ensures Sources(p, inputs, n + 1, origin, t'.origins.Get(origin, []))
    {
      GivenStep(p, inputs, n, origin);
      assert Sources(p, inputs, n, origin, t.origins.Get(origin, []));
    }
    assert t'.invalid == invalid + Failures(p, inputs, n + 1);
  }

  lemma {:induction false} TableExact(p: Platform, invalid: seq<Invalid>, inputs: seq<Input>, n: nat)
    requires n <= |inputs|
    ensures Exact(p, invalid, inputs, n, AddedAll(p, Table(NO_ORIGINS, invalid), inputs, n))
  {
    hide Exact, Added, NormalizeStrict, JsTrim;
    if n == 0 {
      NothingGiven(p, invalid, inputs);
    } else {
      TableExact(p, invalid, inputs, n - 1);
      var t, value := AddedAll(p, Table(NO_ORIGINS, invalid), inputs, n - 1), inputs[n - 1].value;
      if JsTrim(value) != "" && NormalizeStrict(p, value).Ok? {
        AcceptedStep(p, invalid, inputs, n - 1, t, NormalizeStrict(p, value).value);
      } else {
        RejectedStep(p, invalid, inputs, n - 1, t);
      }
    }
  }

  lemma {:induction false} NothingGiven(p: Platform, invalid: seq<Invalid>, inputs: seq<Input>)
    ensures Exact(p, invalid, inputs, 0, Table(NO_ORIGINS, invalid))
  {
    assert invalid + [] == invalid;
  }

  // ----- sorting without repetition

  lemma {:induction false} DistinctCounts<T>(xs: seq<T>)
    requires Distinct(xs)
    ensures forall x :: multiset(xs)[x] <= 1
  {
    if xs != [] {
      var init, last := xs[..|xs| - 1], xs[|xs| - 1];
      forall i | 0 <= i < |init| ensures Unrepeated(init, i) {
        assert Unrepeated(xs, i) && init[..i] == xs[..i];
      }
      DistinctCounts(init);
      assert Unrepeated(xs, |xs| - 1);
      assert xs == init + [last];
    }
  }

  lemma {:induction false} CountsDistinct<T>(xs: seq<T>)
    requires forall x :: multiset(xs)[x] <= 1
    ensures Distinct(xs)
  {
    if xs != [] {
      var init, last := xs[..|xs| - 1], xs[|xs| - 1];
      assert xs == init + [last];
      assert multiset(xs) == multiset(init) + multiset{last};
      forall x ensures multiset(init)[x] <= 1 && (x == last ==> multiset(init)[x] == 0) {
        assert multiset(xs)[x] <= 1;
      }
      CountsDistinct(init);
      assert last !in multiset(init);
      DistinctAppend(init, last);
    }
  }

  lemma {:induction false} SortDistinct<T>(xs: seq<T>, leq: (T, T) -> bool)
    requires Distinct(xs)
    ensures Distinct(Sort(xs, leq)) && forall x :: x in Sort(xs, leq) <==> x in xs
  {
    hide Sort;
    SortKeepsElements(xs, leq);
    DistinctCounts(xs);
    CountsDistinct(Sort(xs, leq));
    forall x ensures x in Sort(xs, leq) <==> x in xs {
      assert x in multiset(Sort(xs, leq)) <==> x in multiset(xs);
    }
  }

  // ----- the configuration

  lemma {:induction false} CollectedExact(p: Platform, env: Env)
    ensures Exact(p, BaseInvalid(p, env), Inputs(p, env), |Inputs(p, env)|, Collected(p, env))
  {
    hide Exact, Inputs, BaseInvalid, AddedAll;
    TableExact(p, BaseInvalid(p, env), Inputs(p, env), |Inputs(p, env)|);
  }

  /** The trusted origins are exactly those some input gives, each listed once and in order. */
  lemma {:induction false} TrustedExactly(p: Platform, env: Env)
    ensures var config, inputs := Computed(p, env), Inputs(p, env);
      && Distinct(config.trustedOrigins)
      && (forall origin :: origin in config.trustedOrigins <==> Given(p, inputs, |inputs|, origin))
      && (TotalPreorder(p.upTo) ==> SortedBy(config.trustedOrigins, p.upTo))
  {
    hide Inputs, BaseInvalid, AddedAll, Given, Sources, Collected, BaseOrigin, Sort;
    CollectedExact(p, env);
    var keys := Collected(p, env).origins.keys;
    SortDistinct(keys, p.upTo);
    if TotalPreorder(p.upTo) { SortSorts(keys, p.upTo); }
    assert Computed(p, env).trustedOrigins == Sort(keys, p.upTo);
  }

  /** The sources of an entry are exactly those that give its origin, in order, none twice. */
  lemma {:induction false} SourcesExactly(p: Platform, env: Env, i: nat)
    requires i < |Computed(p, env).entries|
    ensures var config, inputs := Computed(p, env), Inputs(p, env);
      var entry := config.entries[i];
      && config.trustedOrigins[i] == entry.origin
      && (forall s: Source :: s in entry.sources <==> GivenBy(p, inputs, |inputs|, entry.origin, s))
      && forall a, b :: 0 <= a < b < |entry.sources| ==> Rank(entry.sources[a]) < Rank(entry.sources[b])
  {
    hide Inputs, BaseInvalid, AddedAll, Given, GivenBy, Collected, BaseOrigin, Sort;
    CollectedExact(p, env);
    var inputs, origins := Inputs(p, env), Collected(p, env).origins;
    var entry := Computed(p, env).entries[i];
    var sources := origins.Get(entry.origin, []);
    assert Sources(p, inputs, |inputs|, entry.origin, sources);
    SortDistinct(sources, SourceLeq());
    SourceOrder();
    SortSorts(sources, SourceLeq());
    assert entry.sources == Sort(sources, SourceLeq());
    forall a, b | 0 <= a < b < |entry.sources| ensures Rank(entry.sources[a]) < Rank(entry.sources[b]) {
      DistinctAt(entry.sources, a, b);
      RanksDiffer(entry.sources[a], entry.sources[b]);
      assert SourceLeq()(entry.sources[a], entry.sources[b]);
    }
  }

  lemma {:induction false} SourceOrder()
    ensures TotalPreorder(SourceLeq())
  {
  }

  lemma {:induction false} RanksDiffer(a: Source, b: Source)
    ensures Rank(a) == Rank(b) <==> a == b
  {
  }

  /** The invalid list is the base URL's failure, then every failing input in order. */
  lemma {:induction false} InvalidExactly(p: Platform, env: Env)
    ensures Computed(p, env).invalid == BaseInvalid(p, env) + Failures(p, Inputs(p, env), |Inputs(p, env)|)
  {
    hide Inputs, BaseInvalid, AddedAll, Given, Sources, Collected, BaseOrigin, Sort, Failures;
    CollectedExact(p, env);
  }

  // ----- tokens

  lemma {:induction false} TrimKeepsInk(s: string, i: nat)
    requires i < |s| && !JsSpace(s[i])
    ensures JsTrim(s) != ""
  {
    hide JsSpace;
    TrimLeftKeeps(s, i);
    var left := JsTrimLeft(s);
    var j :| 0 <= j < |left| && !JsSpace(left[j]);
    TrimRightKeeps(left, j);
  }

  lemma {:induction false} TrimLeftKeeps(s: string, i: nat)
    requires i < |s| && !JsSpace(s[i])
    ensures exists j :: 0 <= j < |JsTrimLeft(s)| && !JsSpace(JsTrimLeft(s)[j])
  {
    hide JsSpace;
    if JsSpace(s[0]) {
      assert s[1..][i - 1] == s[i];
      TrimLeftKeeps(s[1..], i - 1);
      var j :| 0 <= j < |JsTrimLeft(s[1..])| && !JsSpace(JsTrimLeft(s[1..])[j]);
      assert !JsSpace(JsTrimLeft(s)[j]);
    } else {
      assert JsTrimLeft(s)[0] == s[0];
    }
  }

  lemma {:induction false} TrimRightKeeps(s: string, i: nat)
    requires i < |s| && !JsSpace(s[i])
    ensures JsTrimRight(s) != ""
  {
    hide JsSpace;
    if JsSpace(s[|s| - 1]) { TrimRightKeeps(s[..|s| - 1], i); }
  }

  /** Tokens are not empty and hold no comma or space. */
  lemma {:induction false} TokensClean(s: string)
    ensures forall i :: 0 <= i < |Tokens(s)| ==> Tokens(s)[i] != ""
    ensures forall i, c :: 0 <= i < |Tokens(s)| && c in Tokens(s)[i] ==> !Separates(c)
  {
    hide Separates;
    if s != "" { TokensClean(s[1..]); }
  }

  predicate CleanToken(token: string) { token != "" && forall c :: c in token ==> !Separates(c) }

  lemma {:induction false} FirstToken(token: string, separator: char, rest: string)
    requires CleanToken(token) && Separates(separator)
    ensures Tokens(token + [separator] + rest) == [token] + Tokens(rest)
    ensures Tokens(token) == [token]
  {
    hide Separates;
    var s := token + [separator] + rest;
    assert token[0] in token;
    if |token| == 1 {
      assert s[1..] == [separator] + rest && s[2..] == rest && s[1..][1..] == rest;
      assert Tokens([separator] + rest) == Tokens(rest);
      assert token == [token[0]];
    } else {
      assert s[1..] == token[1..] + [separator] + rest && s[1] == token[1] && token[1] in token;
      FirstToken(token[1..], separator, rest);
      assert [token[0]] + token[1..] == token;
    }
  }

  /** Tokens joined by any one separator, a comma or a kind of space, split into themselves. */
  lemma {:induction false} TokensRoundTrip(tokens: seq<string>, separator: char)
    requires Separates(separator) && forall i :: 0 <= i < |tokens| ==> CleanToken(tokens[i])
    ensures Tokens(Join(tokens, [separator])) == tokens
  {
    hide Separates, Tokens, CleanToken;
    if tokens == [] {
      NoTokens();
    } else {
      FirstToken(tokens[0], separator, Join(tokens[1..], [separator]));
      if |tokens| > 1 { TokensRoundTrip(tokens[1..], separator); }
    }
  }

  lemma {:induction false} NoTokens()
    ensures Tokens("") == []
  {
  }

  lemma {:induction false} TokenNotBlank(s: string, i: nat)
    requires i < |Tokens(s)|
    ensures JsTrim(Tokens(s)[i]) != ""
  {
    hide Tokens, JsTrim, JsSpace;
    TokensClean(s);
    var token := Tokens(s)[i];
    assert token[0] in token && !Separates(token[0]);
    TrimKeepsInk(token, 0);
  }

  lemma {:induction false} FailureListed(p: Platform, inputs: seq<Input>, n: nat, x: Invalid)
    requires n <= |inputs|
    ensures x in Failures(p, inputs, n) <==> exists k :: 0 <= k < n && x in FailureOf(p, inputs[k])
  {
    hide FailureOf;
    if n > 0 { FailureListed(p, inputs, n - 1, x); }
  }

  lemma {:induction false} ReportedIff(p: Platform, inputs: seq<Input>, n: nat, k: nat)
    requires k < n <= |inputs| && JsTrim(inputs[k].value) != ""
    ensures (exists reason :: Invalid(inputs[k].value, inputs[k].source, reason) in Failures(p, inputs, n))
       <==> NormalizeStrict(p, inputs[k].value).Err?
  {
    hide NormalizeStrict, JsTrim, Failures;
    var input := inputs[k];
    if reason :| Invalid(input.value, input.source, reason) in Failures(p, inputs, n) {
      FailureListed(p, inputs, n, Invalid(input.value, input.source, reason));
    }
    if NormalizeStrict(p, input.value).Err? {
      var x := Invalid(input.value, input.source, NormalizeStrict(p, input.value).error);
      FailureListed(p, inputs, n, x);
      assert x in FailureOf(p, inputs[k]);
    }
  }

  /** Every token of the configured list ends in exactly one place: trusted under its origin, or
      reported as invalid. */
  lemma {:induction false} TokenEndsOnce(p: Platform, env: Env, i: nat)
    requires i < |Listed(env)|
    ensures var config, token := Computed(p, env), Listed(env)[i];
      var normalized := NormalizeStrict(p, token);
      && (normalized.Ok? ==> normalized.value in config.trustedOrigins)
      && (normalized.Err? <==> exists reason :: Invalid(token, TrustedList, reason) in config.invalid)
  {
    hide Computed, Listed, NormalizeStrict, JsTrim, Inputs, BaseInvalid, Failures;
    var inputs, token := Inputs(p, env), Listed(env)[i];
    InputsAre(p, env);
    var k := (if BaseOrigin(p, env).Some? then 1 else 0) + i;
    assert inputs[k] == Input(token, TrustedList);
    ListedNotBlank(env, i);
    TrustedExactly(p, env);
    if NormalizeStrict(p, token).Ok? { assert Gives(p, inputs[k], NormalizeStrict(p, token).value); }
    InvalidExactly(p, env);
    ReportedIff(p, inputs, |inputs|, k);
    BaseSource(p, env);
  }

  lemma {:induction false} BaseSource(p: Platform, env: Env)
    ensures forall x :: x in BaseInvalid(p, env) ==> x.source == AuthUrl
  {
    hide NormalizeUrl;
  }

  lemma {:induction false} ListedNotBlank(env: Env, i: nat)
    requires i < |Listed(env)|
    ensures JsTrim(Listed(env)[i]) != ""
  {
    hide Tokens, JsTrim;
    TokenNotBlank(match env.trustedOrigins case None => "" case Some(s) => s, i);
  }

  // ----- origins parse to themselves

  /** What is assumed of the URL parser: the origin of a web URL has no space or slash to trim, and
      parses to a URL with that origin and host name and nothing behind it. */
  ghost predicate OriginsParse(p: Platform)
  {
    forall text ::
      var url := p.parse(text);
      url.Some? && IsWeb(url.value) ==> OriginParses(p, url.value)
  }

  predicate OriginParses(p: Platform, url: Url)
  {
    && TrimRight(JsTrim(url.origin), '/') == url.origin == JsTrim(url.origin)
    && p.parse(url.origin).Some?
    && var again := p.parse(url.origin).value;
    IsWeb(again) && again.origin == url.origin && again.hostname == url.hostname
    && again.pathname == "/" && again.search == "" && again.hash == ""
  }

  /** A configured base URL with an origin is always trusted, with itself as a source. */
  lemma {:induction false} BaseIsTrusted(p: Platform, env: Env)
    requires OriginsParse(p) && Computed(p, env).authBaseOrigin.Some?
    ensures var origin, inputs := Computed(p, env).authBaseOrigin.value, Inputs(p, env);
      origin in Computed(p, env).trustedOrigins && GivenBy(p, inputs, |inputs|, origin, AuthUrl)
  {
    hide Collected, Inputs, JsTrim, TrimRight, Sort, EntriesOf;
    var origin, inputs := Computed(p, env).authBaseOrigin.value, Inputs(p, env);
    InputsAre(p, env);
    TrustedExactly(p, env);
    var url := p.parse(JsTrim(AuthUrlOf(env).value)).value;
    assert OriginParses(p, url);
    assert Gives(p, inputs[0], origin);
  }

  /** Every trusted origin is in normal form: it normalises to itself. */
  lemma {:induction false} TrustedAreNormal(p: Platform, env: Env, origin: string)
    requires OriginsParse(p) && origin in Computed(p, env).trustedOrigins
    ensures NormalizeStrict(p, origin).Ok? && NormalizeStrict(p, origin).value == origin
  {
    hide Computed, Inputs, JsTrim, TrimRight;
    var inputs := Inputs(p, env);
    TrustedExactly(p, env);
    var k :| 0 <= k < |inputs| && Gives(p, inputs[k], origin);
    var url := p.parse(TrimRight(JsTrim(inputs[k].value), '/')).value;
    assert OriginParses(p, url);
  }

  // ----- the report

  /** The report warns about the request's origin exactly when no configured input gives it. */
  lemma {:induction false} WarnsExactly(p: Platform, env: Env, current: string)
    ensures var inputs := Inputs(p, env);
      CurrentNotTrusted in Report(p, Computed(p, env), Some(current)).warnings <==> !Given(p, inputs, |inputs|, current)
  {
    hide Computed, Inputs, Given, RedactAll;
    TrustedExactly(p, env);
  }

  /** Redaction shows nothing of a value beyond protocol, host, and whether there is a path: values that
      agree on these give the same report, whatever their credentials, path, query and fragment are. */
  lemma {:induction false} RedactionHides(p: Platform, config: Config, config': Config, current: Option<string>)
    requires config.(invalid := []) == config'.(invalid := []) && |config.invalid| == |config'.invalid|
    requires forall i :: 0 <= i < |config.invalid| ==> AlikeOutside(p, config.invalid[i], config'.invalid[i])
    ensures Report(p, config, current) == Report(p, config', current)
  {
    assert RedactAll(p, config.invalid) == RedactAll(p, config'.invalid);
    hide RedactAll;
  }

  predicate AlikeOutside(p: Platform, a: Invalid, b: Invalid)
  {
    var u, v := p.parse(a.value), p.parse(b.value);
    && a.source == b.source && a.reason == b.reason && (u.Some? <==> v.Some?)
    && (u.Some? ==> u.value.protocol == v.value.protocol && u.value.host == v.value.host
                    && (u.value.pathname == "/" <==> v.value.pathname == "/"))
  }
}

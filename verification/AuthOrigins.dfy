/** Trusted origins: computing them from the environment, caching them, and reporting on them. The URL
    parser and the locale's order of strings are given. */
module AuthOrigins {
  import opened Results
  import opened Strings
  import opened OrderedMaps
  import opened Sorting
  import opened OriginSignature

  /** The origin of a parsed URL is never empty. */
  type Origin = s: string | s != "" witness "null"

  datatype Url = Url(
    protocol: string, username: string, password: string, host: string, hostname: string, pathname: string,
    search: string, hash: string, origin: Origin)

  /** `new URL(text)`, none when it throws, and `a.localeCompare(b) <= 0`. */
  datatype Platform = Platform(parse: string -> Option<Url>, upTo: (string, string) -> bool)

  datatype Source = AuthUrl | TrustedList | DevelopmentDefault

  /** The place of a source among its names in code-unit order, which is how sources are sorted. */
  function Rank(s: Source): nat
  {
    match s case TrustedList => 0 case AuthUrl => 1 case DevelopmentDefault => 2
  }

  datatype Reason = Empty | NotAbsolute | WrongProtocol | Wildcard | HasPath

  datatype Invalid = Invalid(value: string, source: Source, reason: Reason)
  datatype Entry = Entry(origin: string, sources: seq<Source>)
  datatype Config = Config(
    authBaseOrigin: Option<string>, trustedOrigins: seq<string>, entries: seq<Entry>, invalid: seq<Invalid>)

  // ----- text

  function JsTrimLeft(s: string): string { if s != "" && JsSpace(s[0]) then JsTrimLeft(s[1..]) else s }
  function JsTrimRight(s: string): string { if s != "" && JsSpace(s[|s| - 1]) then JsTrimRight(s[..|s| - 1]) else s }
  function JsTrim(s: string): string { JsTrimRight(JsTrimLeft(s)) }

  predicate Separates(c: char) { c == ',' || JsSpace(c) }

  /** The maximal runs of characters between commas and spaces. */
  function Tokens(s: string): seq<string>
  {
    if s == "" then []
    else if Separates(s[0]) then Tokens(s[1..])
    else if |s| == 1 || Separates(s[1]) then [[s[0]]] + Tokens(s[1..])
    else
      var rest := Tokens(s[1..]);
      if rest == [] then [[s[0]]] else [[s[0]] + rest[0]] + rest[1..]
  }

  // ----- normalising

  predicate IsWeb(url: Url) { url.protocol == "http:" || url.protocol == "https:" }

  function NormalizeUrl(p: Platform, value: string): Result<Origin, Reason>
  {
    if JsTrim(value) == "" then Err(Empty)
    else
      match p.parse(JsTrim(value))
      case None => Err(NotAbsolute)
      case Some(url) =>
        if !IsWeb(url) then Err(WrongProtocol)
        else if '*' in url.hostname then Err(Wildcard)
        else Ok(url.origin)
  }

  function NormalizeStrict(p: Platform, value: string): Result<Origin, Reason>
  {
    var trimmed := TrimRight(JsTrim(value), '/');
    if trimmed == "" then Err(Empty)
    else
      match p.parse(trimmed)
      case None => Err(NotAbsolute)
      case Some(url) =>
        if !IsWeb(url) then Err(WrongProtocol)
        else if '*' in url.hostname then Err(Wildcard)
        else if url.pathname != "/" || url.search != "" || url.hash != "" then Err(HasPath)
        else Ok(url.origin)
  }

  // ----- collecting

  datatype Input = Input(value: string, source: Source)

  function AddSource(sources: seq<Source>, s: Source): seq<Source>
  {
    if s in sources then sources else sources + [s]
  }

  datatype Table = Table(origins: OrderedMap<string, seq<Source>>, invalid: seq<Invalid>)

  function Added(p: Platform, t: Table, input: Input): Table
  {
    if JsTrim(input.value) == "" then t
    else
      match NormalizeStrict(p, input.value)
      case Err(reason) => Table(t.origins, t.invalid + [Invalid(input.value, input.source, reason)])
      case Ok(origin) => Table(t.origins.Put(origin, AddSource(t.origins.Get(origin, []), input.source)), t.invalid)
  }

  function AddedAll(p: Platform, t: Table, inputs: seq<Input>, n: nat): Table
    requires n <= |inputs|
  {
    if n == 0 then t else Added(p, AddedAll(p, t, inputs, n - 1), inputs[n - 1])
  }

  /** A variable set to the empty string counts as not set. */
  function AuthUrlOf(env: Env): Option<string>
  {
    if env.authUrl == Some("") then None else env.authUrl
  }

  function AuthBase(p: Platform, env: Env): Option<Result<Origin, Reason>>
  {
    match AuthUrlOf(env) case None => None case Some(url) => Some(NormalizeUrl(p, url))
  }

  function BaseOrigin(p: Platform, env: Env): Option<Origin>
  {
    match AuthBase(p, env)
    case Some(Ok(origin)) => Some(origin)
    case _ => None
  }

  function Listed(env: Env): seq<string>
  {
    Tokens(match env.trustedOrigins case None => "" case Some(s) => s)
  }

  function ListedInputs(tokens: seq<string>): seq<Input>
  {
    seq(|tokens|, i requires 0 <= i < |tokens| => Input(tokens[i], TrustedList))
  }

  const LOCALHOST := "http://localhost:3000"
  const LOOPBACK := "http://127.0.0.1:3000"

  /** Everything offered to the table, in order. */
  function Inputs(p: Platform, env: Env): seq<Input>
  {
    (match BaseOrigin(p, env) case Some(origin) => [Input(origin, AuthUrl)] case None => [])
    + ListedInputs(Listed(env))
    + if env.nodeEnv == Some("development")
      then [Input(LOCALHOST, DevelopmentDefault), Input(LOOPBACK, DevelopmentDefault)] else []
  }

  /** The input from the base URL, if any, stands first; the development ones stand last. */
  lemma {:induction false} InputsAre(p: Platform, env: Env)
    ensures var inputs, base, listed := Inputs(p, env), BaseOrigin(p, env), Listed(env);
      var offset := if base.Some? then 1 else 0;
      && (base.Some? ==> |inputs| > 0 && inputs[0] == Input(base.value, AuthUrl))
      && |inputs| >= offset + |listed|
      && (forall i :: 0 <= i < |listed| ==> inputs[offset + i] == Input(listed[i], TrustedList))
      && (env.nodeEnv == Some("development") ==>
            && |inputs| == offset + |listed| + 2
            && inputs[offset + |listed|] == Input(LOCALHOST, DevelopmentDefault)
            && inputs[offset + |listed| + 1] == Input(LOOPBACK, DevelopmentDefault))
      && (env.nodeEnv != Some("development") ==> |inputs| == offset + |listed|)
  {
    hide BaseOrigin, Listed, LOCALHOST, LOOPBACK;
  }

  /** The base URL is reported at once when it has no origin. */
  function BaseInvalid(p: Platform, env: Env): seq<Invalid>
  {
    match AuthBase(p, env)
    case Some(Err(reason)) => [Invalid(AuthUrlOf(env).value, AuthUrl, reason)]
    case _ => []
  }

  function Collected(p: Platform, env: Env): Table
  {
    AddedAll(p, Table(OrderedMap([], map[]), BaseInvalid(p, env)), Inputs(p, env), |Inputs(p, env)|)
  }

  function SourceLeq(): (Source, Source) -> bool { (a, b) => Rank(a) <= Rank(b) }

  function EntriesOf(origins: OrderedMap<string, seq<Source>>, keys: seq<string>): seq<Entry>
  {
    seq(|keys|, i requires 0 <= i < |keys| => Entry(keys[i], Sort(origins.Get(keys[i], []), SourceLeq())))
  }

  function OriginsOf(entries: seq<Entry>): seq<string>
  {
    seq(|entries|, i requires 0 <= i < |entries| => entries[i].origin)
  }

  function ConfigOf(p: Platform, base: Option<string>, t: Table): Config
  {
    var entries := EntriesOf(t.origins, Sort(t.origins.keys, p.upTo));
    Config(base, OriginsOf(entries), entries, t.invalid)
  }

  /** The configuration, computed afresh. */
  function Computed(p: Platform, env: Env): Config
  {
    ConfigOf(p, BaseOrigin(p, env), Collected(p, env))
  }

  // ----- the module's state

  datatype Cache = Cache(signature: Option<string>, config: Option<Config>)

  /** What is cached is what its signature's environment computes to. */
  ghost predicate Fresh(p: Platform, cache: Cache)
  {
    cache.config.Some? ==> forall env :: cache.signature == Some(Signature(env)) ==>
        cache.config.value == Computed(p, env)
  }

  function Resolved(p: Platform, cache: Cache, env: Env): (Config, Cache)
  {
    if cache.config.Some? && cache.signature == Some(Signature(env)) then (cache.config.value, cache)
    else (Computed(p, env), Cache(Some(Signature(env)), Some(Computed(p, env))))
  }

  class OriginTable {
    var origins: OrderedMap<string, seq<Source>>
    var invalid: seq<Invalid>

    constructor ()
      ensures Contents() == Table(OrderedMap([], map[]), [])
    {
      origins, invalid := OrderedMap([], map[]), [];
    }

    ghost function Contents(): Table
      reads this
    {
      Table(origins, invalid)
    }

    method Reject(value: string, source: Source, reason: Reason)
      modifies this`invalid
      ensures Contents() == Table(old(origins), old(invalid) + [Invalid(value, source, reason)])
    {
      invalid := invalid + [Invalid(value, source, reason)];
    }

    method AddOrigin(p: Platform, value: string, source: Source)
      modifies this
      ensures Contents() == Added(p, old(Contents()), Input(value, source))
    {
      if JsTrim(value) == "" { return; }
      var normalized := NormalizeStrict(p, value);
      if normalized.Err? {
        Reject(value, source, normalized.error);
        return;
      }
      var sources := AddSource(origins.Get(normalized.value, []), source);
      origins := origins.Put(normalized.value, sources);
    }
  }

  const REDACTED := "<redacted>"

  /** What a report shows of a rejected value. */
  function Redact(p: Platform, value: string): string
  {
    match p.parse(value)
    case None => REDACTED
    case Some(url) =>
      if IsWeb(url) then url.protocol + "//" + url.host + if url.pathname == "/" then "" else "/<path>"
      else REDACTED
  }

  function RedactAll(p: Platform, invalid: seq<Invalid>): seq<Invalid>
  {
    seq(|invalid|, i requires 0 <= i < |invalid| => invalid[i].(value := Redact(p, invalid[i].value)))
  }

  datatype Warning = NoBase | InvalidConfigured | CurrentNotTrusted

  datatype Diagnostics = Diagnostics(
    config: Config, current: Option<string>, trusted: Option<bool>, warnings: seq<Warning>)

  function Report(p: Platform, config: Config, current: Option<string>): Diagnostics
  {
    var trusted := match current case None => None case Some(origin) => Some(origin in config.trustedOrigins);
    Diagnostics(config.(invalid := RedactAll(p, config.invalid)), current, trusted,
                (if config.authBaseOrigin.None? then [NoBase] else [])
                + (if config.invalid != [] then [InvalidConfigured] else [])
                + (if trusted == Some(false) then [CurrentNotTrusted] else []))
  }

  lemma {:induction false} Judged(p: Platform, config: Config, current: Option<string>, trusted: Option<bool>,
      warnings: seq<Warning>)
    requires trusted == match current case None => None case Some(origin) => Some(origin in config.trustedOrigins)
    requires warnings ==
      (if config.authBaseOrigin.None? then [NoBase] else [])
      + (if config.invalid != [] then [InvalidConfigured] else [])
      + (if trusted == Some(false) then [CurrentNotTrusted] else [])
    ensures Report(p, config, current)
         == Diagnostics(config.(invalid := RedactAll(p, config.invalid)), current, trusted, warnings)
  {
  }

  // ----- objects

  class InvalidRecord {
    var value: string
    var source: Source
    var reason: Reason

    constructor (value: string, source: Source, reason: Reason)
      ensures this.value == value && this.source == source && this.reason == reason
    {
      this.value, this.source, this.reason := value, source, reason;
    }

    ghost function Contents(): Invalid
      reads this
    {
      Invalid(value, source, reason)
    }
  }

  /** A configuration as it lives in memory; a report has one too, sharing arrays with the cached one.
      An entry is a value here. */
  class ConfigRecord {
    var authBaseOrigin: Option<string>
    var trustedOrigins: array<string>
    var entries: array<Entry>
    var invalid: array<InvalidRecord>

    constructor (base: Option<string>, trustedOrigins: array<string>, entries: array<Entry>,
        invalid: array<InvalidRecord>)
      ensures this.authBaseOrigin == base && this.trustedOrigins == trustedOrigins
      ensures this.entries == entries && this.invalid == invalid
    {
      this.authBaseOrigin, this.trustedOrigins, this.entries, this.invalid := base, trustedOrigins, entries, invalid;
    }

    ghost function Records(): set<object>
      reads this, invalid
    {
      set i | 0 <= i < invalid.Length :: invalid[i]
    }

    /** The object itself, its list of invalid origins, and the records in it. */
    ghost function Own(): set<object>
      reads this, invalid
    {
      {this, invalid} + Records()
    }

    ghost function Repr(): set<object>
      reads this, invalid
    {
      Own() + {trustedOrigins, entries}
    }

    ghost function Contents(): Config
      reads this, invalid, Repr()
    {
      Config(authBaseOrigin, trustedOrigins[..], entries[..],
             seq(invalid.Length, i requires 0 <= i < invalid.Length reads this, invalid, Repr() =>
               invalid[i].Contents()))
    }
  }

  method NewRecords(invalid: seq<Invalid>) returns (records: array<InvalidRecord>)
    ensures fresh(records) && records.Length == |invalid|
    ensures forall i :: 0 <= i < |invalid| ==> fresh(records[i]) && records[i].Contents() == invalid[i]
  {
    var made: seq<InvalidRecord> := [];
    for i := 0 to |invalid|
      invariant |made| == i
      invariant forall k :: 0 <= k < i ==> fresh(made[k]) && made[k].Contents() == invalid[k]
    {
      var record := new InvalidRecord(invalid[i].value, invalid[i].source, invalid[i].reason);
      made := made + [record];
    }
    records := new InvalidRecord[|made|](i requires 0 <= i < |made| => made[i]);
  }

  class Resolver {
    const platform: Platform
    var cachedSignature: Option<string>
    var cachedConfig: ConfigRecord?
    ghost var repr: set<object>

    constructor (platform: Platform)
      ensures this.platform == platform && Valid() && State() == Cache(None, None)
    {
      this.platform := platform;
      cachedSignature, cachedConfig, repr := None, null, {};
    }

    /** `repr` holds the cached object and everything it is made of. */
    ghost predicate Held()
      reads this, repr
    {
      && this !in repr
      && (cachedConfig != null ==> cachedConfig in repr && cachedConfig.invalid in repr && cachedConfig.Repr() <= repr)
    }

    ghost function State(): Cache
      requires Held()
      reads this, repr
    {
      Cache(cachedSignature, if cachedConfig == null then None else Some(cachedConfig.Contents()))
    }

    ghost predicate Valid()
      reads this, repr
    {
      Held() && Fresh(platform, State())
    }

    /** The cached object itself is returned, and kept while the environment's signature stays the same. */
    method ResolveTrustedOriginConfig(env: Env) returns (config: ConfigRecord)
      requires Valid()
      modifies this
      ensures Valid() && config == cachedConfig && config.Contents() == Computed(platform, env)
      ensures (config.Contents(), State()) == Resolved(platform, old(State()), env)
      ensures old(cachedConfig) != null && old(cachedSignature) == Some(Signature(env)) ==> config == old(cachedConfig)
      ensures !(old(cachedConfig) != null && old(cachedSignature) == Some(Signature(env))) ==> fresh(config.Repr())
      ensures old(cachedConfig) != null ==> old(cachedConfig).Contents() == old(cachedConfig.Contents())
    {
      hide Computed, Signature;
      var signature := Signature(env);
      if cachedConfig != null && cachedSignature == Some(signature) {
        return cachedConfig;
      }
      config := Compute(env);
      cachedConfig := config;
      cachedSignature := Some(signature);
      repr := config.Repr();
      forall env': Env | Signature(env') == signature ensures Computed(platform, env') == Computed(platform, env) {
        SignatureInjective(env, env');
      }
    }

    method Compute(env: Env) returns (config: ConfigRecord)
      ensures fresh(config.Repr()) && config.Contents() == Computed(platform, env)
    {
      hide NormalizeUrl, NormalizeStrict, Added, Listed, Inputs, Sort, EntriesOf, LOCALHOST, LOOPBACK, AuthUrlOf;
      InputsAre(platform, env);
      var table := new OriginTable();
      var authUrl := AuthUrlOf(env);
      var base: Option<Origin> := None;
      ghost var start := Table(OrderedMap([], map[]), BaseInvalid(platform, env));
      ghost var inputs := Inputs(platform, env);
      if authUrl.Some? {
        var normalized := NormalizeUrl(platform, authUrl.value);
        if normalized.Ok? {
          base := Some(normalized.value);
          table.AddOrigin(platform, normalized.value, AuthUrl);
        } else {
          table.Reject(authUrl.value, AuthUrl, normalized.error);
        }
      }
      ghost var offset := if base.Some? then 1 else 0;
      var listed := Listed(env);
      for i := 0 to |listed|
        invariant table.Contents() == AddedAll(platform, start, inputs, offset + i)
      {
        table.AddOrigin(platform, listed[i], TrustedList);
      }
      if env.nodeEnv == Some("development") {
        table.AddOrigin(platform, LOCALHOST, DevelopmentDefault);
        assert table.Contents() == AddedAll(platform, start, inputs, offset + |listed| + 1);
        table.AddOrigin(platform, LOOPBACK, DevelopmentDefault);
      }
      assert table.Contents() == Collected(platform, env);
      assert base == BaseOrigin(platform, env);
      config := Record(base, table);
    }

    /** The entries in order, and the object that holds everything. */
    method Record(base: Option<string>, table: OriginTable) returns (config: ConfigRecord)
      ensures fresh(config.Repr()) && config.Contents() == ConfigOf(platform, base, table.Contents())
    {
      hide Sort;
      var keys := Sort(table.origins.keys, platform.upTo);
      var entries := EntriesOf(table.origins, keys);
      var origins := OriginsOf(entries);
      var trustedArray := new string[|origins|](i requires 0 <= i < |origins| => origins[i]);
      var entryArray := new Entry[|entries|](i requires 0 <= i < |entries| => entries[i]);
      var records := NewRecords(table.invalid);
      assert trustedArray[..] == origins && entryArray[..] == entries;
      config := new ConfigRecord(base, trustedArray, entryArray, records);
    }

    /** `current` is the request's origin. The report shares the arrays of origins and entries with the
        cached object; its list of invalid origins and every record in it are new, and the cached object
        with all its records is as it was. */
    method GetOriginDiagnostics(env: Env, current: Option<string>)
      returns (shown: ConfigRecord, trusted: Option<bool>, warnings: seq<Warning>)
      requires Valid()
      modifies this
      ensures Valid() && State() == Resolved(platform, old(State()), env).1
      ensures Diagnostics(shown.Contents(), current, trusted, warnings)
          == Report(platform, Computed(platform, env), current)
      ensures cachedConfig != null && shown.trustedOrigins == cachedConfig.trustedOrigins
          && shown.entries == cachedConfig.entries
      ensures fresh(shown.Own()) && shown.Own() !! cachedConfig.Repr()
      ensures old(cachedConfig) != null ==> old(cachedConfig).Contents() == old(cachedConfig.Contents())
    {
      hide Computed, Signature, Fresh, Resolved, RedactAll, Report;
      var config := ResolveTrustedOriginConfig(env);
      shown, trusted, warnings := Explain(config, current);
    }

    method Explain(config: ConfigRecord, current: Option<string>)
      returns (shown: ConfigRecord, trusted: Option<bool>, warnings: seq<Warning>)
      ensures Diagnostics(shown.Contents(), current, trusted, warnings) == Report(platform, config.Contents(), current)
      ensures shown.trustedOrigins == config.trustedOrigins && shown.entries == config.entries
      ensures fresh(shown.Own()) && shown.Own() !! config.Repr()
    {
      hide RedactAll, Report;
      ghost var contents := config.Contents();
      trusted := match current case None => None case Some(origin) => Some(origin in config.trustedOrigins[..]);
      warnings := [];
      if config.authBaseOrigin.None? { warnings := warnings + [NoBase]; }
      if config.invalid.Length > 0 { warnings := warnings + [InvalidConfigured]; }
      if trusted == Some(false) { warnings := warnings + [CurrentNotTrusted]; }
      Judged(platform, contents, current, trusted, warnings);
      shown := RedactedCopy(config);
    }

    /** Another object with the same arrays of origins and entries, and a list of its own of invalid origins. */
    method RedactedCopy(config: ConfigRecord) returns (shown: ConfigRecord)
      ensures shown.trustedOrigins == config.trustedOrigins && shown.entries == config.entries
      ensures fresh(shown.Own()) && shown.Own() !! config.Repr()
      ensures shown.Contents() == config.Contents().(invalid := RedactAll(platform, config.Contents().invalid))
    {
      hide Redact;
      var records := Redacted(config);
      shown := new ConfigRecord(config.authBaseOrigin, config.trustedOrigins, config.entries, records);
      assert shown.Contents().invalid == RedactAll(platform, config.Contents().invalid);
    }

    /** A new list of new records. */
    method Redacted(config: ConfigRecord) returns (records: array<InvalidRecord>)
      ensures fresh(records) && records.Length == config.invalid.Length
      ensures forall i :: 0 <= i < records.Length ==>
        fresh(records[i]) && records[i].Contents() == RedactAll(platform, config.Contents().invalid)[i]
    {
      var made: seq<InvalidRecord> := [];
      for i := 0 to config.invalid.Length
        invariant |made| == i
        invariant forall k :: 0 <= k < i ==>
          fresh(made[k]) && made[k].Contents() == RedactAll(platform, config.Contents().invalid)[k]
      {
        var origin := config.invalid[i];
        var record := new InvalidRecord(Redact(platform, origin.value), origin.source, origin.reason);
        made := made + [record];
      }
      records := new InvalidRecord[|made|](i requires 0 <= i < |made| => made[i]);
    }
  }
}

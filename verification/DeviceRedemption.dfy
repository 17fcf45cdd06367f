/** The table of device links and the requests on it. Every database statement is one step; the steps of
    different requests may come in any order, at any times, and a request may stop between two of its own. */
module DeviceRedemption {
  import opened Results
  import opened DeviceLink

  /** A row. `mint` tells which request wrote it. */
  datatype Link = Link(mint: nat, user: string, digest: string, expiresAt: int, consumed: bool)

  /** A request for a code: open between its two statements. */
  datatype Mint = Mint(user: string, code: string, made: int, open: bool)

  datatype Use = SignIn | Profile

  /** A request that has claimed a row; `row` is what the statement returned, the row as it was but for the
      mark. Open until the answer is sent. */
  datatype Claim = Claim(link: nat, row: Link, use: Use, input: string, at: int, open: bool)

  datatype Grant = Grant(claim: nat, user: string)

  datatype State = State(links: seq<Link>, mints: seq<Mint>, claims: seq<Claim>, grants: seq<Grant>)

  const EMPTY := State([], [], [], [])

  datatype Event =
    | Retire(user: string, code: string, made: int)
    | Insert(mint: nat, now: int)
    | Fail(mint: nat)
    | Spend(input: string, use: Use, now: int)
    | Answer(claim: nat, now: int, ok: bool)

  datatype Env = Env(upper: Upper, sha256: string -> string)

  function DigestOf(env: Env, code: string): Result<string, LinkError> { Hash(env.upper, env.sha256, code) }

  // ----- the statements

  /** The first statement of a mint marks all open links of the user. */
  function Retired(links: seq<Link>, user: string): seq<Link>
  {
    seq(|links|, i requires 0 <= i < |links| =>
      if links[i].user == user then links[i].(consumed := true) else links[i])
  }

  predicate Spendable(link: Link, digest: string, now: int)
  {
    link.digest == digest && !link.consumed && link.expiresAt > now
  }

  /** The statement of a redemption marks every row it matches and returns them. */
  function Spent(links: seq<Link>, digest: string, now: int): seq<Link>
  {
    seq(|links|, i requires 0 <= i < |links| =>
      if Spendable(links[i], digest, now) then links[i].(consumed := true) else links[i])
  }

  function FirstSpendable(links: seq<Link>, digest: string, now: int, from: nat): (found: Option<nat>)
    requires from <= |links|
    ensures found.Some? ==> from <= found.value < |links| && Spendable(links[found.value], digest, now)
    ensures found.None? ==> forall i :: from <= i < |links| ==> !Spendable(links[i], digest, now)
    decreases |links| - from
  {
    if from == |links| then None
    else if Spendable(links[from], digest, now) then Some(from)
    else FirstSpendable(links, digest, now, from + 1)
  }

  /** The table refuses a digest it holds, and a link that is over when it is written. */
  predicate Writable(links: seq<Link>, digest: string, expiresAt: int, now: int)
  {
    expiresAt > now && forall i :: 0 <= i < |links| ==> links[i].digest != digest
  }

  // ----- steps

  function CloseMint(s: State, k: nat): State
    requires k < |s.mints|
  {
    s.(mints := s.mints[k := s.mints[k].(open := false)])
  }

  function InsertStep(env: Env, s: State, k: nat, now: int): State
    requires k < |s.mints|
  {
    var mint, closed := s.mints[k], CloseMint(s, k);
    match DigestOf(env, mint.code)
    case Err(_) => closed
    case Ok(digest) =>
      if Writable(s.links, digest, Expiry(mint.made), now)
      then closed.(links := s.links + [Link(k, mint.user, digest, Expiry(mint.made), false)])
      else closed
  }

  function SpendStep(env: Env, s: State, input: string, use: Use, now: int): State
  {
    match DigestOf(env, input)
    case Err(_) => s
    case Ok(digest) =>
      match FirstSpendable(s.links, digest, now, 0)
      case None => s
      case Some(i) =>
        s.(links := Spent(s.links, digest, now), claims := s.claims + [Claim(i, s.links[i], use, input, now, true)])
  }

  /** A sign-in looks at the row once more, by the clock of the application; a profile does not. Either may
      still fail to be made. */
  predicate Granted(claim: Claim, now: int, ok: bool)
  {
    ok && (claim.use == Profile || Inspect(Record(Some(claim.row.expiresAt), false), Some(now)) == Usable)
  }

  function AnswerStep(s: State, k: nat, now: int, ok: bool): State
    requires k < |s.claims|
  {
    var claim := s.claims[k];
    var closed := s.(claims := s.claims[k := claim.(open := false)]);
    if Granted(claim, now, ok) then closed.(grants := s.grants + [Grant(k, claim.row.user)]) else closed
  }

  function Step(env: Env, s: State, e: Event): State
  {
    match e
    case Retire(user, code, made) =>
      s.(links := Retired(s.links, user), mints := s.mints + [Mint(user, code, made, true)])
    case Insert(k, now) => if k < |s.mints| && s.mints[k].open then InsertStep(env, s, k, now) else s
    case Fail(k) => if k < |s.mints| && s.mints[k].open then CloseMint(s, k) else s
    case Spend(input, use, now) => SpendStep(env, s, input, use, now)
    case Answer(k, now, ok) => if k < |s.claims| && s.claims[k].open then AnswerStep(s, k, now, ok) else s
  }

  /** The state after the first `n` events. */
  function After(env: Env, events: seq<Event>, n: nat): State
    requires n <= |events|
  {
    if n == 0 then EMPTY else Step(env, After(env, events, n - 1), events[n - 1])
  }

  // ----- what every step keeps

  predicate Apart(links: seq<Link>)
  {
    forall i, j :: 0 <= i < j < |links| ==> links[i].digest != links[j].digest
  }

  /** Every row was written by a finished mint of its user, from its code, for two minutes. */
  predicate Written(env: Env, s: State)
  {
    forall i :: 0 <= i < |s.links| ==>
      && s.links[i].mint < |s.mints| && !s.mints[s.links[i].mint].open
      && s.links[i].user == s.mints[s.links[i].mint].user
      && DigestOf(env, s.mints[s.links[i].mint].code) == Ok(s.links[i].digest)
      && s.links[i].expiresAt == s.mints[s.links[i].mint].made + 120000
  }

  /** Every claim holds a marked row of its own, which it claimed in time with what spells its code. */
  predicate Claimed(env: Env, s: State)
  {
    && (forall k :: 0 <= k < |s.claims| ==>
         && s.claims[k].link < |s.links| && s.links[s.claims[k].link].consumed
         && s.claims[k].row == s.links[s.claims[k].link].(consumed := false)
         && DigestOf(env, s.claims[k].input) == Ok(s.claims[k].row.digest)
         && s.claims[k].at < s.claims[k].row.expiresAt)
    && (forall j, k :: 0 <= j < k < |s.claims| ==> s.claims[j].link != s.claims[k].link)
  }

  predicate Answered(s: State)
  {
    && (forall g :: 0 <= g < |s.grants| ==>
         && s.grants[g].claim < |s.claims| && !s.claims[s.grants[g].claim].open
         && s.grants[g].user == s.claims[s.grants[g].claim].row.user)
    && (forall g, h :: 0 <= g < h < |s.grants| ==> s.grants[g].claim != s.grants[h].claim)
  }

  predicate Good(env: Env, s: State) { Apart(s.links) && Written(env, s) && Claimed(env, s) && Answered(s) }

  lemma {:induction false} InsertKeeps(env: Env, s: State, k: nat, now: int)
    requires Good(env, s) && k < |s.mints| && s.mints[k].open
    ensures Good(env, InsertStep(env, s, k, now))
  {
    hide Hash;
  }

  lemma {:induction false} SpendKeeps(env: Env, s: State, input: string, use: Use, now: int)
    requires Good(env, s)
    ensures Good(env, SpendStep(env, s, input, use, now))
  {
    hide Hash;
  }

  lemma {:induction false} AnswerKeeps(env: Env, s: State, k: nat, now: int, ok: bool)
    requires Good(env, s) && k < |s.claims| && s.claims[k].open
    ensures Good(env, AnswerStep(s, k, now, ok))
  {
    hide Hash, Inspect;
  }

  lemma {:induction false} StepKeeps(env: Env, s: State, e: Event)
    requires Good(env, s)
    ensures Good(env, Step(env, s, e))
  {
    hide Hash, InsertStep, SpendStep, AnswerStep;
    match e
    case Retire(_, _, _) =>
    case Insert(k, now) => if k < |s.mints| && s.mints[k].open { InsertKeeps(env, s, k, now); }
    case Fail(_) =>
    case Spend(input, use, now) => SpendKeeps(env, s, input, use, now);
    case Answer(k, now, ok) => if k < |s.claims| && s.claims[k].open { AnswerKeeps(env, s, k, now, ok); }
  }

  lemma {:induction false} AlwaysGood(env: Env, events: seq<Event>, n: nat)
    requires n <= |events|
    ensures Good(env, After(env, events, n))
  {
    hide Step, Good;
    if n == 0 {
      EmptyGood(env);
    } else {
      AlwaysGood(env, events, n - 1);
      StepKeeps(env, After(env, events, n - 1), events[n - 1]);
    }
  }

  lemma {:induction false} EmptyGood(env: Env)
    ensures Good(env, EMPTY)
  {
  }
}

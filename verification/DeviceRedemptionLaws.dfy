/** What the device links promise over every run: a code signs in at most one device, within two minutes,
    for the one who minted it; and when a user can have two links at once. */
module DeviceRedemptionLaws {
  import opened Results
  import opened DeviceLink
  import DeviceLinkLaws
  import opened DeviceRedemption

  // ----- one use

  /** The code behind a claim, and who it was minted for. */
  function MintOf(s: State, k: nat): Mint
    requires k < |s.claims| && s.claims[k].row.mint < |s.mints|
  {
    s.mints[s.claims[k].row.mint]
  }

  /** However the requests interleave, no two grants come from one code: claims of the same digest, or of
      codes with the same digest, are the same claim. */
  lemma {:induction false} OneGrantPerCode(env: Env, events: seq<Event>, g: nat, h: nat)
    requires var s := After(env, events, |events|); g < h < |s.grants|
    ensures var s := After(env, events, |events|);
      && s.grants[g].claim < |s.claims| && s.grants[h].claim < |s.claims|
      && DigestOf(env, s.claims[s.grants[g].claim].input) != DigestOf(env, s.claims[s.grants[h].claim].input)
  {
    hide Hash, Step;
    AlwaysGood(env, events, |events|);
    var s := After(env, events, |events|);
    hide After;
    var j, k := s.grants[g].claim, s.grants[h].claim;
    assert s.claims[j].link != s.claims[k].link;
    assert s.links[s.claims[j].link].digest != s.links[s.claims[k].link].digest;
  }

  /** Every grant goes to the user whose mint made the code, for an input with that code's digest, which
      was spent less than two minutes after the mint. */
  lemma {:induction false} GrantedExactly(env: Env, events: seq<Event>, g: nat)
    requires g < |After(env, events, |events|).grants|
    ensures var s := After(env, events, |events|);
      var k := s.grants[g].claim;
      && k < |s.claims| && s.claims[k].row.mint < |s.mints|
      && s.grants[g].user == MintOf(s, k).user && !MintOf(s, k).open
      && DigestOf(env, s.claims[k].input) == DigestOf(env, MintOf(s, k).code)
      && s.claims[k].at - MintOf(s, k).made < 120000
  {
    hide Hash, Step;
    AlwaysGood(env, events, |events|);
  }

  // ----- when a request is served

  /** No two codes share a digest. */
  ghost predicate NoCollision(sha256: string -> string)
  {
    forall a, b :: CodePattern(a) && CodePattern(b) && sha256(a) == sha256(b) ==> a == b
  }

  lemma {:induction false} SameDigest(env: Env, input: string, code: string)
    requires UppersAscii(env.upper) && NoCollision(env.sha256) && CodePattern(code)
    ensures DigestOf(env, code) == Ok(env.sha256(code))
    ensures DigestOf(env, input) == DigestOf(env, code) <==> DeviceLinkLaws.Spells(env.upper, input, code)
  {
    hide DeviceLinkLaws.Spells, Cleaned, UppersAscii, CodeChar;
    DeviceLinkLaws.ReadAsSpelled(env.upper, input, code);
    DeviceLinkLaws.NormalForm(env.upper, code);
  }

  /** The codes asked for are codes, as drawing makes them. */
  predicate Drawn(events: seq<Event>)
  {
    forall i :: 0 <= i < |events| && events[i].Retire? ==> CodePattern(events[i].code)
  }

  lemma {:induction false} CodesDrawn(env: Env, events: seq<Event>, n: nat)
    requires n <= |events| && Drawn(events)
    ensures forall m :: 0 <= m < |After(env, events, n).mints| ==> CodePattern(After(env, events, n).mints[m].code)
  {
    hide Hash, CodePattern;
    if n > 0 { CodesDrawn(env, events, n - 1); }
  }

  /** The input spells the code of link `i`, which is unspent and was minted less than two minutes ago. */
  predicate Redeemable(env: Env, s: State, i: nat, input: string, now: int)
    requires UppersAscii(env.upper)
  {
    && i < |s.links| && s.links[i].mint < |s.mints| && !s.links[i].consumed
    && now - s.mints[s.links[i].mint].made < 120000
    && DeviceLinkLaws.Spells(env.upper, input, s.mints[s.links[i].mint].code)
  }

  predicate Serves(before: State, after: State, i: nat)
  {
    |after.claims| == |before.claims| + 1 && after.claims[|before.claims|].link == i
  }

  /** A request claims a link exactly when its input spells the link's code, the link is unspent, and two
      minutes have not passed since the mint; and a request that claims none changes nothing. */
  lemma {:induction false} SpendExactly(env: Env, events: seq<Event>, input: string, use: Use, now: int, i: nat)
    requires UppersAscii(env.upper) && NoCollision(env.sha256) && Drawn(events)
    ensures var s := After(env, events, |events|);
      var t := Step(env, s, Spend(input, use, now));
      && (Serves(s, t, i) <==> Redeemable(env, s, i, input, now))
      && (|t.claims| == |s.claims| ==> t == s)
      && |t.links| == |s.links|
      && (i < |s.links| ==> t.links[i] == if Serves(s, t, i) then s.links[i].(consumed := true) else s.links[i])
  {
    hide Hash, After, DeviceLinkLaws.Spells, UppersAscii, CodePattern, NoCollision;
    AlwaysGood(env, events, |events|);
    CodesDrawn(env, events, |events|);
    var s := After(env, events, |events|);
    if i < |s.links| { SameDigest(env, input, s.mints[s.links[i].mint].code); }
  }

  /** A claim that is open is granted when the answer can be made, and for a sign-in only if the clock of
      the application has not passed the two minutes either. */
  lemma {:induction false} AnswerExactly(env: Env, events: seq<Event>, k: nat, now: int, ok: bool)
    requires var s := After(env, events, |events|); k < |s.claims| && s.claims[k].open
    ensures var s := After(env, events, |events|);
      var t := Step(env, s, Answer(k, now, ok));
      && s.claims[k].row.mint < |s.mints| && !t.claims[k].open
      && (t.grants == s.grants + [Grant(k, MintOf(s, k).user)] <==>
            ok && (s.claims[k].use == Profile || now - MintOf(s, k).made < 120000))
      && (t.grants == s.grants || |t.grants| == |s.grants| + 1)
  {
    hide Hash, After;
    AlwaysGood(env, events, |events|);
    var s := After(env, events, |events|);
    assert s.grants + [Grant(k, s.claims[k].row.user)] != s.grants;
  }

  /** The second look of a sign-in refuses nothing while the application's clock is not ahead of the time
      of the claim. */
  lemma {:induction false} SecondLook(env: Env, events: seq<Event>, k: nat, now: int, ok: bool)
    requires var s := After(env, events, |events|); k < |s.claims| && now <= s.claims[k].at
    ensures Granted(After(env, events, |events|).claims[k], now, ok) <==> ok
  {
    hide Hash, After;
    AlwaysGood(env, events, |events|);
  }

  // ----- nothing comes back

  /** Rows and claims are only added; what is marked stays marked, and what a row or a claim says of its
      code, its user and its time never changes. */
  ghost predicate Later(s: State, t: State)
  {
    && |s.links| <= |t.links| && |s.claims| <= |t.claims| && s.grants <= t.grants
    && (forall i :: 0 <= i < |s.links| ==>
         t.links[i].(consumed := false) == s.links[i].(consumed := false) &&
         (s.links[i].consumed ==> t.links[i].consumed))
    && (forall k :: 0 <= k < |s.claims| ==> t.claims[k].(open := true) == s.claims[k].(open := true))
    && (forall k :: |s.claims| <= k < |t.claims| ==>
         t.claims[k].link < |s.links| ==> !s.links[t.claims[k].link].consumed)
  }

  lemma {:induction false} StepLater(env: Env, s: State, e: Event)
    ensures Later(s, Step(env, s, e))
  {
    hide Hash, Inspect;
  }

  lemma {:induction false} LaterStill(s: State, t: State, u: State)
    requires Later(s, t) && Later(t, u)
    ensures Later(s, u)
  {
  }

  lemma {:induction false} RunLater(env: Env, events: seq<Event>, n: nat, m: nat)
    requires n <= m <= |events|
    ensures Later(After(env, events, n), After(env, events, m))
  {
    hide Step, Later;
    if n == m {
      SameLater(After(env, events, n));
    } else {
      RunLater(env, events, n, m - 1);
      StepLater(env, After(env, events, m - 1), events[m - 1]);
      LaterStill(After(env, events, n), After(env, events, m - 1), After(env, events, m));
    }
  }

  lemma {:induction false} SameLater(s: State)
    ensures Later(s, s)
  {
  }

  /** A link the user held when minting anew is never claimed afterwards, whatever requests follow. */
  lemma {:induction false} RetiredForGood(env: Env, events: seq<Event>, n: nat, i: nat, k: nat)
    requires n < |events| && events[n].Retire?
    requires var s := After(env, events, n); i < |s.links| && s.links[i].user == events[n].user
    requires |After(env, events, n).claims| <= k < |After(env, events, |events|).claims|
    ensures After(env, events, |events|).claims[k].link != i
  {
    hide Hash;
    var s, t := After(env, events, n), After(env, events, n + 1);
    assert t == Step(env, s, events[n]);
    assert t.links[i].consumed && t.claims == s.claims;
    RunLater(env, events, n + 1, |events|);
  }

  // ----- one link at a time

  /** The user's unspent links. */
  function Unspent(s: State, user: string): set<nat>
  {
    set i: nat | i < |s.links| && s.links[i].user == user && !s.links[i].consumed
  }

  /** The user's mints that are under way. */
  function UnderWay(s: State, user: string): set<nat>
  {
    set k: nat | k < |s.mints| && s.mints[k].user == user && s.mints[k].open
  }

  /** No mint of the user begins, up to event `n`, while another is under way. */
  predicate OneByOne(env: Env, events: seq<Event>, user: string, n: nat)
    requires n <= |events|
  {
    forall k :: 0 <= k < n && events[k].Retire? && events[k].user == user ==>
        UnderWay(After(env, events, k), user) == {}
  }

  lemma {:induction false} InsertMoves(env: Env, s: State, k: nat, now: int, user: string)
    requires k < |s.mints| && s.mints[k].open
    ensures var t := InsertStep(env, s, k, now);
      && UnderWay(t, user) == UnderWay(s, user) - {k}
      && (Unspent(t, user) == Unspent(s, user) ||
          (k in UnderWay(s, user) && Unspent(t, user) == Unspent(s, user) + {|s.links|}))
  {
    hide Hash;
  }

  lemma {:induction false} RetireMoves(env: Env, s: State, other: string, code: string, made: int, user: string)
    ensures var t := Step(env, s, Retire(other, code, made));
      if other == user then Unspent(t, user) == {} && UnderWay(t, user) == UnderWay(s, user) + {|s.mints|}
      else Unspent(t, user) == Unspent(s, user) && UnderWay(t, user) == UnderWay(s, user)
  {
  }

  lemma {:induction false} SpendMoves(env: Env, s: State, input: string, use: Use, now: int, user: string)
    ensures var t := SpendStep(env, s, input, use, now);
      Unspent(t, user) <= Unspent(s, user) && UnderWay(t, user) == UnderWay(s, user)
  {
    hide Hash;
  }

  lemma {:induction false} OthersMove(env: Env, s: State, e: Event, user: string)
    requires e.Fail? || e.Answer?
    ensures var t := Step(env, s, e); Unspent(t, user) == Unspent(s, user) && UnderWay(t, user) <= UnderWay(s, user)
  {
    hide Granted;
  }

  lemma {:induction false} StepCounts(env: Env, s: State, e: Event, user: string)
    ensures var t := Step(env, s, e);
      if e.Retire? && e.user == user
      then Unspent(t, user) == {} && UnderWay(t, user) == UnderWay(s, user) + {|s.mints|}
      else |Unspent(t, user)| + |UnderWay(t, user)| <= |Unspent(s, user)| + |UnderWay(s, user)|
  {
    hide Unspent, UnderWay, InsertStep, SpendStep, AnswerStep, Retired, CloseMint;
    var t := Step(env, s, e);
    match e
    case Retire(other, code, made) => RetireMoves(env, s, other, code, made, user);
    case Insert(k, now) => if k < |s.mints| && s.mints[k].open { InsertMoves(env, s, k, now, user); }
    case Spend(input, use, now) =>
      SpendMoves(env, s, input, use, now, user);
      Shrinks(Unspent(t, user), Unspent(s, user));
    case _ =>
      OthersMove(env, s, e, user);
      Shrinks(UnderWay(t, user), UnderWay(s, user));
  }

  lemma {:induction false} Shrinks(a: set<nat>, b: set<nat>)
    requires a <= b
    ensures |a| <= |b|
  {
    if a != {} {
      var x :| x in a;
      Shrinks(a - {x}, b - {x});
    }
  }

  /** A user's unspent links and the mints under way that may still add one. */
  predicate AtMostOne(s: State, user: string) { |Unspent(s, user)| + |UnderWay(s, user)| <= 1 }

  predicate AtMostOneUpTo(env: Env, events: seq<Event>, user: string, n: nat)
    requires n <= |events|
  {
    forall k :: 0 <= k <= n ==> AtMostOne(After(env, events, k), user)
  }

  /** The promise that a user has at most one link, now or once the mints under way are done, holds all
      through a run exactly when none of the user's mints begins while another is under way. */
  lemma {:induction false} AtMostOneExactly(env: Env, events: seq<Event>, user: string, n: nat)
    requires n <= |events|
    ensures AtMostOneUpTo(env, events, user, n) <==> OneByOne(env, events, user, n)
  {
    hide Step, Unspent, UnderWay;
    if n == 0 {
      NothingYet(user);
    } else {
      AtMostOneExactly(env, events, user, n - 1);
      var s, e := After(env, events, n - 1), events[n - 1];
      assert After(env, events, n) == Step(env, s, e);
      StepCounts(env, s, e, user);
      NewMint(s, user);
    }
  }

  lemma {:induction false} NewMint(s: State, user: string)
    ensures |UnderWay(s, user) + {|s.mints|}| == |UnderWay(s, user)| + 1
    ensures UnderWay(s, user) == {} <==> |UnderWay(s, user)| == 0
  {
  }

  lemma {:induction false} NothingYet(user: string)
    ensures Unspent(EMPTY, user) == {} && UnderWay(EMPTY, user) == {}
  {
  }

  /** So a user whose mints come one after the other has at most one unspent link after any run. */
  lemma {:induction false} OneLink(env: Env, events: seq<Event>, user: string, i: nat, j: nat)
    requires OneByOne(env, events, user, |events|)
    requires var s := After(env, events, |events|); i in Unspent(s, user) && j in Unspent(s, user)
    ensures i == j
  {
    AtMostOneExactly(env, events, user, |events|);
    hide After;
    var s := After(env, events, |events|);
    assert AtMostOne(s, user);
    if i != j { Shrinks({i, j}, Unspent(s, user)); }
  }

  /** Two mints of one user that retire before either inserts leave two links, and each can be spent. */
  lemma {:induction false} TwoLinks(env: Env, user: string, a: string, b: string)
    requires DigestOf(env, a).Ok? && DigestOf(env, b).Ok? && DigestOf(env, a) != DigestOf(env, b)
    ensures var events := [Retire(user, a, 0), Retire(user, b, 0), Insert(0, 0), Insert(1, 0)];
      var s := After(env, events, 4);
      && Unspent(s, user) == {0, 1}
      && Serves(s, Step(env, s, Spend(a, SignIn, 1)), 0) && Serves(s, Step(env, s, Spend(b, SignIn, 1)), 1)
  {
    hide Hash;
    var events := [Retire(user, a, 0), Retire(user, b, 0), Insert(0, 0), Insert(1, 0)];
    assert After(env, events, 2) == State([], [Mint(user, a, 0, true), Mint(user, b, 0, true)], [], []) by {
      assert After(env, events, 1) == Step(env, EMPTY, events[0]);
      assert Retired([], user) == [];
    }
    var first := Link(0, user, DigestOf(env, a).value, 120000, false);
    var second := Link(1, user, DigestOf(env, b).value, 120000, false);
    assert After(env, events, 3).links == [first];
    assert After(env, events, 4).links == [first, second];
  }

  /** A mint that ends with no other under way leaves its user the new link alone, which its code spends. */
  lemma {:induction false} MintedAlone(env: Env, events: seq<Event>, user: string, code: string, made: int, now: int)
    requires var s := After(env, events, |events|); UnderWay(s, user) == {}
    requires DigestOf(env, code).Ok? && now < made + 120000
    requires forall l :: l in After(env, events, |events|).links ==> l.digest != DigestOf(env, code).value
    ensures var s := After(env, events, |events|);
      var t := Step(env, Step(env, s, Retire(user, code, made)), Insert(|s.mints|, now));
      && Unspent(t, user) == {|s.links|} && UnderWay(t, user) == {}
      && Serves(t, Step(env, t, Spend(code, SignIn, now)), |s.links|)
  {
    hide Hash, After;
    var s := After(env, events, |events|);
    var r := Step(env, s, Retire(user, code, made));
    var t := Step(env, r, Insert(|s.mints|, now));
    assert forall i :: 0 <= i < |r.links| ==> r.links[i].digest == s.links[i].digest && s.links[i] in s.links;
    assert t.links == r.links + [Link(|s.mints|, user, DigestOf(env, code).value, Expiry(made), false)];
  }
}

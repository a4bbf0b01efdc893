/**
 The guarded client of the UI kit: the first write on a read-only client starts a promotion,
 and every write that arrives before it has settled waits for that same promotion.

 A write, and a promotion body, run in pieces between awaits.  The scheduler and the answers
 of wallet, `reinitialize`, callback and upgrade check are adversarial: a run is any sequence
 of the labels below.
 */
module GuardedClient {
  import opened Wrappers

  // ---------------------------------------------------------------- data

  /** `id` tells client instances apart; the base client is number zero. */
  datatype Client = Client(id: nat, readMode: bool)

  /** `promoted` says that the body replaced the client. */
  datatype Body = AwaitWallet | AwaitReinit | Settled(ok: bool, promoted: bool) | Finished(ok: bool, promoted: bool)

  datatype Write =
    | Idle
    | Waiting(on: nat)
    | Checking(awaited: Option<nat>)
    | Called(awaited: Option<nat>, client: Client)
    | Rejected(awaited: Option<nat>)

  /** What `localStorage` holds when a promotion starts. */
  datatype Wallet = Missing | Malformed | Present
  datatype Reinit = ReinitFails | CallbackThrows | Succeeds

  datatype State = State(
    client: Client, promoting: Option<nat>, bodies: seq<Body>, writes: seq<Write>, replacements: nat)

  datatype Label =
    | Begin(w: nat, wallet: Wallet)
    | WalletAnswers(p: nat, connected: bool)
    | ReinitAnswers(p: nat, answer: Reinit)
    | Finally(p: nat)
    | Resume(w: nat)
    | CheckAnswers(w: nat, upgraded: bool)

  /** `signerReadOnly`: the signer handed to `reinitialize` is a bare account. */
  datatype Config = Config(baseReadMode: bool, signerReadOnly: bool, writes: nat)

  // ---------------------------------------------------------------- steps

  function Start(cfg: Config): State {
    State(Client(0, cfg.baseReadMode), None, [], seq(cfg.writes, _ => Idle), 0)
  }

  predicate Enabled(s: State, l: Label) {
    match l
    case Begin(w, _) => w < |s.writes| && s.writes[w].Idle?
    case WalletAnswers(p, _) => p < |s.bodies| && s.bodies[p].AwaitWallet?
    case ReinitAnswers(p, _) => p < |s.bodies| && s.bodies[p].AwaitReinit?
    case Finally(p) => p < |s.bodies| && s.bodies[p].Settled?
    case Resume(w) =>
      && w < |s.writes| && s.writes[w].Waiting?
      && s.writes[w].on < |s.bodies| && s.bodies[s.writes[w].on].Finished?
    case CheckAnswers(w, _) => w < |s.writes| && s.writes[w].Checking?
  }

  /** How far a promotion body gets before its first await. */
  function FirstStretch(wallet: Wallet): Body {
    match wallet
    case Missing => Settled(true, false)
    case Malformed => Settled(false, false)
    case Present => AwaitWallet
  }

  function Step(cfg: Config, s: State, l: Label): State
    requires Enabled(s, l)
  {
    match l
    case Begin(w, wallet) =>
      if !s.client.readMode then s.(writes := s.writes[w := Checking(None)])
      else if s.promoting.Some? then s.(writes := s.writes[w := Waiting(s.promoting.value)])
      else
        var p := |s.bodies|;
        s.(bodies := s.bodies + [FirstStretch(wallet)], promoting := Some(p), writes := s.writes[w := Waiting(p)])
    case WalletAnswers(p, connected) =>
      s.(bodies := s.bodies[p := if connected then AwaitReinit else Settled(false, false)])
    case ReinitAnswers(p, answer) =>
      if answer.Succeeds? then
        s.(bodies := s.bodies[p := Settled(true, true)],
           client := Client(s.client.id + 1, cfg.signerReadOnly),
           replacements := s.replacements + 1)
      else s.(bodies := s.bodies[p := Settled(false, false)])
    case Finally(p) =>
      s.(bodies := s.bodies[p := Finished(s.bodies[p].ok, s.bodies[p].promoted)], promoting := None)
    case Resume(w) =>
      var p := s.writes[w].on;
      s.(writes := s.writes[w := if s.bodies[p].ok then Checking(Some(p)) else Rejected(Some(p))])
    case CheckAnswers(w, upgraded) =>
      var a := s.writes[w].awaited;
      s.(writes := s.writes[w := if upgraded then Called(a, s.client) else Rejected(a)])
  }

  // ---------------------------------------------------------------- runs

  /** The adversary may name any label; one that is not enabled changes nothing. */
  function Run(cfg: Config, ls: seq<Label>): State {
    if ls == [] then Start(cfg)
    else
      var s := Run(cfg, ls[..|ls| - 1]);
      if Enabled(s, ls[|ls| - 1]) then Step(cfg, s, ls[|ls| - 1]) else s
  }

  // ---------------------------------------------------------------- the invariant

  /** Only the promotion `promoting` refers to, the latest one, is still under way. */
  predicate SingleFlight(s: State) {
    && (s.promoting.Some? ==> s.promoting.value == |s.bodies| - 1)
    && (forall p :: 0 <= p < |s.bodies| ==> (s.bodies[p].Finished? <==> s.promoting != Some(p)))
  }

  predicate Promoted(b: Body) {
    (b.Settled? || b.Finished?) && b.promoted
  }

  /** A promotion that replaced the client succeeded, and some promotion did if the client changed. */
  predicate ClientOk(cfg: Config, s: State) {
    && s.client.id == s.replacements
    && (forall p :: 0 <= p < |s.bodies| && Promoted(s.bodies[p]) ==> s.bodies[p].ok && s.replacements > 0)
    && s.client.readMode == (if s.replacements == 0 then cfg.baseReadMode else cfg.signerReadOnly)
    && (s.bodies != [] || s.replacements > 0 ==> cfg.baseReadMode)
    && (!cfg.signerReadOnly ==> s.replacements <= 1)
    && (!cfg.signerReadOnly && s.replacements == 1 ==>
          forall p :: 0 <= p < |s.bodies| ==> !s.bodies[p].AwaitWallet? && !s.bodies[p].AwaitReinit?)
  }

  /** Every write that got past a promotion awaited one that had settled well before. */
  predicate WriteOk(cfg: Config, s: State, w: Write) {
    match w
    case Idle => true
    case Waiting(p) => p < |s.bodies|
    case Checking(None) => !cfg.baseReadMode || s.replacements > 0
    case Checking(Some(p)) => p < |s.bodies| && s.bodies[p].Finished? && s.bodies[p].ok
    case Called(None, c) => !cfg.signerReadOnly ==> !c.readMode
    case Called(Some(p), c) =>
      && p < |s.bodies| && s.bodies[p].Finished? && s.bodies[p].ok
      && c.id <= s.client.id
      && c.readMode == (if c.id == 0 then cfg.baseReadMode else cfg.signerReadOnly)
      && (s.bodies[p].promoted ==> c.id > 0)
    case Rejected(_) => true
  }

  predicate Inv(cfg: Config, s: State) {
    && SingleFlight(s)
    && ClientOk(cfg, s)
    && forall w :: 0 <= w < |s.writes| ==> WriteOk(cfg, s, s.writes[w])
  }

  lemma StepInv(cfg: Config, s: State, l: Label)
    requires Inv(cfg, s) && Enabled(s, l)
    ensures Inv(cfg, Step(cfg, s, l))
    ensures !cfg.signerReadOnly && !s.client.readMode ==> !Step(cfg, s, l).client.readMode
  {
    var t := Step(cfg, s, l);
    StepClient(cfg, s, l);
    forall w | 0 <= w < |t.writes| ensures WriteOk(cfg, t, t.writes[w]) {
      StepWrite(cfg, s, l, w);
    }
  }

  lemma StepWrite(cfg: Config, s: State, l: Label, w: nat)
    requires Inv(cfg, s) && Enabled(s, l) && w < |s.writes|
    ensures WriteOk(cfg, Step(cfg, s, l), Step(cfg, s, l).writes[w])
  {
    assert WriteOk(cfg, s, s.writes[w]);
    if OfWrite(l) == Some(w) {
      OwnWrite(cfg, s, l, w);
    } else {
      OtherWrite(cfg, s, l, s.writes[w]);
    }
  }

  /** The write a label belongs to. */
  function OfWrite(l: Label): Option<nat> {
    match l
    case Begin(w, _) => Some(w)
    case Resume(w) => Some(w)
    case CheckAnswers(w, _) => Some(w)
    case _ => None
  }

  lemma OwnWrite(cfg: Config, s: State, l: Label, w: nat)
    requires Inv(cfg, s) && Enabled(s, l) && w < |s.writes| && OfWrite(l) == Some(w)
    requires WriteOk(cfg, s, s.writes[w])
    ensures WriteOk(cfg, Step(cfg, s, l), Step(cfg, s, l).writes[w])
  {
  }

  /** A step never takes back what a write relied on. */
  lemma OtherWrite(cfg: Config, s: State, l: Label, w: Write)
    requires SingleFlight(s) && ClientOk(cfg, s) && Enabled(s, l) && WriteOk(cfg, s, w)
    ensures WriteOk(cfg, Step(cfg, s, l), w)
  {
  }

  lemma StepClient(cfg: Config, s: State, l: Label)
    requires Inv(cfg, s) && Enabled(s, l)
    ensures SingleFlight(Step(cfg, s, l)) && ClientOk(cfg, Step(cfg, s, l))
  {
  }

  lemma {:induction false} RunInv(cfg: Config, ls: seq<Label>)
    ensures Inv(cfg, Run(cfg, ls))
  {
    if ls != [] {
      RunInv(cfg, ls[..|ls| - 1]);
      var s := Run(cfg, ls[..|ls| - 1]);
      if Enabled(s, ls[|ls| - 1]) {
        StepInv(cfg, s, ls[|ls| - 1]);
      }
    }
  }

  // ---------------------------------------------------------------- the class

  /** A promotion that has failed, whether its `finally` has run or not. */
  predicate Fails(b: Body) {
    (b.Settled? || b.Finished?) && !b.ok && !b.promoted
  }

  predicate OneAtATime(bodies: seq<Body>) {
    forall p, q :: 0 <= p < |bodies| && 0 <= q < |bodies| && !bodies[p].Finished? && !bodies[q].Finished? ==> p == q
  }

  class Guard {
    const cfg: Config
    var client: Client
    var promoting: Option<nat>
    var bodies: seq<Body>
    var writes: seq<Write>
    var replacements: nat

    function Now(): State
      reads this
    {
      State(client, promoting, bodies, writes, replacements)
    }

    predicate Valid()
      reads this
    {
      Inv(cfg, Now())
    }

    constructor (cfg: Config)
      ensures this.cfg == cfg && Now() == Start(cfg) && Valid()
    {
      this.cfg := cfg;
      client, promoting, bodies := Client(0, cfg.baseReadMode), None, [];
      writes, replacements := seq(cfg.writes, _ => Idle), 0;
    }

    /** `promoteIfNeeded` up to its await: a write joins the promotion under way, if there is one. */
    method BeginWrite(w: nat, wallet: Wallet)
      requires Valid() && Enabled(Now(), Begin(w, wallet))
      modifies this
      ensures Valid() && Now() == Step(cfg, old(Now()), Begin(w, wallet))
      ensures OneAtATime(bodies)
      ensures old(promoting).Some? ==> bodies == old(bodies)
    {
      StepInv(cfg, Now(), Begin(w, wallet));
      if !client.readMode {
        writes := writes[w := Checking(None)];
        return;
      }
      if promoting.None? {
        promoting := Some(|bodies|);
        bodies := bodies + [FirstStretch(wallet)];
      }
      writes := writes[w := Waiting(promoting.value)];
    }

    /** The body after the wallet dialog. */
    method OnWallet(p: nat, connected: bool)
      requires Valid() && Enabled(Now(), WalletAnswers(p, connected))
      modifies this
      ensures Valid() && Now() == Step(cfg, old(Now()), WalletAnswers(p, connected))
      ensures OneAtATime(bodies) && client == old(client)
      ensures if connected then bodies[p] == AwaitReinit else Fails(bodies[p])
    {
      StepInv(cfg, Now(), WalletAnswers(p, connected));
      bodies := bodies[p := if connected then AwaitReinit else Settled(false, false)];
    }

    /**
     The body after `reinitialize`: the callback runs before the client is replaced. With a real
     signer the client is then promoted, for the first time.
     */
    method OnReinit(p: nat, answer: Reinit)
      requires Valid() && Enabled(Now(), ReinitAnswers(p, answer))
      modifies this
      ensures Valid() && Now() == Step(cfg, old(Now()), ReinitAnswers(p, answer))
      ensures !answer.Succeeds? ==> client == old(client) && Fails(bodies[p])
      ensures answer.Succeeds? && !cfg.signerReadOnly ==> !client.readMode && replacements == 1
      ensures !cfg.signerReadOnly && !old(client).readMode ==> !client.readMode
    {
      StepInv(cfg, Now(), ReinitAnswers(p, answer));
      if answer.Succeeds? {
        client := Client(client.id + 1, cfg.signerReadOnly);
        replacements := replacements + 1;
        bodies := bodies[p := Settled(true, true)];
      } else {
        bodies := bodies[p := Settled(false, false)];
      }
    }

    /** No promotion is left under way, so the next write may start one. */
    method OnFinally(p: nat)
      requires Valid() && Enabled(Now(), Finally(p))
      modifies this
      ensures Valid() && Now() == Step(cfg, old(Now()), Finally(p))
      ensures forall q :: 0 <= q < |bodies| ==> bodies[q].Finished?
    {
      StepInv(cfg, Now(), Finally(p));
      promoting := None;
      bodies := bodies[p := Finished(bodies[p].ok, bodies[p].promoted)];
    }

    /** A write whose awaited promotion has settled: it goes on only if that succeeded. */
    method OnResume(w: nat)
      requires Valid() && Enabled(Now(), Resume(w))
      modifies this
      ensures Valid() && Now() == Step(cfg, old(Now()), Resume(w))
      ensures writes[w].Rejected? <==> !bodies[old(writes)[w].on].ok
    {
      StepInv(cfg, Now(), Resume(w));
      var p := writes[w].on;
      writes := writes[w := if bodies[p].ok then Checking(Some(p)) else Rejected(Some(p))];
    }

    /**
     After the upgrade check the underlying function is taken from the current client: with a
     real signer a promoted one, unless the awaited promotion found no wallet.
     */
    method OnCheck(w: nat, upgraded: bool)
      requires Valid() && Enabled(Now(), CheckAnswers(w, upgraded))
      modifies this
      ensures Valid() && Now() == Step(cfg, old(Now()), CheckAnswers(w, upgraded))
      ensures writes[w].Called? <==> upgraded
      ensures upgraded ==> writes[w].client == client == old(client) && writes[w].awaited == old(writes)[w].awaited
      ensures !upgraded ==> writes[w].Rejected?
      ensures writes[w].Called? && writes[w].client.readMode && !cfg.signerReadOnly ==>
                writes[w].awaited.Some? && writes[w].awaited.value < |bodies| && !bodies[writes[w].awaited.value].promoted
    {
      StepInv(cfg, Now(), CheckAnswers(w, upgraded));
      assert WriteOk(cfg, Now(), writes[w]);
      var awaited := writes[w].awaited;
      writes := writes[w := if upgraded then Called(awaited, client) else Rejected(awaited)];
    }
  }

  /** The event loop: a schedule played on the object is a run. */
  method Play(cfg: Config, ls: seq<Label>) returns (g: Guard)
    ensures fresh(g) && g.cfg == cfg && g.Valid() && g.Now() == Run(cfg, ls)
  {
    g := new Guard(cfg);
    for n := 0 to |ls|
      invariant fresh(g) && g.cfg == cfg && g.Valid() && g.Now() == Run(cfg, ls[..n])
    {
      assert ls[..n + 1][..n] == ls[..n];
      if Enabled(g.Now(), ls[n]) {
        match ls[n]
        case Begin(w, wallet) => g.BeginWrite(w, wallet);
        case WalletAnswers(p, connected) => g.OnWallet(p, connected);
        case ReinitAnswers(p, answer) => g.OnReinit(p, answer);
        case Finally(p) => g.OnFinally(p);
        case Resume(w) => g.OnResume(w);
        case CheckAnswers(w, upgraded) => g.OnCheck(w, upgraded);
      }
    }
    assert ls[..|ls|] == ls;
  }

  // ---------------------------------------------------------------- what every run keeps

  /** At most one promotion is under way, and every waiting write waits for a started one. */
  lemma OnePromotionAtATime(cfg: Config, ls: seq<Label>)
    ensures
      var s := Run(cfg, ls);
      && OneAtATime(s.bodies)
      && (forall w :: 0 <= w < |s.writes| && s.writes[w].Waiting? ==> s.writes[w].on < |s.bodies|)
  {
    RunInv(cfg, ls);
    var s := Run(cfg, ls);
    forall w | 0 <= w < |s.writes| && s.writes[w].Waiting? ensures s.writes[w].on < |s.bodies| {
      assert WriteOk(cfg, s, s.writes[w]);
    }
  }

  /** With a real signer the client is replaced at most once and never read-only again. */
  lemma PromotedOnce(cfg: Config, ls: seq<Label>, l: Label)
    requires !cfg.signerReadOnly
    ensures Run(cfg, ls).replacements <= 1
    ensures Run(cfg, ls).replacements == 1 ==> !Run(cfg, ls).client.readMode
    ensures !Run(cfg, ls).client.readMode ==> !Run(cfg, ls + [l]).client.readMode
  {
    RunInv(cfg, ls);
    assert (ls + [l])[..|ls|] == ls;
    if Enabled(Run(cfg, ls), l) {
      StepInv(cfg, Run(cfg, ls), l);
    }
  }

  /**
   No write whose awaited promotion failed reaches the underlying function; one whose awaited
   promotion replaced the client uses a replaced client, which with a real signer is the
   promoted one; and a read-only client is reached only after a promotion that found no wallet.
   */
  lemma WritesUsePromotedClient(cfg: Config, ls: seq<Label>, w: nat)
    requires w < |Run(cfg, ls).writes| && Run(cfg, ls).writes[w].Called?
    ensures
      var s := Run(cfg, ls);
      var call := s.writes[w];
      match call.awaited
      case None => !cfg.signerReadOnly ==> !call.client.readMode
      case Some(p) =>
        && p < |s.bodies| && s.bodies[p].Finished? && s.bodies[p].ok
        && (s.bodies[p].promoted ==> call.client.id > 0)
        && (s.bodies[p].promoted && !cfg.signerReadOnly ==> call.client == s.client && !call.client.readMode)
        && (call.client.readMode && !cfg.signerReadOnly ==> !s.bodies[p].promoted)
  {
    RunInv(cfg, ls);
    var s := Run(cfg, ls);
    assert WriteOk(cfg, s, s.writes[w]);
  }

  // ---------------------------------------------------------------- promotions that fail

  /** In state `s` the label makes promotion `p` fail: a malformed record, a refusal, or an error. */
  predicate MakesFail(s: State, l: Label, p: nat) {
    match l
    case Begin(_, wallet) => wallet == Malformed && s.client.readMode && s.promoting.None? && p == |s.bodies|
    case WalletAnswers(q, connected) => q == p && !connected
    case ReinitAnswers(q, answer) => q == p && answer != Succeeds
    case _ => false
  }

  /** In state `s` the label starts promotion `p` without a wallet on record. */
  predicate FindsNoWallet(s: State, l: Label, p: nat) {
    l.Begin? && l.wallet == Missing && s.client.readMode && s.promoting.None? && p == |s.bodies|
  }

  predicate SettledAs(s: State, p: nat, ok: bool) {
    p < |s.bodies| && (s.bodies[p].Settled? || s.bodies[p].Finished?) && s.bodies[p].ok == ok && !s.bodies[p].promoted
  }

  /** What has settled without promoting stays so. */
  lemma StepKeepsSettled(cfg: Config, s: State, l: Label, p: nat, ok: bool)
    requires Enabled(s, l) && SettledAs(s, p, ok)
    ensures SettledAs(Step(cfg, s, l), p, ok)
  {
  }

  lemma {:induction false} RunKeepsSettled(cfg: Config, ls: seq<Label>, n: nat, p: nat, ok: bool)
    requires n <= |ls| && SettledAs(Run(cfg, ls[..n]), p, ok)
    ensures SettledAs(Run(cfg, ls), p, ok)
    decreases |ls|
  {
    if n == |ls| {
      assert ls[..n] == ls;
    } else {
      var front := ls[..|ls| - 1];
      assert front[..n] == ls[..n];
      RunKeepsSettled(cfg, front, n, p, ok);
      var s := Run(cfg, front);
      if Enabled(s, ls[|ls| - 1]) {
        StepKeepsSettled(cfg, s, ls[|ls| - 1], p, ok);
      }
    }
  }

  /**
   A promotion that was refused or threw, at whatever point of whatever run: it never replaces
   the client, then or later, and a write that waits for it is still waiting or is rejected. It
   has not gone on to the upgrade check, and the underlying function has not been called.
   */
  lemma FailedPromotionStops(cfg: Config, ls: seq<Label>, n: nat, p: nat)
    requires n < |ls| && Enabled(Run(cfg, ls[..n]), ls[n]) && MakesFail(Run(cfg, ls[..n]), ls[n], p)
    ensures Run(cfg, ls[..n + 1]).client == Run(cfg, ls[..n]).client
    ensures SettledAs(Run(cfg, ls), p, false)
    ensures forall answer :: !Enabled(Run(cfg, ls), ReinitAnswers(p, answer))
    ensures forall w :: 0 <= w < |Run(cfg, ls).writes| && Awaits(Run(cfg, ls).writes[w], p) ==>
              Run(cfg, ls).writes[w].Waiting? || Run(cfg, ls).writes[w].Rejected?
  {
    assert ls[..n + 1][..n] == ls[..n];
    assert Run(cfg, ls[..n + 1]) == Step(cfg, Run(cfg, ls[..n]), ls[n]);
    RunKeepsSettled(cfg, ls, n + 1, p, false);
    RunInv(cfg, ls);
    var s := Run(cfg, ls);
    forall w | 0 <= w < |s.writes| && Awaits(s.writes[w], p) ensures s.writes[w].Waiting? || s.writes[w].Rejected? {
      assert WriteOk(cfg, s, s.writes[w]);
    }
  }

  /** The write waits, or has waited, for promotion `p`. */
  predicate Awaits(w: Write, p: nat) {
    match w
    case Idle => false
    case Waiting(on) => on == p
    case Checking(awaited) => awaited == Some(p)
    case Called(awaited, _) => awaited == Some(p)
    case Rejected(awaited) => awaited == Some(p)
  }

  /**
   The upgrade check decides: refused, the write is rejected for good; passed, its function is
   taken from the client of that moment, for good.
   */
  lemma CheckDecides(cfg: Config, ls: seq<Label>, n: nat, w: nat, upgraded: bool)
    requires n < |ls| && ls[n] == CheckAnswers(w, upgraded) && Enabled(Run(cfg, ls[..n]), ls[n])
    ensures w < |Run(cfg, ls).writes|
    ensures !upgraded ==> Run(cfg, ls).writes[w].Rejected?
    ensures upgraded ==> Run(cfg, ls).writes[w].Called? && Run(cfg, ls).writes[w].client == Run(cfg, ls[..n]).client
  {
    assert ls[..n + 1][..n] == ls[..n];
    assert Run(cfg, ls[..n + 1]) == Step(cfg, Run(cfg, ls[..n]), ls[n]);
    RunKeepsWrite(cfg, ls, n + 1, w);
  }

  lemma {:induction false} RunKeepsWrite(cfg: Config, ls: seq<Label>, n: nat, w: nat)
    requires n <= |ls| && w < |Run(cfg, ls[..n]).writes|
    requires Run(cfg, ls[..n]).writes[w].Called? || Run(cfg, ls[..n]).writes[w].Rejected?
    ensures w < |Run(cfg, ls).writes| && Run(cfg, ls).writes[w] == Run(cfg, ls[..n]).writes[w]
    decreases |ls|
  {
    if n == |ls| {
      assert ls[..n] == ls;
    } else {
      var front := ls[..|ls| - 1];
      assert front[..n] == ls[..n];
      RunKeepsWrite(cfg, front, n, w);
    }
  }

  /** Without a wallet on record the promotion settles well and leaves the client as it is. */
  lemma NoWalletLeavesClient(cfg: Config, ls: seq<Label>, n: nat, p: nat)
    requires n < |ls| && Enabled(Run(cfg, ls[..n]), ls[n]) && FindsNoWallet(Run(cfg, ls[..n]), ls[n], p)
    ensures Run(cfg, ls[..n + 1]).client == Run(cfg, ls[..n]).client
    ensures SettledAs(Run(cfg, ls), p, true)
    ensures forall answer :: !Enabled(Run(cfg, ls), ReinitAnswers(p, answer))
  {
    assert ls[..n + 1][..n] == ls[..n];
    assert Run(cfg, ls[..n + 1]) == Step(cfg, Run(cfg, ls[..n]), ls[n]);
    RunKeepsSettled(cfg, ls, n + 1, p, true);
  }

  /**
   The client changes in one step only: a `reinitialize` that succeeds, of a promotion whose
   wallet connected. A write gets that far only if the client is read-only when it begins.
   */
  lemma ClientChangesIff(cfg: Config, ls: seq<Label>, l: Label)
    requires Enabled(Run(cfg, ls), l)
    ensures
      var s, t := Run(cfg, ls), Run(cfg, ls + [l]);
      && (t.client != s.client <==> l.ReinitAnswers? && l.answer == Succeeds)
      && (t.client != s.client ==> t.client == Client(s.client.id + 1, cfg.signerReadOnly))
      && (|t.bodies| > |s.bodies| <==> l.Begin? && s.client.readMode && s.promoting.None?)
  {
    RunConcat(cfg, ls, l);
  }

  /** A promotion awaits `reinitialize` exactly when, of its answers so far, the wallet's connected. */
  lemma AwaitsReinitIff(cfg: Config, ls: seq<Label>, l: Label, p: nat)
    requires Enabled(Run(cfg, ls), l) && p < |Run(cfg, ls + [l]).bodies|
    ensures
      var s, t := Run(cfg, ls), Run(cfg, ls + [l]);
      t.bodies[p].AwaitReinit? <==>
      || (p < |s.bodies| && s.bodies[p].AwaitReinit? && !(l.ReinitAnswers? && l.p == p))
      || l == WalletAnswers(p, true)
  {
    RunConcat(cfg, ls, l);
  }

  /**
   The condition: over every run the client is replaced at most once exactly when the base
   client needs no promotion or the signer is not a bare account.
   */
  lemma ReplacedAtMostOnceIff(cfg: Config)
    requires cfg.writes >= 2
    ensures (forall ls :: Run(cfg, ls).replacements <= 1) <==> !cfg.baseReadMode || !cfg.signerReadOnly
  {
    if !cfg.signerReadOnly || !cfg.baseReadMode {
      forall ls ensures Run(cfg, ls).replacements <= 1 {
        RunInv(cfg, ls);
        if !cfg.baseReadMode {
          NeverPromoted(cfg, ls);
        }
      }
    } else {
      ReplacedTwice(cfg);
    }
  }

  lemma {:induction false} NeverPromoted(cfg: Config, ls: seq<Label>)
    requires !cfg.baseReadMode
    ensures Run(cfg, ls).replacements == 0 && Run(cfg, ls).bodies == []
  {
    if ls != [] {
      NeverPromoted(cfg, ls[..|ls| - 1]);
      RunInv(cfg, ls[..|ls| - 1]);
    }
  }

  /** One promotion from start to end: the labels of a write that finds a wallet. */
  function FullPromotion(w: nat, p: nat): seq<Label> {
    [Begin(w, Present), WalletAnswers(p, true), ReinitAnswers(p, Succeeds), Finally(p)]
  }

  lemma RunConcat(cfg: Config, ls: seq<Label>, l: Label)
    ensures Run(cfg, ls + [l]) ==
            if Enabled(Run(cfg, ls), l) then Step(cfg, Run(cfg, ls), l) else Run(cfg, ls)
  {
    assert (ls + [l])[..|ls|] == ls;
  }

  lemma PromotionReplaces(cfg: Config, ls: seq<Label>, w: nat)
    requires Run(cfg, ls).client.readMode && Run(cfg, ls).promoting.None?
    requires w < |Run(cfg, ls).writes| && Run(cfg, ls).writes[w].Idle?
    ensures
      var s, t := Run(cfg, ls), Run(cfg, ls + FullPromotion(w, |Run(cfg, ls).bodies|));
      && t.replacements == s.replacements + 1
      && t.client.readMode == cfg.signerReadOnly && t.promoting.None?
      && t.writes == s.writes[w := Waiting(|s.bodies|)]
  {
    var p := |Run(cfg, ls).bodies|;
    var l1 := ls + [Begin(w, Present)];
    var l2 := l1 + [WalletAnswers(p, true)];
    var l3 := l2 + [ReinitAnswers(p, Succeeds)];
    RunConcat(cfg, ls, Begin(w, Present));
    RunConcat(cfg, l1, WalletAnswers(p, true));
    RunConcat(cfg, l2, ReinitAnswers(p, Succeeds));
    RunConcat(cfg, l3, Finally(p));
    assert ls + FullPromotion(w, p) == l3 + [Finally(p)];
  }

  lemma ReplacedTwice(cfg: Config)
    requires cfg.baseReadMode && cfg.signerReadOnly && cfg.writes >= 2
    ensures exists ls :: Run(cfg, ls).replacements == 2
  {
    var ls := [] + FullPromotion(0, 0);
    PromotionReplaces(cfg, [], 0);
    PromotionReplaces(cfg, ls, 1);
    var p := |Run(cfg, ls).bodies|;
    assert Run(cfg, ls + FullPromotion(1, p)).replacements == 2;
  }
}

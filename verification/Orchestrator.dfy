/**
 The re-entrant executor: `Orchestrator.execute`, the `send` of a cascade builder, and the
 route-aware event boundary `fireProgressHook`.

 What a route handler does between two calls of `execute` is not modelled; it is an
 arbitrary script that fires events, marks the route terminal, re-enters `execute`, catches
 or rethrows what the re-entered call throws, and returns or throws.  Every theorem below is
 about all such scripts.
 */
module Orchestrator {
  import opened Wrappers

  // ---------------------------------------------------------------- data

  /** The identity of a user-supplied progress callback. */
  type HookId = nat

  datatype Route = UOA_TO_PUSH | UOA_TO_CEA | CEA_TO_PUSH | CEA_TO_CEA

  /** Event ids: the ones `fireProgressHook` suppresses outside Route 1, and the others. */
  datatype EventId =
    | RouteOne(n: nat)
    | SendTx199_02
    | SendTx299_02
    | SendTx399_02
    | Other(n: nat)

  /** The closures `this.progressHook` may hold. */
  datatype Hook =
    | User(id: HookId)
    | PerCall(base: Option<Hook>, p: HookId)  // wrapper of `execute`, tagged with `p`
    | Fanout(base: Option<Hook>, p: HookId)   // wrapper of a cascade `send`, not tagged
    | Buffering(base: Option<Hook>)           // Route 1 frame: records, then forwards

  datatype Target = Address | ChainTarget(push: bool)
  datatype Params = Params(to: Target, fromChain: bool)

  /** One call of `execute`; `upgrade` are the events of the lazy UEA upgrade. */
  datatype Call = Call(params: Params, perCall: Option<HookId>, upgrade: seq<EventId>, steps: seq<Step>)

  datatype Step =
    | Fire(e: EventId)
    | MarkTerminal
    | Throw
    | Reenter(call: Call, onThrow: seq<Step>, rethrow: bool)

  datatype Exit = Returned | Threw

  /** The three fields of the orchestrator that `execute` assigns. */
  datatype Ctx = Ctx(route: Option<Route>, hook: Option<Hook>, terminal: bool)

  /** What an observer of a run can see, in order. */
  datatype Entry =
    | Entered(active: Route)
    | Upgraded(e: EventId, to: seq<HookId>)
    | Fired(e: EventId, byCatch: bool, route: Option<Route>, delivered: Option<seq<HookId>>)
    | Replayed(e: EventId, to: seq<HookId>)

  datatype Run = Run(exit: Exit, ctx: Ctx, trace: seq<Entry>)

  // ---------------------------------------------------------------- routes and events

  function DetectRoute(p: Params): Route {
    var external := p.to.ChainTarget? && !p.to.push;
    if !p.fromChain then (if external then UOA_TO_CEA else UOA_TO_PUSH)
    else if external then CEA_TO_CEA else CEA_TO_PUSH
  }

  predicate IsMultiChain(p: Params) {
    p.to.ChainTarget? || p.fromChain
  }

  /** The route a frame runs under: an outer non-R1 route is not downgraded to R1. */
  function ActiveRoute(outer: Option<Route>, detected: Route): Route {
    if outer.Some? && outer.value != UOA_TO_PUSH && detected == UOA_TO_PUSH then outer.value else detected
  }

  predicate Suppressed(route: Option<Route>, e: EventId) {
    && route.Some? && route.value != UOA_TO_PUSH
    && (e.RouteOne? || e.SendTx199_02?)
  }

  function TerminalId(route: Option<Route>): EventId {
    match route
    case Some(CEA_TO_PUSH) => SendTx399_02
    case Some(UOA_TO_CEA) => SendTx299_02
    case _ => SendTx199_02
  }

  /** The callbacks one event reaches through a hook, in the order they are called. */
  function Deliver(h: Option<Hook>): seq<HookId> {
    match h
    case None => []
    case Some(User(id)) => [id]
    case Some(PerCall(base, p)) => (if base == Some(User(p)) then [] else Deliver(base)) + [p]
    case Some(Fanout(base, p)) => (if base == Some(User(p)) then [] else Deliver(base)) + [p]
    case Some(Buffering(base)) => Deliver(base)
  }

  predicate ShouldWrap(current: Option<Hook>, perCall: Option<HookId>) {
    && perCall.Some?
    && current != Some(User(perCall.value))
    && !(current.Some? && current.value.PerCall? && current.value.p == perCall.value)
  }

  function Install(current: Option<Hook>, perCall: Option<HookId>): Option<Hook> {
    if ShouldWrap(current, perCall) then Some(PerCall(current, perCall.value)) else current
  }

  /** `fireProgressHook`: silent for a Route 1 id under another route. */
  function FireEntry(c: Ctx, e: EventId, byCatch: bool): Entry {
    Fired(e, byCatch, c.route, if Suppressed(c.route, e) then None else Some(Deliver(c.hook)))
  }

  function UpgradeEntries(hook: Option<Hook>, es: seq<EventId>): (r: seq<Entry>)
    ensures |r| == |es|
    ensures forall i :: 0 <= i < |r| ==> r[i] == Upgraded(es[i], Deliver(hook))
  {
    if es == [] then [] else [Upgraded(es[0], Deliver(hook))] + UpgradeEntries(hook, es[1..])
  }

  // ---------------------------------------------------------------- semantics

  /** The state a frame's route handler starts in. */
  function Inner(call: Call, c: Ctx): Ctx {
    var hook := Install(c.hook, call.perCall);
    Ctx(Some(ActiveRoute(c.route, DetectRoute(call.params))),
        if IsMultiChain(call.params) then hook else Some(Buffering(hook)),
        false)
  }

  /** What a frame shows before its route handler runs. */
  function Opening(call: Call, c: Ctx): seq<Entry> {
    [Entered(ActiveRoute(c.route, DetectRoute(call.params)))] +
    UpgradeEntries(Install(c.hook, call.perCall), call.upgrade)
  }

  /** What a frame's catch block shows, given how its route handler ended. */
  function Closing(body: Run, outer: Ctx): seq<Entry> {
    if body.exit.Threw? && outer.route.None? && !body.ctx.terminal
    then [FireEntry(body.ctx, TerminalId(body.ctx.route), true)] else []
  }

  function RunCall(call: Call, c: Ctx): Run
    decreases call, 1
  {
    var body := RunSteps(call.steps, Inner(call, c));
    var restored :=
      if ShouldWrap(c.hook, call.perCall) then c.hook
      else if IsMultiChain(call.params) then body.ctx.hook
      else Install(c.hook, call.perCall);
    Run(body.exit, Ctx(c.route, restored, body.ctx.terminal),
        Opening(call, c) + body.trace + Closing(body, c))
  }

  function RunSteps(steps: seq<Step>, c: Ctx): Run
    decreases steps, 0
  {
    if steps == [] then Run(Returned, c, [])
    else
      match steps[0]
      case Fire(e) => Prepend([FireEntry(c, e, false)], RunSteps(steps[1..], c))
      case MarkTerminal => RunSteps(steps[1..], c.(terminal := true))
      case Throw => Run(Threw, c, [])
      case Reenter(call, onThrow, rethrow) =>
        var r := RunCall(call, c);
        if r.exit.Returned? then Prepend(r.trace, RunSteps(steps[1..], r.ctx))
        else
          var h := RunSteps(onThrow, r.ctx);
          if h.exit.Threw? || rethrow then Run(Threw, h.ctx, r.trace + h.trace)
          else Prepend(r.trace + h.trace, RunSteps(steps[1..], h.ctx))
  }

  function Prepend(trace: seq<Entry>, r: Run): Run {
    r.(trace := trace + r.trace)
  }

  /** The state of a new orchestrator. */
  function Fresh(init: Option<HookId>): Ctx {
    Ctx(None, if init.Some? then Some(User(init.value)) else None, false)
  }

  /**
   What `trackTransaction` comes back with: an error, or the route of the transaction, if its
   record gives one, and the events reconstructed from it.
   */
  datatype Tracked = NotFound | Found(route: Option<Route>, replayed: seq<EventId>)

  /**
   Top-level operations on one orchestrator: `execute`, the `send` of a cascade builder, and
   `trackTransaction`, which mirrors the route it finds on the context and does not restore it.
   */
  datatype Op =
    | Exec(call: Call)
    | Send(perCall: Option<HookId>, steps: seq<Step>)
    | Track(perTx: Option<HookId>, found: Tracked)

  /** Whom a reconstructed event reaches: the hook of the tracking, then that of the orchestrator. */
  function FanOut(perTx: Option<HookId>, hook: Option<Hook>): seq<HookId> {
    if perTx.None? then Deliver(hook)
    else [perTx.value] + if hook == Some(User(perTx.value)) then [] else Deliver(hook)
  }

  function ReplayEntries(to: seq<HookId>, es: seq<EventId>): (r: seq<Entry>)
    ensures |r| == |es|
    ensures forall i :: 0 <= i < |r| ==> r[i] == Replayed(es[i], to)
  {
    seq(|es|, i requires 0 <= i < |es| => Replayed(es[i], to))
  }

  function RunOp(op: Op, c: Ctx): Run {
    match op
    case Exec(call) => RunCall(call, c)
    case Send(None, steps) => RunSteps(steps, c)
    case Send(Some(p), steps) =>
      var r := RunSteps(steps, c.(hook := Some(Fanout(c.hook, p))));
      r.(ctx := r.ctx.(hook := c.hook))
    case Track(_, NotFound) => Run(Threw, c, [])
    case Track(perTx, Found(route, replayed)) =>
      Run(Returned, if route.Some? then c.(route := route) else c, ReplayEntries(FanOut(perTx, c.hook), replayed))
  }

  // ---------------------------------------------------------------- the class

  class Executor {
    var currentRoute: Option<Route>
    var progressHook: Option<Hook>
    var routeTerminalEmitted: bool
    var observed: seq<Entry>

    function State(): Ctx
      reads this
    {
      Ctx(currentRoute, progressHook, routeTerminalEmitted)
    }

    constructor (init: Option<HookId>)
      ensures State() == Fresh(init) && observed == []
    {
      currentRoute := None;
      progressHook := if init.Some? then Some(User(init.value)) else None;
      routeTerminalEmitted := false;
      observed := [];
    }

    /** `execute`: snapshot, wrap, run, emit the terminal in the outermost catch, restore. */
    method Execute(call: Call) returns (exit: Exit)
      modifies this
      ensures exit == RunCall(call, old(State())).exit
      ensures State() == RunCall(call, old(State())).ctx
      ensures observed == old(observed) + RunCall(call, old(State())).trace
      decreases call, 1
    {
      ghost var before, seen := State(), observed;
      var originalExecuteHook := progressHook;
      var previousRoute := currentRoute;
      var shouldWrap := Enter(call);
      ghost var body := RunSteps(call.steps, Inner(call, before));
      if IsMultiChain(call.params) {
        exit := RunHandler(call.steps, previousRoute.Some?);
      } else {
        var originalHook := progressHook;
        progressHook := Some(Buffering(originalHook));
        exit := RunHandler(call.steps, previousRoute.Some?);
        progressHook := originalHook;
      }
      if shouldWrap {
        progressHook := originalExecuteHook;
      }
      currentRoute := previousRoute;
      CallTrace(call, before, seen, body, observed);
    }

    /** Installs the per-call hook, picks the active route and clears the terminal flag. */
    method Enter(call: Call) returns (shouldWrap: bool)
      modifies this
      ensures shouldWrap == ShouldWrap(old(progressHook), call.perCall)
      ensures progressHook == Install(old(progressHook), call.perCall)
      ensures currentRoute == Some(ActiveRoute(old(currentRoute), DetectRoute(call.params)))
      ensures !routeTerminalEmitted
      ensures observed == old(observed) + Opening(call, old(State()))
    {
      shouldWrap := ShouldWrap(progressHook, call.perCall);
      if shouldWrap {
        progressHook := Some(PerCall(progressHook, call.perCall.value));
      }
      var previousRoute := currentRoute;
      var isRecursiveInnerCall := previousRoute.Some?;
      var detected := DetectRoute(call.params);
      var preserve := isRecursiveInnerCall && previousRoute != Some(UOA_TO_PUSH) && detected == UOA_TO_PUSH;
      currentRoute := if preserve then previousRoute else Some(detected);
      routeTerminalEmitted := false;
      observed := observed + ([Entered(currentRoute.value)] + UpgradeEntries(progressHook, call.upgrade));
    }

    /** The inner `try`: the route handler, then its catch block. */
    method RunHandler(steps: seq<Step>, isRecursiveInnerCall: bool) returns (exit: Exit)
      modifies this
      ensures exit == RunSteps(steps, old(State())).exit
      ensures State() == RunSteps(steps, old(State())).ctx
      ensures observed == old(observed) + RunSteps(steps, old(State())).trace +
                          if exit.Threw? && !isRecursiveInnerCall && !routeTerminalEmitted
                          then [FireEntry(State(), TerminalId(currentRoute), true)] else []
      decreases steps, 1
    {
      exit := RunBody(steps);
      CatchTerminal(exit, isRecursiveInnerCall);
    }

    /** The catch block: only the outermost frame emits, and only if nobody has yet. */
    method CatchTerminal(exit: Exit, isRecursiveInnerCall: bool)
      modifies this`observed
      ensures observed == old(observed) +
                          if exit.Threw? && !isRecursiveInnerCall && !routeTerminalEmitted
                          then [FireEntry(State(), TerminalId(currentRoute), true)] else []
    {
      if exit.Threw? && !isRecursiveInnerCall && !routeTerminalEmitted {
        observed := observed + [FireEntry(State(), TerminalId(currentRoute), true)];
      }
    }

    /** The script of a route handler. */
    method RunBody(steps: seq<Step>) returns (exit: Exit)
      modifies this
      ensures var r := RunSteps(steps, old(State()));
              exit == r.exit && State() == r.ctx && observed == old(observed) + r.trace
      decreases steps, 0
    {
      if steps == [] {
        return Returned;
      }
      match steps[0]
      case Fire(e) =>
        observed := observed + [FireEntry(State(), e, false)];
        exit := RunBody(steps[1..]);
      case MarkTerminal =>
        routeTerminalEmitted := true;
        exit := RunBody(steps[1..]);
      case Throw =>
        exit := Threw;
      case Reenter(call, onThrow, rethrow) =>
        exit := Execute(call);
        if exit.Threw? {
          exit := RunBody(onThrow);
          if exit.Threw? || rethrow {
            return Threw;
          }
        }
        exit := RunBody(steps[1..]);
    }

    /** The `send` of a cascade builder: fans out to the per-call hook until it settles. */
    method SendCascade(perCall: Option<HookId>, steps: seq<Step>) returns (exit: Exit)
      modifies this
      ensures exit == RunOp(Send(perCall, steps), old(State())).exit
      ensures State() == RunOp(Send(perCall, steps), old(State())).ctx
      ensures observed == old(observed) + RunOp(Send(perCall, steps), old(State())).trace
    {
      if perCall.None? {
        exit := RunBody(steps);
      } else {
        var originalHook := progressHook;
        progressHook := Some(Fanout(originalHook, perCall.value));
        exit := RunBody(steps);
        progressHook := originalHook;
      }
    }

    /** `trackTransaction`: mirrors the route it finds, leaves it there, and replays the events. */
    method TrackTransaction(perTx: Option<HookId>, found: Tracked) returns (exit: Exit)
      modifies this
      ensures exit == RunOp(Track(perTx, found), old(State())).exit
      ensures State() == RunOp(Track(perTx, found), old(State())).ctx
      ensures observed == old(observed) + RunOp(Track(perTx, found), old(State())).trace
    {
      if found.NotFound? {
        return Threw;
      }
      if found.route.Some? {
        currentRoute := found.route;
      }
      ghost var seen, entries := observed, ReplayEntries(FanOut(perTx, progressHook), found.replayed);
      for i := 0 to |found.replayed|
        invariant State() == RunOp(Track(perTx, found), old(State())).ctx
        invariant progressHook == old(progressHook)
        invariant observed == seen + entries[..i]
      {
        var reached: seq<HookId> := if perTx.Some? then [perTx.value] else [];
        if perTx.None? || progressHook != Some(User(perTx.value)) {
          reached := reached + Deliver(progressHook);
        }
        assert reached == FanOut(perTx, progressHook);
        observed := observed + [Replayed(found.replayed[i], reached)];
        assert entries[..i + 1] == entries[..i] + [entries[i]];
      }
      assert entries[..|found.replayed|] == entries;
      exit := Returned;
    }
  }

  /** Regroups what a call appended to the observation. */
  lemma CallTrace(call: Call, c: Ctx, seen: seq<Entry>, body: Run, observed: seq<Entry>)
    requires body == RunSteps(call.steps, Inner(call, c))
    requires observed == seen + Opening(call, c) + body.trace + Closing(body, c)
    ensures observed == seen + RunCall(call, c).trace
  {
  }

  // ---------------------------------------------------------------- stack discipline

  /** Whatever happens below, a call gives back the route and the hook it found. */
  lemma {:induction false} StackDiscipline(call: Call, c: Ctx)
    ensures RunCall(call, c).ctx.route == c.route
    ensures RunCall(call, c).ctx.hook == c.hook
    decreases call, 1
  {
    var inner := Inner(call, c);
    StepsKeepFrame(call.steps, inner);
  }

  lemma {:induction false} StepsKeepFrame(steps: seq<Step>, c: Ctx)
    ensures RunSteps(steps, c).ctx.route == c.route
    ensures RunSteps(steps, c).ctx.hook == c.hook
    decreases steps, 0
  {
    if steps != [] {
      match steps[0]
      case Fire(e) => StepsKeepFrame(steps[1..], c);
      case MarkTerminal => StepsKeepFrame(steps[1..], c.(terminal := true));
      case Throw =>
      case Reenter(call, onThrow, rethrow) =>
        StackDiscipline(call, c);
        var r := RunCall(call, c);
        StepsKeepFrame(onThrow, r.ctx);
        var h := RunSteps(onThrow, r.ctx);
        StepsKeepFrame(steps[1..], if r.exit.Returned? then r.ctx else h.ctx);
    }
  }

  // ---------------------------------------------------------------- what the script shows

  /** The table of routes that the source documents. */
  function DocumentedRoute(p: Params): Route {
    match (p.fromChain, p.to)
    case (false, Address) => UOA_TO_PUSH
    case (false, ChainTarget(false)) => UOA_TO_CEA
    case (false, ChainTarget(true)) => UOA_TO_PUSH
    case (true, Address) => CEA_TO_PUSH
    case (true, ChainTarget(true)) => CEA_TO_PUSH
    case (true, ChainTarget(false)) => CEA_TO_CEA
  }

  lemma RouteTable(p: Params)
    ensures DetectRoute(p) == DocumentedRoute(p)
  {
  }

  /** A frame runs under its own route, but stays on another one when its own is UOA_TO_PUSH. */
  function FrameRoute(outer: Option<Route>, p: Params): Route {
    match outer
    case None => DocumentedRoute(p)
    case Some(r) => if DocumentedRoute(p) == UOA_TO_PUSH then r else DocumentedRoute(p)
  }

  /** What a script shows, without a word about hooks: frames, upgrade events, and fired events. */
  datatype Shown = SEntered(active: Route) | SUpgraded(e: EventId) | SFired(e: EventId, route: Option<Route>)

  datatype Outline = Outline(exit: Exit, terminal: bool, shown: seq<Shown>)

  function Upgrades(es: seq<EventId>): (r: seq<Shown>)
    ensures |r| == |es| && forall i :: 0 <= i < |r| ==> r[i] == SUpgraded(es[i])
  {
    seq(|es|, i requires 0 <= i < |es| => SUpgraded(es[i]))
  }

  /** Every frame starts with the terminal flag clear; the flag it leaves is its handler's. */
  function OutlineCall(call: Call, outer: Option<Route>): Outline
    decreases call, 1
  {
    var route := FrameRoute(outer, call.params);
    var body := OutlineSteps(call.steps, Some(route), false);
    body.(shown := [SEntered(route)] + Upgrades(call.upgrade) + body.shown)
  }

  function OutlineSteps(steps: seq<Step>, route: Option<Route>, terminal: bool): Outline
    decreases steps, 0
  {
    if steps == [] then Outline(Returned, terminal, [])
    else
      match steps[0]
      case Fire(e) =>
        var rest := OutlineSteps(steps[1..], route, terminal);
        rest.(shown := [SFired(e, route)] + rest.shown)
      case MarkTerminal => OutlineSteps(steps[1..], route, true)
      case Throw => Outline(Threw, terminal, [])
      case Reenter(call, onThrow, rethrow) =>
        var r := OutlineCall(call, route);
        if r.exit.Returned? then
          var rest := OutlineSteps(steps[1..], route, r.terminal);
          rest.(shown := r.shown + rest.shown)
        else
          var h := OutlineSteps(onThrow, route, r.terminal);
          if h.exit.Threw? || rethrow then Outline(Threw, h.terminal, r.shown + h.shown)
          else
            var rest := OutlineSteps(steps[1..], route, h.terminal);
            rest.(shown := r.shown + h.shown + rest.shown)
  }

  /** A trace without its deliveries and without what the catch blocks emit. */
  function Outlined(trace: seq<Entry>): seq<Shown> {
    if trace == [] then [] else OutlinedEntry(trace[0]) + Outlined(trace[1..])
  }

  function OutlinedEntry(x: Entry): seq<Shown> {
    match x
    case Entered(active) => [SEntered(active)]
    case Upgraded(e, _) => [SUpgraded(e)]
    case Fired(e, byCatch, route, _) => if byCatch then [] else [SFired(e, route)]
    case Replayed(_, _) => []
  }

  lemma {:induction false} OutlinedConcat(a: seq<Entry>, b: seq<Entry>)
    ensures Outlined(a + b) == Outlined(a) + Outlined(b)
  {
    if a == [] {
      assert a + b == b;
    } else {
      OutlinedConcat(a[1..], b);
      assert (a + b)[1..] == a[1..] + b;
      GroupShown(OutlinedEntry(a[0]), Outlined(a[1..]), Outlined(b));
    }
  }

  lemma GroupShown(a: seq<Shown>, b: seq<Shown>, c: seq<Shown>)
    ensures a + (b + c) == (a + b) + c
  {
  }

  lemma {:induction false} OutlinedUpgrades(hook: Option<Hook>, es: seq<EventId>)
    ensures Outlined(UpgradeEntries(hook, es)) == Upgrades(es)
  {
    if es != [] {
      OutlinedUpgrades(hook, es[1..]);
      var r := UpgradeEntries(hook, es);
      assert r[1..] == UpgradeEntries(hook, es[1..]);
      assert Upgrades(es) == [SUpgraded(es[0])] + Upgrades(es[1..]);
    }
  }

  lemma OutlinedOpening(call: Call, c: Ctx)
    ensures Outlined(Opening(call, c)) == [SEntered(FrameRoute(c.route, call.params))] + Upgrades(call.upgrade)
  {
    RouteTable(call.params);
    var hook := Install(c.hook, call.perCall);
    OutlinedUpgrades(hook, call.upgrade);
    assert Opening(call, c)[1..] == UpgradeEntries(hook, call.upgrade);
  }

  /**
   Every frame, upgrade event and fired event of the script has its own entry, in order and
   under the route of its frame, and nothing else has one; exit and flag are those of the script.
   */
  lemma {:induction false} TraceIsOutline(call: Call, c: Ctx)
    ensures
      var r, o := RunCall(call, c), OutlineCall(call, c.route);
      r.exit == o.exit && r.ctx.terminal == o.terminal && Outlined(r.trace) == o.shown
    decreases call, 1
  {
    var inner := Inner(call, c);
    RouteTable(call.params);
    StepsOutline(call.steps, inner);
    OutlinedOpening(call, c);
    var body := RunSteps(call.steps, inner);
    OutlinedConcat(Opening(call, c), body.trace);
    OutlinedConcat(Opening(call, c) + body.trace, Closing(body, c));
    assert Outlined(Closing(body, c)) == [];
  }

  lemma {:induction false} StepsOutline(steps: seq<Step>, c: Ctx)
    ensures
      var r, o := RunSteps(steps, c), OutlineSteps(steps, c.route, c.terminal);
      r.exit == o.exit && r.ctx.terminal == o.terminal && Outlined(r.trace) == o.shown
    decreases steps, 0
  {
    if steps != [] {
      match steps[0]
      case Fire(e) =>
        StepsOutline(steps[1..], c);
        OutlinedConcat([FireEntry(c, e, false)], RunSteps(steps[1..], c).trace);
        assert Outlined([FireEntry(c, e, false)]) == [SFired(e, c.route)];
      case MarkTerminal => StepsOutline(steps[1..], c.(terminal := true));
      case Throw =>
      case Reenter(call, onThrow, rethrow) =>
        TraceIsOutline(call, c);
        StackDiscipline(call, c);
        var r := RunCall(call, c);
        StepsOutline(onThrow, r.ctx);
        StepsKeepFrame(onThrow, r.ctx);
        var h := RunSteps(onThrow, r.ctx);
        var next := if r.exit.Returned? then r.ctx else h.ctx;
        StepsOutline(steps[1..], next);
        var rest := RunSteps(steps[1..], next);
        ReenterOutlined(r.trace, h.trace, rest.trace);
    }
  }

  lemma ReenterOutlined(r: seq<Entry>, h: seq<Entry>, rest: seq<Entry>)
    ensures Outlined(r + h) == Outlined(r) + Outlined(h)
    ensures Outlined(r + rest) == Outlined(r) + Outlined(rest)
    ensures Outlined(r + h + rest) == Outlined(r) + Outlined(h) + Outlined(rest)
  {
    OutlinedConcat(r, h);
    OutlinedConcat(r, rest);
    OutlinedConcat(r + h, rest);
  }

  // ---------------------------------------------------------------- silence

  /** The ids that describe a Route 1 transaction. */
  predicate IsRouteOneId(e: EventId) {
    e.RouteOne? || e == SendTx199_02
  }

  /** A fired event stays silent exactly when it has a Route 1 id and its frame is on another route. */
  predicate SilentIffAway(x: Entry) {
    x.Fired? ==> (x.delivered.None? <==> IsRouteOneId(x.e) && x.route.Some? && x.route.value != UOA_TO_PUSH)
  }

  predicate AllSilentIffAway(trace: seq<Entry>) {
    forall i :: 0 <= i < |trace| ==> SilentIffAway(trace[i])
  }

  /** Over every tree, and whatever route and hook it starts under. */
  lemma {:induction false} SilenceIff(call: Call, c: Ctx)
    ensures AllSilentIffAway(RunCall(call, c).trace)
    decreases call, 1
  {
    StepsSilence(call.steps, Inner(call, c));
  }

  lemma {:induction false} StepsSilence(steps: seq<Step>, c: Ctx)
    ensures AllSilentIffAway(RunSteps(steps, c).trace)
    decreases steps, 0
  {
    if steps != [] {
      match steps[0]
      case Fire(e) => StepsSilence(steps[1..], c);
      case MarkTerminal => StepsSilence(steps[1..], c.(terminal := true));
      case Throw =>
      case Reenter(call, onThrow, rethrow) =>
        SilenceIff(call, c);
        var r := RunCall(call, c);
        StepsSilence(onThrow, r.ctx);
        var h := RunSteps(onThrow, r.ctx);
        StepsSilence(steps[1..], if r.exit.Returned? then r.ctx else h.ctx);
    }
  }

  // ---------------------------------------------------------------- no downgrade

  predicate AwayFromPush(x: Entry) {
    match x
    case Entered(active) => active != UOA_TO_PUSH
    case Upgraded(_, _) => true
    case Replayed(_, _) => true
    case Fired(e, _, route, delivered) =>
      && route.Some? && route.value != UOA_TO_PUSH
      && ((e.RouteOne? || e.SendTx199_02?) ==> delivered.None?)
  }

  predicate AllAway(trace: seq<Entry>) {
    forall i :: 0 <= i < |trace| ==> AwayFromPush(trace[i])
  }

  /** Under an ancestor on another route no frame runs as Route 1, and no Route 1 event gets out. */
  lemma {:induction false} NoDowngrade(call: Call, c: Ctx)
    requires c.route.Some? && c.route.value != UOA_TO_PUSH
    ensures AllAway(RunCall(call, c).trace)
    decreases call, 1
  {
    var inner := Inner(call, c);
    StepsStayAway(call.steps, inner);
  }

  lemma {:induction false} StepsStayAway(steps: seq<Step>, c: Ctx)
    requires c.route.Some? && c.route.value != UOA_TO_PUSH
    ensures AllAway(RunSteps(steps, c).trace)
    decreases steps, 0
  {
    if steps != [] {
      match steps[0]
      case Fire(e) => StepsStayAway(steps[1..], c);
      case MarkTerminal => StepsStayAway(steps[1..], c.(terminal := true));
      case Throw =>
      case Reenter(call, onThrow, rethrow) =>
        NoDowngrade(call, c);
        StackDiscipline(call, c);
        var r := RunCall(call, c);
        StepsStayAway(onThrow, r.ctx);
        StepsKeepFrame(onThrow, r.ctx);
        var h := RunSteps(onThrow, r.ctx);
        StepsStayAway(steps[1..], if r.exit.Returned? then r.ctx else h.ctx);
    }
  }

  // ---------------------------------------------------------------- terminal events

  /** How many events the catch blocks emitted. */
  function CatchCount(trace: seq<Entry>): nat {
    if trace == [] then 0
    else (if trace[0].Fired? && trace[0].byCatch then 1 else 0) + CatchCount(trace[1..])
  }

  lemma {:induction false} CatchCountConcat(a: seq<Entry>, b: seq<Entry>)
    ensures CatchCount(a + b) == CatchCount(a) + CatchCount(b)
  {
    if a == [] {
      assert a + b == b;
    } else {
      CatchCountConcat(a[1..], b);
      assert (a + b)[1..] == a[1..] + b;
    }
  }

  lemma {:induction false} UpgradeHasNoCatch(hook: Option<Hook>, es: seq<EventId>)
    ensures CatchCount(UpgradeEntries(hook, es)) == 0
  {
    if es != [] {
      UpgradeHasNoCatch(hook, es[1..]);
      var r := UpgradeEntries(hook, es);
      assert r[1..] == UpgradeEntries(hook, es[1..]);
    }
  }

  /** A frame entered with a route already set is not the outermost one: its catch is silent. */
  lemma {:induction false} InnerFramesAreSilent(call: Call, c: Ctx)
    requires c.route.Some?
    ensures CatchCount(RunCall(call, c).trace) == 0
    decreases call, 1
  {
    var inner := Inner(call, c);
    BodiesAreSilent(call.steps, inner);
    TraceOfCall(call, c);
  }

  lemma {:induction false} BodiesAreSilent(steps: seq<Step>, c: Ctx)
    requires c.route.Some?
    ensures CatchCount(RunSteps(steps, c).trace) == 0
    decreases steps, 0
  {
    if steps != [] {
      match steps[0]
      case Fire(e) =>
        BodiesAreSilent(steps[1..], c);
        CatchCountConcat([FireEntry(c, e, false)], RunSteps(steps[1..], c).trace);
      case MarkTerminal => BodiesAreSilent(steps[1..], c.(terminal := true));
      case Throw =>
      case Reenter(call, onThrow, rethrow) =>
        InnerFramesAreSilent(call, c);
        StackDiscipline(call, c);
        var r := RunCall(call, c);
        BodiesAreSilent(onThrow, r.ctx);
        StepsKeepFrame(onThrow, r.ctx);
        var h := RunSteps(onThrow, r.ctx);
        CatchCountConcat(r.trace, h.trace);
        var next := if r.exit.Returned? then r.ctx else h.ctx;
        BodiesAreSilent(steps[1..], next);
        CatchCountConcat(r.trace, RunSteps(steps[1..], next).trace);
        CatchCountConcat(r.trace + h.trace, RunSteps(steps[1..], next).trace);
    }
  }

  /** Splits the count of a call's trace into its body and its own catch block. */
  lemma TraceOfCall(call: Call, c: Ctx)
    ensures
      var body := RunSteps(call.steps, Inner(call, c));
      CatchCount(RunCall(call, c).trace) == CatchCount(body.trace) + |Closing(body, c)|
  {
    var body := RunSteps(call.steps, Inner(call, c));
    var up := UpgradeEntries(Install(c.hook, call.perCall), call.upgrade);
    UpgradeHasNoCatch(Install(c.hook, call.perCall), call.upgrade);
    CatchCountConcat(Opening(call, c)[..1], up);
    assert Opening(call, c) == Opening(call, c)[..1] + up;
    CatchCountConcat(Opening(call, c), body.trace);
    CatchCountConcat(Opening(call, c) + body.trace, Closing(body, c));
  }

  /** The id the source documents for a failed call on each route. */
  function DocumentedTerminal(r: Route): EventId {
    match r
    case UOA_TO_PUSH => SendTx199_02
    case UOA_TO_CEA => SendTx299_02
    case CEA_TO_PUSH => SendTx399_02
    case CEA_TO_CEA => SendTx199_02
  }

  /**
   One top-level call, whatever its nesting tree: its catch blocks emit one terminal exactly
   when it throws with the flag clear and no route was set before it, and none otherwise.
   That terminal is the last thing observed, and its id is fixed by the outermost route.  It
   reaches the hook on every route but CEA_TO_CEA, whose id the event boundary suppresses.
   */
  lemma {:induction false} TerminalSafety(call: Call, c: Ctx)
    ensures
      var r, o := RunCall(call, c), OutlineCall(call, c.route);
      var own := DocumentedRoute(call.params);
      var emits := c.route.None? && o.exit.Threw? && !o.terminal;
      && r.exit == o.exit && r.ctx.terminal == o.terminal
      && CatchCount(r.trace) == (if emits then 1 else 0)
      && (emits ==>
            && |r.trace| > 0
            && var last := r.trace[|r.trace| - 1];
               && last.Fired? && last.byCatch
               && last.e == DocumentedTerminal(own)
               && last.route == Some(own)
               && (last.delivered.Some? <==> own != CEA_TO_CEA)
               && (last.delivered.Some? ==> last.delivered.value == Deliver(Install(c.hook, call.perCall))))
  {
    var inner := Inner(call, c);
    BodiesAreSilent(call.steps, inner);
    StepsKeepFrame(call.steps, inner);
    TraceOfCall(call, c);
    TraceIsOutline(call, c);
    RouteTable(call.params);
  }

  // ---------------------------------------------------------------- sessions

  function RunSession(ops: seq<Op>, c: Ctx): Ctx {
    if ops == [] then c else RunSession(ops[1..], RunOp(ops[0], c).ctx)
  }

  predicate SetsRoute(op: Op) {
    op.Track? && op.found.Found? && op.found.route.Some?
  }

  /** Between top-level operations the hook never changes, and only tracking leaves a route behind. */
  lemma {:induction false} SessionFrame(ops: seq<Op>, c: Ctx)
    ensures RunSession(ops, c).hook == c.hook
    ensures RunSession(ops, c).route.None? <==>
            c.route.None? && forall i :: 0 <= i < |ops| ==> !SetsRoute(ops[i])
  {
    if ops != [] {
      OpRoute(ops[0], c);
      var next := RunOp(ops[0], c).ctx;
      SessionFrame(ops[1..], next);
      assert forall i :: 0 < i < |ops| ==> ops[i] == ops[1..][i - 1];
      if forall i :: 0 <= i < |ops[1..]| ==> !SetsRoute(ops[1..][i]) {
        assert forall i :: 0 < i < |ops| ==> !SetsRoute(ops[i]);
      } else {
        var i :| 0 <= i < |ops[1..]| && SetsRoute(ops[1..][i]);
        assert SetsRoute(ops[i + 1]);
      }
    }
  }

  /**
   After any history, a call that throws with the flag clear closes the event stream with its
   terminal exactly when no earlier `trackTransaction` resolved a route, and a consumer hears
   it exactly when the call is, besides, not on CEA_TO_CEA.
   */
  lemma TerminalGuarantee(before: seq<Op>, call: Call, init: Option<HookId>)
    ensures
      var c := RunSession(before, Fresh(init));
      var r, o := RunCall(call, c), OutlineCall(call, c.route);
      var clean := forall i :: 0 <= i < |before| ==> !SetsRoute(before[i]);
      o.exit.Threw? && !o.terminal ==>
        && CatchCount(r.trace) == (if clean then 1 else 0)
        && ((exists x :: x in r.trace && x.Fired? && x.byCatch && x.delivered.Some?)
            <==> clean && DocumentedRoute(call.params) != CEA_TO_CEA)
  {
    var c := RunSession(before, Fresh(init));
    var r := RunCall(call, c);
    SessionFrame(before, Fresh(init));
    TerminalSafety(call, c);
    if r.exit.Threw? && !r.ctx.terminal {
      if c.route.None? {
        var n := |r.trace| - 1;
        assert r.trace == r.trace[..n] + [r.trace[n]];
        CatchCountConcat(r.trace[..n], [r.trace[n]]);
        NoCatchInside(r.trace[..n]);
        assert r.trace[n] in r.trace;
        forall x | x in r.trace && x.Fired? && x.byCatch ensures x == r.trace[n] {
          assert x in r.trace[..n] || x == r.trace[n];
        }
      } else {
        NoCatchInside(r.trace);
      }
    }
  }

  /** The route the last successful tracking left behind. */
  function LeftBehind(before: seq<Op>): Option<Route> {
    if before == [] then None
    else if SetsRoute(before[|before| - 1]) then before[|before| - 1].found.route
    else LeftBehind(before[..|before| - 1])
  }

  lemma {:induction false} SessionRoute(before: seq<Op>, c: Ctx)
    ensures RunSession(before, c).route == if LeftBehind(before).Some? then LeftBehind(before) else c.route
  {
    if before != [] {
      var front, last := before[..|before| - 1], before[|before| - 1];
      SessionRoute(front, c);
      SessionSnoc(front, last, c);
      assert before == front + [last];
      OpRoute(last, RunSession(front, c));
    }
  }

  lemma {:induction false} SessionSnoc(before: seq<Op>, op: Op, c: Ctx)
    ensures RunSession(before + [op], c) == RunOp(op, RunSession(before, c)).ctx
  {
    if before == [] {
      assert [] + [op] == [op];
    } else {
      assert (before + [op])[1..] == before[1..] + [op];
      SessionSnoc(before[1..], op, RunOp(before[0], c).ctx);
    }
  }

  lemma OpRoute(op: Op, c: Ctx)
    ensures RunOp(op, c).ctx.route == if SetsRoute(op) then op.found.route else c.route
    ensures RunOp(op, c).ctx.hook == c.hook
  {
    match op
    case Exec(call) => StackDiscipline(call, c);
    case Send(None, steps) => StepsKeepFrame(steps, c);
    case Send(Some(p), steps) => StepsKeepFrame(steps, c.(hook := Some(Fanout(c.hook, p))));
    case Track(_, _) =>
  }

  /**
   After any history, a top-level call runs under its own route exactly when it is not on
   UOA_TO_PUSH or no other route was left behind; when it does not, none of its Route 1 events
   reaches a consumer.
   */
  lemma OwnRouteIff(before: seq<Op>, call: Call, init: Option<HookId>)
    ensures
      var trace := RunCall(call, RunSession(before, Fresh(init))).trace;
      var own := DocumentedRoute(call.params);
      var left := LeftBehind(before);
      && |trace| > 0
      && (trace[0] == Entered(own) <==> own != UOA_TO_PUSH || left.None? || left == Some(UOA_TO_PUSH))
      && (trace[0] != Entered(own) ==> AllAway(trace))
  {
    var c := RunSession(before, Fresh(init));
    SessionRoute(before, Fresh(init));
    RouteTable(call.params);
    if c.route.Some? && c.route.value != UOA_TO_PUSH {
      NoDowngrade(call, c);
    }
  }

  lemma {:induction false} NoCatchInside(trace: seq<Entry>)
    requires CatchCount(trace) == 0
    ensures forall x :: x in trace ==> !(x.Fired? && x.byCatch)
  {
    if trace != [] {
      NoCatchInside(trace[1..]);
      assert forall x :: x in trace ==> x == trace[0] || x in trace[1..];
    }
  }

  // ---------------------------------------------------------------- hook delivery

  /**
   Every frame of the tree carries a per-call hook, or none, that is `allowed`; and, if asked,
   Route 1 frames are leaves, as they are in the source.
   */
  predicate AllFrames(call: Call, allowed: Option<HookId> -> bool, leaves: bool)
    decreases call, 1
  {
    && allowed(call.perCall)
    && StepsFrames(call.steps, allowed, leaves)
    && (leaves && !IsMultiChain(call.params) ==> Flat(call.steps))
  }

  predicate StepsFrames(steps: seq<Step>, allowed: Option<HookId> -> bool, leaves: bool)
    decreases steps, 0
  {
    steps == [] ||
    (&& (steps[0].Reenter? ==>
           AllFrames(steps[0].call, allowed, leaves) && StepsFrames(steps[0].onThrow, allowed, leaves))
     && StepsFrames(steps[1..], allowed, leaves))
  }

  predicate Flat(steps: seq<Step>) {
    forall i :: 0 <= i < |steps| ==> !steps[i].Reenter?
  }

  /** The init hook, then the per-call hook, each once. */
  function InitAndPerCall(base: Option<HookId>, p: HookId): (r: seq<HookId>)
    ensures forall i, j :: 0 <= i < j < |r| ==> r[i] != r[j]
    ensures p in r && (base.Some? ==> base.value in r)
  {
    if base.None? || base.value == p then [p] else [base.value, p]
  }

  function InitOnly(base: Option<HookId>): seq<HookId> {
    if base.None? then [] else [base.value]
  }

  function Raw(base: Option<HookId>): Option<Hook> {
    if base.None? then None else Some(User(base.value))
  }

  /** The callbacks an entry reaches, if it is an event that was delivered. */
  function Reached(x: Entry): Option<seq<HookId>> {
    match x
    case Entered(_) => None
    case Upgraded(_, to) => Some(to)
    case Fired(_, _, _, delivered) => delivered
    case Replayed(_, to) => Some(to)
  }

  predicate AllReach(trace: seq<Entry>, ok: seq<HookId> -> bool) {
    forall i :: 0 <= i < |trace| && Reached(trace[i]).Some? ==> ok(Reached(trace[i]).value)
  }

  function Exactly(a: seq<HookId>): seq<HookId> -> bool {
    to => to == a
  }

  function Either(a: seq<HookId>, b: seq<HookId>): seq<HookId> -> bool {
    to => to == a || to == b
  }

  /** The hook is the init hook with `p` not yet, or already, installed on top of it. */
  predicate Settled(h: Option<Hook>, base: Option<HookId>, p: HookId) {
    h == Raw(base) || h == Install(Raw(base), Some(p))
  }

  lemma AllReachConcat(s: seq<Entry>, t: seq<Entry>, ok: seq<HookId> -> bool)
    requires AllReach(s, ok) && AllReach(t, ok)
    ensures AllReach(s + t, ok)
  {
  }

  /** One call's trace from the trace of its body. */
  lemma CallReaches(call: Call, c: Ctx, ok: seq<HookId> -> bool)
    requires ok(Deliver(Install(c.hook, call.perCall)))
    requires AllReach(RunSteps(call.steps, Inner(call, c)).trace, ok)
    ensures AllReach(RunCall(call, c).trace, ok)
  {
    var body := RunSteps(call.steps, Inner(call, c));
    StepsKeepFrame(call.steps, Inner(call, c));
    AllReachConcat(Opening(call, c), body.trace, ok);
    AllReachConcat(Opening(call, c) + body.trace, Closing(body, c), ok);
  }

  /** The trace of a re-entry from the traces of the call, of its handler, and of what follows. */
  lemma ReenterReaches(steps: seq<Step>, c: Ctx, ok: seq<HookId> -> bool)
    requires steps != [] && steps[0].Reenter?
    requires var r := RunCall(steps[0].call, c);
             var h := RunSteps(steps[0].onThrow, r.ctx);
             && AllReach(r.trace, ok)
             && AllReach(h.trace, ok)
             && AllReach(RunSteps(steps[1..], if r.exit.Returned? then r.ctx else h.ctx).trace, ok)
    ensures AllReach(RunSteps(steps, c).trace, ok)
  {
    var r := RunCall(steps[0].call, c);
    var h := RunSteps(steps[0].onThrow, r.ctx);
    var rest := RunSteps(steps[1..], if r.exit.Returned? then r.ctx else h.ctx);
    AllReachConcat(r.trace, h.trace, ok);
    AllReachConcat(r.trace, rest.trace, ok);
    AllReachConcat(r.trace + h.trace, rest.trace, ok);
  }

  /** A condition on hooks that allowed installations keep and that makes every delivery right. */
  ghost predicate Preserved(
    keep: Option<Hook> -> bool, allowed: Option<HookId> -> bool, leaves: bool, ok: seq<HookId> -> bool)
  {
    && (forall h :: keep(h) ==> ok(Deliver(h)))
    && (forall h, q :: keep(h) && allowed(q) ==> keep(Install(h, q)))
    && (!leaves ==> forall h :: keep(h) ==> keep(Some(Buffering(h))))
  }

  /** Delivery over a whole tree, from such a condition. */
  lemma {:induction false} TreeDelivery(
    call: Call, c: Ctx,
    keep: Option<Hook> -> bool, allowed: Option<HookId> -> bool, leaves: bool, ok: seq<HookId> -> bool)
    requires Preserved(keep, allowed, leaves, ok)
    requires AllFrames(call, allowed, leaves) && keep(Install(c.hook, call.perCall))
    ensures AllReach(RunCall(call, c).trace, ok)
    decreases call, 1
  {
    var inner := Inner(call, c);
    if IsMultiChain(call.params) || !leaves {
      StepsDelivery(call.steps, inner, keep, allowed, leaves, ok);
    } else {
      LeafDelivery(call.steps, inner, ok);
    }
    CallReaches(call, c, ok);
  }

  lemma {:induction false} StepsDelivery(
    steps: seq<Step>, c: Ctx,
    keep: Option<Hook> -> bool, allowed: Option<HookId> -> bool, leaves: bool, ok: seq<HookId> -> bool)
    requires Preserved(keep, allowed, leaves, ok)
    requires StepsFrames(steps, allowed, leaves) && keep(c.hook)
    ensures AllReach(RunSteps(steps, c).trace, ok)
    decreases steps, 0
  {
    if steps != [] {
      match steps[0]
      case Fire(e) => StepsDelivery(steps[1..], c, keep, allowed, leaves, ok);
      case MarkTerminal => StepsDelivery(steps[1..], c.(terminal := true), keep, allowed, leaves, ok);
      case Throw =>
      case Reenter(call, onThrow, rethrow) =>
        TreeDelivery(call, c, keep, allowed, leaves, ok);
        StackDiscipline(call, c);
        var r := RunCall(call, c);
        StepsDelivery(onThrow, r.ctx, keep, allowed, leaves, ok);
        StepsKeepFrame(onThrow, r.ctx);
        var h := RunSteps(onThrow, r.ctx);
        StepsDelivery(steps[1..], if r.exit.Returned? then r.ctx else h.ctx, keep, allowed, leaves, ok);
        ReenterReaches(steps, c, ok);
    }
  }

  lemma {:induction false} LeafDelivery(steps: seq<Step>, c: Ctx, ok: seq<HookId> -> bool)
    requires Flat(steps) && ok(Deliver(c.hook))
    ensures AllReach(RunSteps(steps, c).trace, ok)
  {
    if steps != [] && !steps[0].Throw? {
      LeafDelivery(steps[1..], if steps[0].MarkTerminal? then c.(terminal := true) else c, ok);
    }
  }

  function NoneOr(p: HookId): Option<HookId> -> bool {
    q => q == None || q == Some(p)
  }

  /**
   When every frame carries no per-call hook or the same one, each event fired at any depth
   reaches the init hook once, and the per-call hook once below any frame that carries it,
   also when the two are the same function. No event that the script fires is missing, and only
   those are silent that have a Route 1 id in a frame on another route.
   */
  lemma ExactlyOnce(call: Call, c: Ctx, base: Option<HookId>, p: HookId)
    requires AllFrames(call, NoneOr(p), true) && Settled(c.hook, base, p)
    ensures AllReach(RunCall(call, c).trace, Either(InitOnly(base), InitAndPerCall(base, p)))
    ensures call.perCall == Some(p) || c.hook != Raw(base) ==>
              AllReach(RunCall(call, c).trace, Exactly(InitAndPerCall(base, p)))
    ensures AllSilentIffAway(RunCall(call, c).trace)
    ensures Outlined(RunCall(call, c).trace) == OutlineCall(call, c.route).shown
  {
    SilenceIff(call, c);
    TraceIsOutline(call, c);
    SettledDelivery(call, c, base, p);
    if call.perCall == Some(p) || c.hook != Raw(base) {
      CarriedDelivery(call, c, base, p);
    }
  }

  lemma SettledDelivery(call: Call, c: Ctx, base: Option<HookId>, p: HookId)
    requires AllFrames(call, NoneOr(p), true) && Settled(c.hook, base, p)
    ensures AllReach(RunCall(call, c).trace, Either(InitOnly(base), InitAndPerCall(base, p)))
  {
    forall h | Settled(h, base, p)
      ensures Settled(Install(h, Some(p)), base, p) && Install(h, None) == h
      ensures Either(InitOnly(base), InitAndPerCall(base, p))(Deliver(h))
    {
      DeliverSettled(h, base, p);
    }
    TreeDelivery(call, c, h => Settled(h, base, p), NoneOr(p), true, Either(InitOnly(base), InitAndPerCall(base, p)));
  }

  lemma CarriedDelivery(call: Call, c: Ctx, base: Option<HookId>, p: HookId)
    requires AllFrames(call, NoneOr(p), true) && Settled(c.hook, base, p)
    requires call.perCall == Some(p) || c.hook != Raw(base)
    ensures AllReach(RunCall(call, c).trace, Exactly(InitAndPerCall(base, p)))
  {
    var top := Install(Raw(base), Some(p));
    DeliverSettled(c.hook, base, p);
    DeliverSettled(top, base, p);
    TreeDelivery(call, c, h => h == top, NoneOr(p), true, Exactly(InitAndPerCall(base, p)));
  }

  lemma DeliverSettled(h: Option<Hook>, base: Option<HookId>, p: HookId)
    requires Settled(h, base, p)
    ensures Deliver(h) == InitOnly(base) || Deliver(h) == InitAndPerCall(base, p)
    ensures h == Install(Raw(base), Some(p)) ==> Deliver(h) == InitAndPerCall(base, p)
    ensures Install(h, Some(p)) == Install(Raw(base), Some(p))
  {
    if base.Some? {
      assert Deliver(Raw(base)) == [base.value];
    }
  }

  /** A reconstructed event reaches the hook of the tracking once and the init hook once, also when they are one. */
  lemma ReplayDeliversOnce(before: seq<Op>, perTx: Option<HookId>, found: Tracked, init: Option<HookId>)
    ensures AllReach(RunOp(Track(perTx, found), RunSession(before, Fresh(init))).trace, NoRepeat(InitOnly(perTx) + InitOnly(init)))
  {
    SessionFrame(before, Fresh(init));
    var to := FanOut(perTx, Raw(init));
    if init.Some? {
      assert Deliver(Raw(init)) == [init.value];
    }
    assert forall x :: x in to <==> x in InitOnly(perTx) + InitOnly(init);
    assert NoRepeat(InitOnly(perTx) + InitOnly(init))(to);
  }

  /** Reaches each of the given hooks once, and no other. */
  function NoRepeat(hooks: seq<HookId>): seq<HookId> -> bool {
    to => NoDuplicates(to) && (forall x :: x in to ==> x in hooks) && (forall x :: x in hooks ==> x in to)
  }

  // ---------------------------------------------------------------- a Route 1 call

  /** The events that a handler without nested calls fires before it throws. */
  function FiredBy(steps: seq<Step>): seq<EventId> {
    if steps == [] || steps[0].Throw? then []
    else (if steps[0].Fire? then [steps[0].e] else []) + FiredBy(steps[1..])
  }

  function OnRouteOne(es: seq<EventId>): (r: seq<Shown>)
    ensures |r| == |es| && forall i :: 0 <= i < |r| ==> r[i] == SFired(es[i], Some(UOA_TO_PUSH))
  {
    seq(|es|, i requires 0 <= i < |es| => SFired(es[i], Some(UOA_TO_PUSH)))
  }

  lemma {:induction false} FlatOutline(steps: seq<Step>, terminal: bool)
    requires Flat(steps)
    ensures OutlineSteps(steps, Some(UOA_TO_PUSH), terminal).shown == OnRouteOne(FiredBy(steps))
  {
    if steps != [] && !steps[0].Throw? {
      FlatOutline(steps[1..], if steps[0].MarkTerminal? then true else terminal);
      if steps[0].Fire? {
        assert OnRouteOne(FiredBy(steps)) == [SFired(steps[0].e, Some(UOA_TO_PUSH))] + OnRouteOne(FiredBy(steps[1..]));
      }
    }
  }

  /** The init hook and the per-call hook, as far as there are any, each once. */
  function Audience(init: Option<HookId>, perCall: Option<HookId>): seq<HookId> {
    if perCall.None? then InitOnly(init) else InitAndPerCall(init, perCall.value)
  }

  /**
   A top-level Route 1 call, after any history that left no other route behind: its upgrade
   events and every event its handler fires have their entries, whatever their ids, and each of
   these, and the terminal of its catch block, reaches the init hook and the per-call hook once.
   */
  lemma RouteOneIsHeard(before: seq<Op>, call: Call, init: Option<HookId>)
    requires DocumentedRoute(call.params) == UOA_TO_PUSH && Flat(call.steps)
    requires LeftBehind(before).None? || LeftBehind(before) == Some(UOA_TO_PUSH)
    ensures
      var trace := RunCall(call, RunSession(before, Fresh(init))).trace;
      && Outlined(trace) == [SEntered(UOA_TO_PUSH)] + Upgrades(call.upgrade) + OnRouteOne(FiredBy(call.steps))
      && forall i :: 0 <= i < |trace| && !trace[i].Entered? ==> Reached(trace[i]) == Some(Audience(init, call.perCall))
  {
    var c := RunSession(before, Fresh(init));
    SessionFrame(before, Fresh(init));
    SessionRoute(before, Fresh(init));
    TraceIsOutline(call, c);
    FlatOutline(call.steps, false);
    RouteTable(call.params);
    AudienceHears(init, call.perCall);
    LeafDelivery(call.steps, Inner(call, c), Exactly(Audience(init, call.perCall)));
    CallReaches(call, c, Exactly(Audience(init, call.perCall)));
    RouteOneLoud(call, c);
  }

  lemma AudienceHears(init: Option<HookId>, perCall: Option<HookId>)
    ensures Deliver(Install(Raw(init), perCall)) == Audience(init, perCall)
  {
    if init.Some? {
      assert Deliver(Raw(init)) == [init.value];
    }
  }

  /** On Route 1 nothing is silent. */
  lemma RouteOneLoud(call: Call, c: Ctx)
    requires DocumentedRoute(call.params) == UOA_TO_PUSH && Flat(call.steps)
    requires c.route.None? || c.route == Some(UOA_TO_PUSH)
    ensures forall i :: 0 <= i < |RunCall(call, c).trace| && !RunCall(call, c).trace[i].Entered? ==>
              Reached(RunCall(call, c).trace[i]).Some?
  {
    RouteTable(call.params);
    FlatLoud(call.steps, Inner(call, c));
    StepsKeepFrame(call.steps, Inner(call, c));
  }

  lemma {:induction false} FlatLoud(steps: seq<Step>, c: Ctx)
    requires Flat(steps) && c.route == Some(UOA_TO_PUSH)
    ensures forall i :: 0 <= i < |RunSteps(steps, c).trace| ==> Reached(RunSteps(steps, c).trace[i]).Some?
  {
    if steps != [] && !steps[0].Throw? {
      FlatLoud(steps[1..], if steps[0].MarkTerminal? then c.(terminal := true) else c);
    }
  }

  // ---------------------------------------------------------------- differing hooks

  /** The hook below a path of nested frames that carry `qs`, outermost first. */
  function InstallAll(h: Option<Hook>, qs: seq<HookId>): Option<Hook> {
    if qs == [] then h else Install(InstallAll(h, qs[..|qs| - 1]), Some(qs[|qs| - 1]))
  }

  /** A sequence with each run of equal neighbours reduced to one. */
  function Collapse(s: seq<HookId>): seq<HookId> {
    if |s| <= 1 then s
    else
      var front := s[..|s| - 1];
      if s[|s| - 1] == s[|s| - 2] then Collapse(front) else Collapse(front) + [s[|s| - 1]]
  }

  predicate NoDuplicates(s: seq<HookId>) {
    forall i, j :: 0 <= i < j < |s| ==> s[i] != s[j]
  }

  /** No hook comes back after a different one was registered in between. */
  predicate Contiguous(s: seq<HookId>) {
    forall i, j, k :: 0 <= i < j < k < |s| && s[i] == s[k] ==> s[j] == s[i]
  }

  lemma {:induction false} DeliverInstallAll(init: Option<HookId>, qs: seq<HookId>)
    ensures Deliver(InstallAll(Raw(init), qs)) == Collapse(InitOnly(init) + qs)
    ensures qs != [] ==>
              var h := InstallAll(Raw(init), qs);
              h == Some(User(qs[|qs| - 1])) || (h.Some? && h.value.PerCall? && h.value.p == qs[|qs| - 1])
  {
    var all := InitOnly(init) + qs;
    if qs == [] {
      assert all == InitOnly(init);
    } else {
      var front := qs[..|qs| - 1];
      DeliverInstallAll(init, front);
      assert all[..|all| - 1] == InitOnly(init) + front;
      if |all| == 1 {
        assert front == [] && init.None?;
      } else if front == [] {
        assert all[|all| - 2] == init.value;
      } else {
        assert all[|all| - 2] == front[|front| - 1];
      }
    }
  }

  lemma {:induction false} CollapseContents(s: seq<HookId>)
    ensures forall x :: x in Collapse(s) <==> x in s
  {
    if |s| > 1 {
      var front := s[..|s| - 1];
      CollapseContents(front);
      assert s == front + [s[|s| - 1]];
      assert front[|front| - 1] == s[|s| - 2];
    }
  }

  lemma NoDuplicatesConcat(a: seq<HookId>, b: seq<HookId>)
    ensures NoDuplicates(a + b) <==> NoDuplicates(a) && NoDuplicates(b) && forall x :: x in a ==> x !in b
  {
    var s := a + b;
    if NoDuplicates(s) {
      assert forall i :: 0 <= i < |a| ==> s[i] == a[i];
      assert forall j :: 0 <= j < |b| ==> s[|a| + j] == b[j];
      forall i, j | 0 <= i < j < |b| ensures b[i] != b[j] {
        assert s[|a| + i] != s[|a| + j];
      }
      forall x | x in a ensures x !in b {
        var i :| 0 <= i < |a| && a[i] == x;
        assert s[i] == x;
      }
    } else {
      var i, j :| 0 <= i < j < |s| && s[i] == s[j];
      assert i < |a| <= j ==> a[i] in a && b[j - |a|] in b;
    }
  }

  /** One more hook: it repeats the last one, or it is new. */
  lemma ContiguousSnoc(front: seq<HookId>, x: HookId)
    requires front != []
    ensures Contiguous(front + [x]) <==> Contiguous(front) && (x == front[|front| - 1] || x !in front)
  {
    var s := front + [x];
    var n := |front|;
    assert forall i :: 0 <= i < n ==> s[i] == front[i];
    if Contiguous(s) {
      ContiguousPrefix(s, n);
      assert s[..n] == front;
      if x in front {
        var i :| 0 <= i < n && front[i] == x;
        assert s[i] == s[n];
      }
    } else if Contiguous(front) {
      var i, j, k :| 0 <= i < j < k < |s| && s[i] == s[k] && s[j] != s[i];
      assert k == n && front[i] == x;
      if x == front[n - 1] {
        Between(front, i, j);
      }
    }
  }

  lemma Between(s: seq<HookId>, i: nat, j: nat)
    requires Contiguous(s) && i < j < |s| && s[i] == s[|s| - 1]
    ensures s[j] == s[i]
  {
    assert j == |s| - 1 || s[j] == s[i];
  }

  lemma ContiguousPrefix(s: seq<HookId>, n: nat)
    requires Contiguous(s) && n <= |s|
    ensures Contiguous(s[..n])
  {
    forall i, j, k | 0 <= i < j < k < n && s[..n][i] == s[..n][k] ensures s[..n][j] == s[..n][i] {
      assert s[i] == s[k];
    }
  }

  lemma {:induction false} CollapseIsOnce(s: seq<HookId>)
    ensures NoDuplicates(Collapse(s)) <==> Contiguous(s)
  {
    if |s| > 1 {
      var front, x := s[..|s| - 1], s[|s| - 1];
      CollapseIsOnce(front);
      assert s == front + [x];
      ContiguousSnoc(front, x);
      if x == s[|s| - 2] {
        assert Collapse(s) == Collapse(front);
      } else {
        assert Collapse(s) == Collapse(front) + [x];
        CollapseContents(front);
        NoDuplicatesConcat(Collapse(front), [x]);
      }
    }
  }

  /**
   With arbitrary per-call hooks along a path of frames, every hook hears an event once
   exactly when no hook is registered again after a different one.
   */
  lemma OnceIffContiguous(init: Option<HookId>, qs: seq<HookId>)
    ensures NoDuplicates(Deliver(InstallAll(Raw(init), qs))) <==> Contiguous(InitOnly(init) + qs)
    ensures forall x :: x in Deliver(InstallAll(Raw(init), qs)) <==> x in InitOnly(init) + qs
  {
    DeliverInstallAll(init, qs);
    CollapseIsOnce(InitOnly(init) + qs);
    CollapseContents(InitOnly(init) + qs);
  }

  /** A path of nested Route 2 frames that carry `qs`; the innermost fires `e`. */
  function Tower(qs: seq<HookId>, e: EventId): Call {
    Call(Params(ChainTarget(false), false),
         if qs == [] then None else Some(qs[0]),
         [],
         if |qs| <= 1 then [Fire(e)] else [Reenter(Tower(qs[1..], e), [], true)])
  }

  /** Running that path delivers the event through exactly the installed hooks. */
  lemma {:induction false} TowerDelivers(qs: seq<HookId>, n: nat, c: Ctx)
    requires qs != []
    ensures exists x :: x in RunCall(Tower(qs, Other(n)), c).trace && x.Fired? && x.e == Other(n) &&
                        x.delivered == Some(Deliver(InstallAll(c.hook, qs)))
    decreases |qs|
  {
    var call := Tower(qs, Other(n));
    var hook := Install(c.hook, Some(qs[0]));
    var active := ActiveRoute(c.route, UOA_TO_CEA);
    var inner := Ctx(Some(active), hook, false);
    var body := RunSteps(call.steps, inner);
    var r := RunCall(call, c);
    if |qs| == 1 {
      assert qs[..0] == [] && InstallAll(c.hook, qs) == Install(InstallAll(c.hook, qs[..0]), Some(qs[0]));
      var x := FireEntry(inner, Other(n), false);
      assert !Suppressed(inner.route, Other(n));
      assert body.trace[0] == x;
      assert x in body.trace;
      assert x in r.trace;
    } else {
      TowerDelivers(qs[1..], n, inner);
      InstallAllShift(c.hook, qs);
      var sub := RunCall(Tower(qs[1..], Other(n)), inner);
      var x :| x in sub.trace && x.Fired? && x.e == Other(n) &&
               x.delivered == Some(Deliver(InstallAll(inner.hook, qs[1..])));
      assert x in body.trace;
      assert x in r.trace;
    }
  }

  lemma {:induction false} InstallAllShift(h: Option<Hook>, qs: seq<HookId>)
    requires qs != []
    ensures InstallAll(h, qs) == InstallAll(Install(h, Some(qs[0])), qs[1..])
  {
    var front := qs[..|qs| - 1];
    if |qs| == 1 {
      assert qs[..0] == [] && qs[1..] == [];
    } else {
      InstallAllShift(h, front);
      assert qs[1..][..|qs| - 2] == front[1..];
    }
  }

  // ---------------------------------------------------------------- hooks below a cascade `send`

  /** A hook that no frame below can mistake for its own. */
  predicate Untagged(h: Option<Hook>) {
    h.Some? && (h.value.Fanout? || h.value.Buffering?)
  }

  lemma {:induction false} DeliverAbove(h: Option<Hook>, qs: seq<HookId>)
    requires Untagged(h)
    ensures Deliver(InstallAll(h, qs)) == Deliver(h) + Collapse(qs)
    ensures qs != [] ==>
              var top := InstallAll(h, qs);
              top.Some? && top.value.PerCall? && top.value.p == qs[|qs| - 1]
  {
    if qs != [] {
      DeliverAbove(h, qs[..|qs| - 1]);
    }
  }

  /**
   The wrapper of a cascade `send` is not tagged, so a frame below it that carries the hook of
   the `send`, or the init hook, is wrapped again.  Along a path of frames every hook hears an
   event once exactly when neither of the two is carried there, and none of the others comes
   back after a different one.
   */
  lemma SendOnceIff(p: HookId, init: Option<HookId>, qs: seq<HookId>)
    ensures NoDuplicates(Deliver(InstallAll(Some(Fanout(Raw(init), p)), qs))) <==>
            Contiguous(qs) && p !in qs && (init.Some? ==> init.value !in qs)
  {
    var h := Some(Fanout(Raw(init), p));
    DeliverAbove(h, qs);
    DeliverFanout(p, init);
    CollapseIsOnce(qs);
    CollapseContents(qs);
    NoDuplicatesConcat(InitAndPerCall(init, p), Collapse(qs));
  }

  lemma DeliverFanout(p: HookId, init: Option<HookId>)
    ensures Deliver(Some(Fanout(Raw(init), p))) == InitAndPerCall(init, p)
  {
    if init.Some? {
      assert Deliver(Raw(init)) == [init.value];
    }
  }

  /** Running `send` over that path of frames delivers an event through exactly those hooks. */
  lemma SendTowerDelivers(p: HookId, init: Option<HookId>, qs: seq<HookId>, n: nat)
    requires qs != []
    ensures
      var r := RunOp(Send(Some(p), [Reenter(Tower(qs, Other(n)), [], true)]), Fresh(init));
      exists x :: x in r.trace && x.Fired? && x.e == Other(n) &&
                  x.delivered == Some(Deliver(InstallAll(Some(Fanout(Raw(init), p)), qs)))
  {
    var c := Fresh(init).(hook := Some(Fanout(Raw(init), p)));
    TowerDelivers(qs, n, c);
    var call := Tower(qs, Other(n));
    var x :| x in RunCall(call, c).trace && x.Fired? && x.e == Other(n) &&
             x.delivered == Some(Deliver(InstallAll(c.hook, qs)));
    assert x in RunSteps([Reenter(call, [], true)], c).trace;
  }

  /** In particular a single hop that carries the hook of its `send` has it hear the event twice. */
  lemma SendWrapsTwice(p: HookId, init: Option<HookId>, n: nat)
    ensures
      var r := RunOp(Send(Some(p), [Reenter(Tower([p], Other(n)), [], true)]), Fresh(init));
      exists x :: x in r.trace && x.Fired? && x.e == Other(n) && x.delivered == Some(InitAndPerCall(init, p) + [p])
  {
    SendTowerDelivers(p, init, [p], n);
    DeliverAbove(Some(Fanout(Raw(init), p)), [p]);
    DeliverFanout(p, init);
  }

  function Others(x: HookId): Option<HookId> -> bool {
    q => q != Some(x)
  }

  /** Reaches the given hooks in their order, and `x` not again after them. */
  function Begins(hooks: seq<HookId>, x: HookId): seq<HookId> -> bool {
    to => hooks <= to && x !in to[|hooks|..]
  }

  /**
   Over every tree below a `send` in which no frame carries `x`, whatever other hooks the frames
   carry and wherever they re-enter: each event reaches first the init hook and the hook of
   `send`, once each, and then `x` no more.  With `x` the hook of `send`, or the init hook, it is
   heard exactly once; any other `x` not at all.
   */
  lemma SendDeliversOnce(p: HookId, init: Option<HookId>, steps: seq<Step>, x: HookId, c: Ctx)
    requires StepsFrames(steps, Others(x), false)
    requires c.hook == Raw(init)
    ensures AllReach(RunOp(Send(Some(p), steps), c).trace, Begins(InitAndPerCall(init, p), x))
  {
    var ok := Begins(InitAndPerCall(init, p), x);
    DeliverFanout(p, init);
    forall h, q | Wraps(h, InitAndPerCall(init, p), x) && q != Some(x)
      ensures Wraps(Install(h, q), InitAndPerCall(init, p), x)
    {
      InstallWraps(h, q, InitAndPerCall(init, p), x);
    }
    StepsDelivery(steps, c.(hook := Some(Fanout(c.hook, p))), h => Wraps(h, InitAndPerCall(init, p), x),
                  Others(x), false, ok);
  }

  /** A wrapper that reaches `hooks` first and `x` not again. */
  predicate Wraps(h: Option<Hook>, hooks: seq<HookId>, x: HookId) {
    h.Some? && !h.value.User? && Begins(hooks, x)(Deliver(h))
  }

  lemma InstallWraps(h: Option<Hook>, q: Option<HookId>, hooks: seq<HookId>, x: HookId)
    requires Wraps(h, hooks, x) && q != Some(x)
    ensures Wraps(Install(h, q), hooks, x)
  {
    if ShouldWrap(h, q) {
      assert Deliver(Install(h, q)) == Deliver(h) + [q.value];
      BeginsSnoc(hooks, x, Deliver(h), q.value);
    }
  }

  lemma BeginsSnoc(hooks: seq<HookId>, x: HookId, to: seq<HookId>, q: HookId)
    requires Begins(hooks, x)(to) && q != x
    ensures Begins(hooks, x)(to + [q])
  {
    assert (to + [q])[|hooks|..] == to[|hooks|..] + [q];
  }
}

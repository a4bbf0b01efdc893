/**
 Chain auto-detection: all chains are probed at once, and the wait ends as soon as one probe
 matches (or, in exhaustive mode, when all have finished).

 A probe's answer does not depend on the schedule; when its callbacks run does.  The scheduler
 is adversarial: a run is any sequence of the labels below.
 */
module AutoDetect {
  import opened Wrappers

  // ---------------------------------------------------------------- data

  datatype Answer = Matched(kind: string, payload: int) | Unknown | Failed(error: string)

  datatype Config = Config(chains: seq<string>, answers: seq<Answer>, exhaustive: bool)

  datatype Detection = Detection(chain: string, kind: string, payload: int)
  datatype Attempt = Attempt(chain: string, matched: bool, kind: string, error: Option<string>)
  datatype Result = Result(detection: Option<Detection>, attempts: seq<Attempt>)

  /** A probe settles in `then` or `catch`, and later runs its `finally`. */
  datatype Phase = Pending | Reported | Done

  datatype State = State(
    phases: seq<Phase>, remaining: int, resolved: bool, resolveCalls: nat,
    attempts: seq<Attempt>, seen: seq<Detection>, order: seq<nat>, result: Option<Result>)

  datatype Label = Report(i: nat) | Finally(i: nat) | Resume

  predicate WellFormed(cfg: Config) {
    |cfg.chains| == |cfg.answers|
  }

  function AttemptOf(cfg: Config, i: nat): Attempt
    requires WellFormed(cfg) && i < |cfg.chains|
  {
    match cfg.answers[i]
    case Matched(kind, _) => Attempt(cfg.chains[i], true, kind, None)
    case Unknown => Attempt(cfg.chains[i], false, "UNKNOWN", None)
    case Failed(error) => Attempt(cfg.chains[i], false, "UNKNOWN", Some(error))
  }

  function DetectionOf(cfg: Config, i: nat): Detection
    requires WellFormed(cfg) && i < |cfg.chains| && cfg.answers[i].Matched?
  {
    Detection(cfg.chains[i], cfg.answers[i].kind, cfg.answers[i].payload)
  }

  /** What a caller reads off an attempt and, if it matched, its detection. */
  function AnswerOf(attempt: Attempt, detection: Option<Detection>): Answer {
    if attempt.matched && detection.Some? then Matched(attempt.kind, detection.value.payload)
    else if attempt.error.Some? then Failed(attempt.error.value)
    else Unknown
  }

  /** An attempt tells its chain and its probe's answer; a detection tells the kind and the rest. */
  lemma AttemptTellsAnswer(cfg: Config, i: nat)
    requires WellFormed(cfg) && i < |cfg.chains|
    ensures
      var attempt := AttemptOf(cfg, i);
      var detection := if cfg.answers[i].Matched? then Some(DetectionOf(cfg, i)) else None;
      && attempt.chain == cfg.chains[i] && AnswerOf(attempt, detection) == cfg.answers[i]
      && (attempt.matched <==> cfg.answers[i].Matched?) && (!attempt.matched ==> attempt.kind == "UNKNOWN")
      && (detection.Some? ==> detection.value.chain == cfg.chains[i] && detection.value.kind == attempt.kind)
  {
  }

  // ---------------------------------------------------------------- steps

  function Finish(s: State): State {
    if s.resolved then s else s.(resolved := true, resolveCalls := s.resolveCalls + 1)
  }

  function Start(cfg: Config): State {
    var s := State(seq(|cfg.chains|, _ => Pending), |cfg.chains|, false, 0, [], [], [], None);
    if cfg.chains == [] then Finish(s) else s
  }

  predicate Enabled(cfg: Config, s: State, l: Label) {
    match l
    case Report(i) => i < |s.phases| && s.phases[i] == Pending
    case Finally(i) => i < |s.phases| && s.phases[i] == Reported
    case Resume => s.resolved && s.result.None?
  }

  function Step(cfg: Config, s: State, l: Label): State
    requires WellFormed(cfg) && |s.phases| == |cfg.chains| && Enabled(cfg, s, l)
  {
    match l
    case Report(i) =>
      var matched := cfg.answers[i].Matched?;
      var s1 := s.(phases := s.phases[i := Reported],
                   attempts := s.attempts + [AttemptOf(cfg, i)],
                   seen := if matched then s.seen + [DetectionOf(cfg, i)] else s.seen,
                   order := s.order + [i]);
      if matched && !cfg.exhaustive then Finish(s1) else s1
    case Finally(i) =>
      var s1 := s.(phases := s.phases[i := Done], remaining := s.remaining - 1);
      if s1.remaining == 0 then Finish(s1) else s1
    case Resume =>
      var sorted := MatchedFirst(s.attempts);
      s.(attempts := sorted, result := Some(Result(Winner(cfg.chains, s.seen), sorted)))
  }

  /** A stable sort by the source's comparator: matched attempts first. */
  function MatchedFirst(a: seq<Attempt>): seq<Attempt> {
    Only(a, true) + Only(a, false)
  }

  function Only(a: seq<Attempt>, matched: bool): (r: seq<Attempt>)
    ensures forall x :: x in r ==> x.matched == matched
  {
    if a == [] then []
    else Only(a[..|a| - 1], matched) + if a[|a| - 1].matched == matched then [a[|a| - 1]] else []
  }

  /** `seen.find`. */
  function FindChain(seen: seq<Detection>, chain: string): (r: Option<Detection>)
    ensures r.Some? <==> exists i :: 0 <= i < |seen| && seen[i].chain == chain
    ensures r.Some? ==> r.value in seen && r.value.chain == chain
  {
    if seen == [] then None
    else if seen[0].chain == chain then Some(seen[0])
    else
      var r := FindChain(seen[1..], chain);
      assert r.Some? ==> exists i :: 0 <= i < |seen| && seen[i].chain == chain by {
        if r.Some? {
          var i :| 0 <= i < |seen[1..]| && seen[1..][i].chain == chain;
          assert seen[i + 1].chain == chain;
        }
      }
      assert forall i :: 0 < i < |seen| ==> seen[i] == seen[1..][i - 1];
      r
  }

  function Winner(chains: seq<string>, seen: seq<Detection>): Option<Detection> {
    if chains == [] then None
    else
      var d := FindChain(seen, chains[0]);
      if d.Some? then d else Winner(chains[1..], seen)
  }

  // ---------------------------------------------------------------- the invariant

  function NotDone(phases: seq<Phase>): nat {
    if phases == [] then 0
    else NotDone(phases[..|phases| - 1]) + if phases[|phases| - 1] == Done then 0 else 1
  }

  lemma {:induction false} NotDoneUpdate(phases: seq<Phase>, i: nat, p: Phase)
    requires i < |phases|
    ensures NotDone(phases[i := p]) ==
            NotDone(phases) - (if phases[i] == Done then 0 else 1) + (if p == Done then 0 else 1)
  {
    var n := |phases| - 1;
    if i < n {
      NotDoneUpdate(phases[..n], i, p);
      assert phases[i := p][..n] == phases[..n][i := p];
    } else {
      assert phases[i := p][..n] == phases[..n];
    }
  }

  lemma {:induction false} NotDoneZero(phases: seq<Phase>)
    ensures NotDone(phases) == 0 <==> forall i :: 0 <= i < |phases| ==> phases[i] == Done
  {
    if phases != [] {
      NotDoneZero(phases[..|phases| - 1]);
    }
  }

  lemma {:induction false} NotDoneStart(n: nat)
    ensures NotDone(seq(n, _ => Pending)) == n
  {
    if n > 0 {
      NotDoneStart(n - 1);
      assert seq(n, _ => Pending)[..n - 1] == seq(n - 1, _ => Pending);
    }
  }

  /** The attempts and detections of the probes in the order in which they reported. */
  function AttemptsOf(cfg: Config, order: seq<nat>): seq<Attempt>
    requires WellFormed(cfg) && forall k :: 0 <= k < |order| ==> order[k] < |cfg.chains|
  {
    if order == [] then [] else AttemptsOf(cfg, order[..|order| - 1]) + [AttemptOf(cfg, order[|order| - 1])]
  }

  function SeenOf(cfg: Config, order: seq<nat>): seq<Detection>
    requires WellFormed(cfg) && forall k :: 0 <= k < |order| ==> order[k] < |cfg.chains|
  {
    if order == [] then []
    else
      var i := order[|order| - 1];
      SeenOf(cfg, order[..|order| - 1]) + if cfg.answers[i].Matched? then [DetectionOf(cfg, i)] else []
  }

  ghost predicate SomeMatch(cfg: Config, order: seq<nat>)
    requires WellFormed(cfg) && forall k :: 0 <= k < |order| ==> order[k] < |cfg.chains|
  {
    exists k :: 0 <= k < |order| && cfg.answers[order[k]].Matched?
  }

  /** Which probes have reported, each once. */
  predicate OrderOk(cfg: Config, s: State) {
    && |s.phases| == |cfg.chains|
    && (forall k :: 0 <= k < |s.order| ==> s.order[k] < |cfg.chains|)
    && (forall j, k :: 0 <= j < k < |s.order| ==> s.order[j] != s.order[k])
    && (forall i :: 0 <= i < |s.phases| ==> (s.phases[i] != Pending <==> i in s.order))
  }

  ghost predicate Inv(cfg: Config, s: State) {
    && WellFormed(cfg) && OrderOk(cfg, s)
    && s.remaining == NotDone(s.phases)
    && s.resolveCalls == (if s.resolved then 1 else 0)
    && (s.resolved <==> s.remaining == 0 || (!cfg.exhaustive && SomeMatch(cfg, s.order)))
    && s.seen == SeenOf(cfg, s.order)
    && (s.result.None? ==> s.attempts == AttemptsOf(cfg, s.order))
    && (s.result.Some? ==> s.resolved && s.result.value.attempts <= s.attempts)
    && (s.result.Some? && NoneInFlight(cfg) ==> s.attempts == s.result.value.attempts)
  }

  /** No probe can still be in flight when the wait ends. */
  predicate NoneInFlight(cfg: Config) {
    cfg.exhaustive || |cfg.chains| <= 1 || forall i :: 0 <= i < |cfg.answers| ==> !cfg.answers[i].Matched?
  }

  lemma NothingLeft(cfg: Config, s: State)
    requires Inv(cfg, s) && s.resolved && NoneInFlight(cfg)
    ensures forall i :: 0 <= i < |s.phases| ==> s.phases[i] != Pending
  {
    NotDoneZero(s.phases);
    if s.remaining != 0 {
      var k :| 0 <= k < |s.order| && cfg.answers[s.order[k]].Matched?;
      assert s.order[k] in s.order;
    }
  }

  lemma StartInv(cfg: Config)
    requires WellFormed(cfg)
    ensures Inv(cfg, Start(cfg))
  {
    NotDoneStart(|cfg.chains|);
  }

  lemma ReportOrder(cfg: Config, s: State, i: nat)
    requires WellFormed(cfg) && OrderOk(cfg, s) && Enabled(cfg, s, Report(i))
    ensures OrderOk(cfg, Step(cfg, s, Report(i)))
  {
    assert i !in s.order;
  }

  lemma MatchSnoc(cfg: Config, order: seq<nat>, i: nat)
    requires WellFormed(cfg) && i < |cfg.chains| && forall k :: 0 <= k < |order| ==> order[k] < |cfg.chains|
    ensures SomeMatch(cfg, order + [i]) <==> SomeMatch(cfg, order) || cfg.answers[i].Matched?
  {
    var more := order + [i];
    assert more[|order|] == i;
    if SomeMatch(cfg, order) {
      var k :| 0 <= k < |order| && cfg.answers[order[k]].Matched?;
      assert cfg.answers[more[k]].Matched?;
    }
  }

  lemma SeenSnoc(cfg: Config, order: seq<nat>, i: nat)
    requires WellFormed(cfg) && i < |cfg.chains| && forall k :: 0 <= k < |order| ==> order[k] < |cfg.chains|
    ensures SeenOf(cfg, order + [i]) ==
            SeenOf(cfg, order) + if cfg.answers[i].Matched? then [DetectionOf(cfg, i)] else []
  {
    assert (order + [i])[..|order|] == order;
  }

  lemma AttemptsSnoc(cfg: Config, order: seq<nat>, i: nat)
    requires WellFormed(cfg) && i < |cfg.chains| && forall k :: 0 <= k < |order| ==> order[k] < |cfg.chains|
    ensures AttemptsOf(cfg, order + [i]) == AttemptsOf(cfg, order) + [AttemptOf(cfg, i)]
  {
    assert (order + [i])[..|order|] == order;
  }

  lemma StepInv(cfg: Config, s: State, l: Label)
    requires Inv(cfg, s) && Enabled(cfg, s, l)
    ensures Inv(cfg, Step(cfg, s, l))
    ensures s.resolved ==> Step(cfg, s, l).resolved
    ensures s.result.Some? ==> Step(cfg, s, l).result == s.result
  {
    match l
    case Report(i) => ReportInv(cfg, s, i);
    case Finally(i) => FinallyInv(cfg, s, i);
    case Resume =>
  }

  lemma FinallyInv(cfg: Config, s: State, i: nat)
    requires Inv(cfg, s) && Enabled(cfg, s, Finally(i))
    ensures Inv(cfg, Step(cfg, s, Finally(i)))
  {
    NotDoneUpdate(s.phases, i, Done);
    FinallyOrder(cfg, s, i);
  }

  lemma FinallyOrder(cfg: Config, s: State, i: nat)
    requires WellFormed(cfg) && OrderOk(cfg, s) && Enabled(cfg, s, Finally(i))
    ensures OrderOk(cfg, Step(cfg, s, Finally(i)))
  {
  }

  lemma ReportInv(cfg: Config, s: State, i: nat)
    requires Inv(cfg, s) && Enabled(cfg, s, Report(i))
    ensures Inv(cfg, Step(cfg, s, Report(i)))
  {
    ReportOrder(cfg, s, i);
    MatchSnoc(cfg, s.order, i);
    SeenSnoc(cfg, s.order, i);
    AttemptsSnoc(cfg, s.order, i);
    NotDoneUpdate(s.phases, i, Reported);
    NotDoneZero(s.phases);
    if s.resolved && NoneInFlight(cfg) {
      NothingLeft(cfg, s);
    }
  }

  // ---------------------------------------------------------------- runs

  /** The adversary may name any label; one that is not enabled changes nothing. */
  function Run(cfg: Config, ls: seq<Label>): (s: State)
    requires WellFormed(cfg)
    ensures |s.phases| == |cfg.chains|
  {
    if ls == [] then Start(cfg)
    else
      var s := Run(cfg, ls[..|ls| - 1]);
      if Enabled(cfg, s, ls[|ls| - 1]) then Step(cfg, s, ls[|ls| - 1]) else s
  }

  lemma {:induction false} RunInv(cfg: Config, ls: seq<Label>)
    requires WellFormed(cfg)
    ensures Inv(cfg, Run(cfg, ls))
  {
    if ls == [] {
      StartInv(cfg);
    } else {
      RunInv(cfg, ls[..|ls| - 1]);
      var s := Run(cfg, ls[..|ls| - 1]);
      if Enabled(cfg, s, ls[|ls| - 1]) {
        StepInv(cfg, s, ls[|ls| - 1]);
      }
    }
  }

  predicate AllDone(s: State) {
    forall i :: 0 <= i < |s.phases| ==> s.phases[i] == Done
  }

  /**
   The wait is resolved at most once in every run, and has been once all probes are done;
   a result, once there, is never replaced.
   */
  lemma ResolvesOnce(cfg: Config, ls: seq<Label>, l: Label)
    requires WellFormed(cfg)
    ensures Run(cfg, ls).resolveCalls <= 1
    ensures AllDone(Run(cfg, ls)) ==> Run(cfg, ls).resolveCalls == 1
    ensures Run(cfg, ls).result.Some? ==> Run(cfg, ls + [l]).result == Run(cfg, ls).result
  {
    RunInv(cfg, ls);
    var s := Run(cfg, ls);
    NotDoneZero(s.phases);
    assert (ls + [l])[..|ls|] == ls;
    if Enabled(cfg, s, l) {
      StepInv(cfg, s, l);
    }
  }

  // ---------------------------------------------------------------- the winner

  /** Some probe of this chain matches. */
  ghost predicate ChainMatches(cfg: Config, chain: string)
    requires WellFormed(cfg)
  {
    exists j :: 0 <= j < |cfg.chains| && cfg.chains[j] == chain && cfg.answers[j].Matched?
  }

  /** The first position of the probe list whose chain matches at all. */
  ghost predicate FirstMatching(cfg: Config, i: nat)
    requires WellFormed(cfg)
  {
    && i < |cfg.chains| && ChainMatches(cfg, cfg.chains[i])
    && forall j :: 0 <= j < i ==> !ChainMatches(cfg, cfg.chains[j])
  }

  lemma {:induction false} SeenMembers(cfg: Config, order: seq<nat>, d: Detection)
    requires WellFormed(cfg) && forall k :: 0 <= k < |order| ==> order[k] < |cfg.chains|
    ensures d in SeenOf(cfg, order) <==>
            exists k :: 0 <= k < |order| && cfg.answers[order[k]].Matched? && DetectionOf(cfg, order[k]) == d
  {
    if order != [] {
      var n := |order| - 1;
      var front := order[..n];
      SeenMembers(cfg, front, d);
      if d in SeenOf(cfg, front) {
        var k :| 0 <= k < n && cfg.answers[front[k]].Matched? && DetectionOf(cfg, front[k]) == d;
        assert cfg.answers[order[k]].Matched? && DetectionOf(cfg, order[k]) == d;
      }
      if k :| 0 <= k < |order| && cfg.answers[order[k]].Matched? && DetectionOf(cfg, order[k]) == d {
        if k < n {
          assert cfg.answers[front[k]].Matched? && DetectionOf(cfg, front[k]) == d;
        }
      }
    }
  }

  lemma {:induction false} WinnerIsFirst(chains: seq<string>, seen: seq<Detection>)
    ensures Winner(chains, seen).None? <==>
            forall i :: 0 <= i < |chains| ==> FindChain(seen, chains[i]).None?
    ensures Winner(chains, seen).Some? ==>
              exists i :: 0 <= i < |chains| && FindChain(seen, chains[i]) == Winner(chains, seen) &&
                          forall j :: 0 <= j < i ==> FindChain(seen, chains[j]).None?
  {
    if chains != [] {
      var rest := chains[1..];
      WinnerIsFirst(rest, seen);
      if FindChain(seen, chains[0]).None? {
        assert forall i :: 0 < i < |chains| ==> chains[i] == rest[i - 1];
        if Winner(rest, seen).None? {
          assert forall i :: 0 <= i < |chains| ==> FindChain(seen, chains[i]).None?;
        } else {
          var i :| 0 <= i < |rest| && FindChain(seen, rest[i]) == Winner(rest, seen) &&
                   forall j :: 0 <= j < i ==> FindChain(seen, rest[j]).None?;
          forall j | 0 <= j < i + 1 ensures FindChain(seen, chains[j]).None? {
            if j > 0 {
              assert chains[j] == rest[j - 1];
            }
          }
          assert FindChain(seen, chains[i + 1]) == Winner(chains, seen);
        }
      }
    }
  }

  lemma SeenChain(cfg: Config, order: seq<nat>, chain: string)
    requires WellFormed(cfg) && forall k :: 0 <= k < |order| ==> order[k] < |cfg.chains|
    requires forall i :: 0 <= i < |cfg.chains| ==> i in order
    ensures FindChain(SeenOf(cfg, order), chain).Some? <==> ChainMatches(cfg, chain)
  {
    var seen := SeenOf(cfg, order);
    var r := FindChain(seen, chain);
    if r.Some? {
      SeenMembers(cfg, order, r.value);
      var k :| 0 <= k < |order| && cfg.answers[order[k]].Matched? && DetectionOf(cfg, order[k]) == r.value;
      assert cfg.chains[order[k]] == chain;
    }
    if ChainMatches(cfg, chain) {
      var j :| 0 <= j < |cfg.chains| && cfg.chains[j] == chain && cfg.answers[j].Matched?;
      SeenMembers(cfg, order, DetectionOf(cfg, j));
      assert j in order;
      var k :| 0 <= k < |order| && order[k] == j;
      assert DetectionOf(cfg, j) in seen;
      var m :| 0 <= m < |seen| && seen[m] == DetectionOf(cfg, j);
      assert seen[m].chain == chain;
    }
  }

  lemma MatchGivesWinner(cfg: Config, order: seq<nat>)
    requires WellFormed(cfg) && forall k :: 0 <= k < |order| ==> order[k] < |cfg.chains|
    requires SomeMatch(cfg, order)
    ensures Winner(cfg.chains, SeenOf(cfg, order)).Some?
  {
    var k :| 0 <= k < |order| && cfg.answers[order[k]].Matched?;
    var seen, d := SeenOf(cfg, order), DetectionOf(cfg, order[k]);
    SeenMembers(cfg, order, d);
    var m :| 0 <= m < |seen| && seen[m] == d;
    assert seen[m].chain == cfg.chains[order[k]];
    assert FindChain(seen, cfg.chains[order[k]]).Some?;
    WinnerIsFirst(cfg.chains, seen);
  }

  /** In any mode: no detection means that every probe finished and none matched. */
  lemma NoneMeansNoMatch(cfg: Config, ls: seq<Label>)
    requires WellFormed(cfg) && Enabled(cfg, Run(cfg, ls), Resume)
    ensures
      var s := Run(cfg, ls);
      var result := Step(cfg, s, Resume).result.value;
      && (result.detection.None? <==> AllDone(s) && forall i :: 0 <= i < |cfg.answers| ==> !cfg.answers[i].Matched?)
      && (result.detection.Some? ==>
            exists i :: 0 <= i < |cfg.answers| && i in s.order && cfg.answers[i].Matched? && result.detection.value == DetectionOf(cfg, i))
  {
    RunInv(cfg, ls);
    ResumeResult(cfg, Run(cfg, ls));
  }

  lemma ResumeResult(cfg: Config, s: State)
    requires Inv(cfg, s) && Enabled(cfg, s, Resume)
    ensures
      var result := Step(cfg, s, Resume).result.value;
      && (result.detection.None? <==> AllDone(s) && forall i :: 0 <= i < |cfg.answers| ==> !cfg.answers[i].Matched?)
      && (result.detection.Some? ==>
            exists i :: 0 <= i < |cfg.answers| && i in s.order && cfg.answers[i].Matched? && result.detection.value == DetectionOf(cfg, i))
  {
    NotDoneZero(s.phases);
    if SomeMatch(cfg, s.order) {
      MatchGivesWinner(cfg, s.order);
    }
    var w := Winner(cfg.chains, s.seen);
    if w.Some? {
      WinnerIsFirst(cfg.chains, s.seen);
      SeenMembers(cfg, s.order, w.value);
      var k :| 0 <= k < |s.order| && cfg.answers[s.order[k]].Matched? && DetectionOf(cfg, s.order[k]) == w.value;
      assert s.order[k] in s.order;
    } else {
      forall i | 0 <= i < |cfg.answers| ensures !cfg.answers[i].Matched? {
        assert s.phases[i] == Done && i in s.order;
        var k :| 0 <= k < |s.order| && s.order[k] == i;
      }
    }
  }

  predicate DistinctChains(cfg: Config) {
    forall j, k :: 0 <= j < k < |cfg.chains| ==> cfg.chains[j] != cfg.chains[k]
  }

  /** Once every probe has reported, in whatever order, the winner is settled. */
  lemma WinnerSettled(cfg: Config, order: seq<nat>, i: nat)
    requires WellFormed(cfg) && forall k :: 0 <= k < |order| ==> order[k] < |cfg.chains|
    requires forall j :: 0 <= j < |cfg.chains| ==> j in order
    requires FirstMatching(cfg, i)
    ensures
      var d := Winner(cfg.chains, SeenOf(cfg, order));
      && d.Some? && d.value.chain == cfg.chains[i]
      && (DistinctChains(cfg) ==> cfg.answers[i].Matched? && d.value == DetectionOf(cfg, i))
  {
    var seen := SeenOf(cfg, order);
    WinnerIsFirst(cfg.chains, seen);
    forall j | 0 <= j <= i ensures FindChain(seen, cfg.chains[j]).Some? <==> j == i {
      SeenChain(cfg, order, cfg.chains[j]);
    }
    var w := Winner(cfg.chains, seen);
    var m :| 0 <= m < |cfg.chains| && FindChain(seen, cfg.chains[m]) == w &&
             forall j :: 0 <= j < m ==> FindChain(seen, cfg.chains[j]).None?;
    assert m == i;
    SeenMembers(cfg, order, w.value);
    var k :| 0 <= k < |order| && cfg.answers[order[k]].Matched? && DetectionOf(cfg, order[k]) == w.value;
    assert cfg.chains[order[k]] == cfg.chains[i];
  }

  /**
   Exhaustive mode: whatever the schedule, the winner is a match of the first matching chain
   of the probe list, and with distinct chains it is one fixed detection.
   */
  lemma ExhaustiveWinner(cfg: Config, ls: seq<Label>, i: nat)
    requires WellFormed(cfg) && cfg.exhaustive && Enabled(cfg, Run(cfg, ls), Resume)
    requires FirstMatching(cfg, i)
    ensures
      var d := Step(cfg, Run(cfg, ls), Resume).result.value.detection;
      && d.Some? && d.value.chain == cfg.chains[i]
      && (DistinctChains(cfg) ==> cfg.answers[i].Matched? && d.value == DetectionOf(cfg, i))
  {
    RunInv(cfg, ls);
    var s := Run(cfg, ls);
    NotDoneZero(s.phases);
    assert forall j :: 0 <= j < |cfg.chains| ==> s.phases[j] == Done && j in s.order;
    WinnerSettled(cfg, s.order, i);
  }

  // ---------------------------------------------------------------- the attempts

  /** The reported probes with the given verdict, in the order in which they completed. */
  function OnlyOrder(cfg: Config, order: seq<nat>, matched: bool): seq<nat>
    requires WellFormed(cfg) && forall k :: 0 <= k < |order| ==> order[k] < |cfg.chains|
    ensures forall k :: 0 <= k < |OnlyOrder(cfg, order, matched)| ==>
              OnlyOrder(cfg, order, matched)[k] < |cfg.chains|
  {
    if order == [] then []
    else
      OnlyOrder(cfg, order[..|order| - 1], matched) +
      if cfg.answers[order[|order| - 1]].Matched? == matched then [order[|order| - 1]] else []
  }

  lemma OnlySnoc(a: seq<Attempt>, x: Attempt, matched: bool)
    ensures Only(a + [x], matched) == Only(a, matched) + if x.matched == matched then [x] else []
  {
    assert (a + [x])[..|a|] == a;
  }

  lemma {:induction false} OnlyAttempts(cfg: Config, order: seq<nat>, matched: bool)
    requires WellFormed(cfg) && forall k :: 0 <= k < |order| ==> order[k] < |cfg.chains|
    ensures Only(AttemptsOf(cfg, order), matched) == AttemptsOf(cfg, OnlyOrder(cfg, order, matched))
  {
    if order != [] {
      var front, i := order[..|order| - 1], order[|order| - 1];
      var a, x, picked := AttemptsOf(cfg, front), AttemptOf(cfg, i), OnlyOrder(cfg, front, matched);
      OnlyAttempts(cfg, front, matched);
      assert AttemptsOf(cfg, order) == a + [x] && x.matched == cfg.answers[i].Matched?;
      OnlySnoc(a, x, matched);
      if x.matched == matched {
        assert OnlyOrder(cfg, order, matched) == picked + [i];
        AttemptsSnoc(cfg, picked, i);
      } else {
        assert OnlyOrder(cfg, order, matched) == picked;
      }
    }
  }

  lemma {:induction false} OnlyIsPermutation(a: seq<Attempt>)
    ensures multiset(MatchedFirst(a)) == multiset(a)
  {
    if a != [] {
      var n := |a| - 1;
      OnlyIsPermutation(a[..n]);
      assert a == a[..n] + [a[n]];
    }
  }

  /**
   The attempts of a result are those of the probes that had reported, one per probe, the
   matched ones first, each group in completion order; in exhaustive mode that is every probe.
   */
  lemma ResultAttempts(cfg: Config, ls: seq<Label>)
    requires WellFormed(cfg) && Enabled(cfg, Run(cfg, ls), Resume)
    ensures
      var s := Run(cfg, ls);
      && OrderOk(cfg, s)
      && var r := Step(cfg, s, Resume).result.value.attempts;
         && r == AttemptsOf(cfg, OnlyOrder(cfg, s.order, true)) + AttemptsOf(cfg, OnlyOrder(cfg, s.order, false))
         && multiset(r) == multiset(AttemptsOf(cfg, s.order))
         && (cfg.exhaustive ==> forall i :: 0 <= i < |cfg.chains| ==> i in s.order)
  {
    RunInv(cfg, ls);
    var s := Run(cfg, ls);
    OnlyAttempts(cfg, s.order, true);
    OnlyAttempts(cfg, s.order, false);
    OnlyIsPermutation(s.attempts);
    NotDoneZero(s.phases);
    if cfg.exhaustive {
      assert forall i :: 0 <= i < |cfg.chains| ==> s.phases[i] == Done && i in s.order;
    }
  }

  /** The returned list is the array the callbacks push to: later reports are appended behind it. */
  lemma LateAttempts(cfg: Config, ls: seq<Label>)
    requires WellFormed(cfg) && Run(cfg, ls).result.Some?
    ensures Run(cfg, ls).result.value.attempts <= Run(cfg, ls).attempts
  {
    RunInv(cfg, ls);
  }

  ghost predicate StaysAsReturned(cfg: Config, ls: seq<Label>)
    requires WellFormed(cfg)
  {
    var s := Run(cfg, ls);
    s.result.Some? ==> s.attempts == s.result.value.attempts
  }

  /**
   The list a caller gets is final in every run exactly in exhaustive mode, with at most one
   chain, or when no probe matches.
   */
  lemma AttemptsFinalIff(cfg: Config)
    requires WellFormed(cfg)
    ensures (forall ls :: StaysAsReturned(cfg, ls)) <==> NoneInFlight(cfg)
  {
    if NoneInFlight(cfg) {
      forall ls ensures StaysAsReturned(cfg, ls) {
        RunInv(cfg, ls);
      }
    } else {
      var i :| 0 <= i < |cfg.answers| && cfg.answers[i].Matched?;
      LateAttemptsGrow(cfg, i, if i == 0 then 1 else 0);
    }
  }

  /** What a caller can check before the call: it is final whatever the chains answer. */
  lemma AttemptsFinalForAllAnswersIff(chains: seq<string>, exhaustive: bool)
    ensures (forall answers: seq<Answer>, ls :: |answers| == |chains| ==>
               StaysAsReturned(Config(chains, answers, exhaustive), ls))
            <==> exhaustive || |chains| <= 1
  {
    if exhaustive || |chains| <= 1 {
      forall answers: seq<Answer>, ls | |answers| == |chains|
        ensures StaysAsReturned(Config(chains, answers, exhaustive), ls)
      {
        AttemptsFinalIff(Config(chains, answers, exhaustive));
      }
    } else {
      var answers := seq(|chains|, _ => Matched("INBOUND_FROM_EOA", 0));
      LateAttemptsGrow(Config(chains, answers, exhaustive), 0, 1);
    }
  }

  /** A schedule in which the caller's list grows after the call has returned, whenever it can. */
  lemma LateAttemptsGrow(cfg: Config, i: nat, j: nat)
    requires WellFormed(cfg) && !cfg.exhaustive
    requires i < |cfg.chains| && j < |cfg.chains| && i != j && cfg.answers[i].Matched?
    ensures
      var s := Run(cfg, [Report(i), Resume, Report(j)]);
      s.result.Some? && s.attempts == s.result.value.attempts + [AttemptOf(cfg, j)]
    ensures !StaysAsReturned(cfg, [Report(i), Resume, Report(j)])
  {
    var s0 := Start(cfg);
    var s1 := Step(cfg, s0, Report(i));
    RunSnoc(cfg, [], Report(i));
    assert [] + [Report(i)] == [Report(i)];
    SingleAttempt(AttemptOf(cfg, i));
    RunSnoc(cfg, [Report(i)], Resume);
    assert [Report(i)] + [Resume] == [Report(i), Resume];
    RunSnoc(cfg, [Report(i), Resume], Report(j));
    assert [Report(i), Resume] + [Report(j)] == [Report(i), Resume, Report(j)];
    assert s1.attempts == [AttemptOf(cfg, i)];
  }

  lemma SingleAttempt(a: Attempt)
    ensures MatchedFirst([a]) == [a]
  {
    OnlySnoc([], a, true);
    OnlySnoc([], a, false);
    assert [] + [a] == [a];
  }

  lemma RunSnoc(cfg: Config, ls: seq<Label>, l: Label)
    requires WellFormed(cfg)
    ensures Run(cfg, ls + [l]) ==
            if Enabled(cfg, Run(cfg, ls), l) then Step(cfg, Run(cfg, ls), l) else Run(cfg, ls)
  {
    assert (ls + [l])[..|ls|] == ls;
  }

  // ---------------------------------------------------------------- the class

  class Detector {
    const cfg: Config
    var phases: seq<Phase>
    var remaining: int
    var resolved: bool
    var resolveCalls: nat
    var attempts: seq<Attempt>
    var seen: seq<Detection>
    var order: seq<nat>
    var result: Option<Result>

    function Now(): State
      reads this
    {
      State(phases, remaining, resolved, resolveCalls, attempts, seen, order, result)
    }

    ghost predicate Valid()
      reads this
    {
      Inv(cfg, Now())
    }

    constructor (cfg: Config)
      requires WellFormed(cfg)
      ensures this.cfg == cfg && Now() == Start(cfg) && Valid()
    {
      this.cfg := cfg;
      phases := seq(|cfg.chains|, _ => Pending);
      remaining := |cfg.chains|;
      resolved := cfg.chains == [];
      resolveCalls := if cfg.chains == [] then 1 else 0;
      attempts, seen, order, result := [], [], [], None;
      new;
      StartInv(cfg);
    }

    method FinishNow()
      modifies this
      ensures Now() == Finish(old(Now()))
    {
      if resolved {
        return;
      }
      resolved := true;
      resolveCalls := resolveCalls + 1;
    }

    /** The `then` and `catch` callbacks: a late one never resolves again or touches a result. */
    method OnReport(i: nat)
      requires Valid() && Enabled(cfg, Now(), Report(i))
      modifies this
      ensures Valid() && Now() == Step(cfg, old(Now()), Report(i))
      ensures resolveCalls == (if resolved then 1 else 0) && result == old(result)
      ensures old(attempts) <= attempts && |attempts| == |old(attempts)| + 1
    {
      ghost var before := Now();
      phases := phases[i := Reported];
      order := order + [i];
      attempts := attempts + [AttemptOf(cfg, i)];
      if cfg.answers[i].Matched? {
        seen := seen + [DetectionOf(cfg, i)];
        if !cfg.exhaustive {
          FinishNow();
        }
      }
      assert Now() == Step(cfg, before, Report(i));
      StepInv(cfg, before, Report(i));
    }

    /** The last one to run resolves the wait, if nothing has yet. */
    method OnFinally(i: nat)
      requires Valid() && Enabled(cfg, Now(), Finally(i))
      modifies this
      ensures Valid() && Now() == Step(cfg, old(Now()), Finally(i))
      ensures resolveCalls == (if resolved then 1 else 0) && result == old(result)
      ensures AllDone(Now()) ==> resolved
    {
      ghost var before := Now();
      phases := phases[i := Done];
      remaining := remaining - 1;
      if remaining == 0 {
        FinishNow();
      }
      assert Now() == Step(cfg, before, Finally(i));
      StepInv(cfg, before, Finally(i));
      NotDoneZero(phases);
    }

    /** What runs after the wait: sort in place, pick the winner. No winner means no probe matched. */
    method OnResume()
      requires Valid() && Enabled(cfg, Now(), Resume)
      modifies this
      ensures Valid() && Now() == Step(cfg, old(Now()), Resume)
      ensures result.Some? && multiset(attempts) == multiset(old(attempts))
      ensures result.value.detection.None? <==>
              AllDone(Now()) && forall i :: 0 <= i < |cfg.answers| ==> !cfg.answers[i].Matched?
    {
      StepInv(cfg, Now(), Resume);
      ResumeResult(cfg, Now());
      OnlyIsPermutation(attempts);
      attempts := MatchedFirst(attempts);
      result := Some(Result(Winner(cfg.chains, seen), attempts));
    }
  }

  /** The event loop: a schedule played on the object is a run. */
  method Play(cfg: Config, ls: seq<Label>) returns (d: Detector)
    requires WellFormed(cfg)
    ensures fresh(d) && d.cfg == cfg && d.Valid() && d.Now() == Run(cfg, ls)
  {
    d := new Detector(cfg);
    for n := 0 to |ls|
      invariant fresh(d) && d.cfg == cfg && d.Valid() && d.Now() == Run(cfg, ls[..n])
    {
      assert ls[..n + 1][..n] == ls[..n];
      if Enabled(cfg, d.Now(), ls[n]) {
        match ls[n]
        case Report(i) => d.OnReport(i);
        case Finally(i) => d.OnFinally(i);
        case Resume => d.OnResume();
      }
    }
    assert ls[..|ls|] == ls;
  }
}

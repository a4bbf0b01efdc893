/**
 Failover over RPC endpoints: `executeWithRpcFallback` and `executeWithArchiveFallback` of the
 Push client, and `executeWithFallback` of the Solana client.  What an endpoint answers to an
 attempt is arbitrary; one call is in flight at a time.
 */
module RpcFallback {
  import opened Wrappers
  import opened Arithmetic

  /** A failure is transient when its message names a 5xx, a timeout or a network error. */
  datatype Reply<V> = Answer(value: V) | Failure(transient: bool)

  /** The reply to the i-th attempt of a call, made at the given URL. */
  type Oracle<!V> = (nat, string) -> Reply<V>

  const RETRIES_PER_URL: nat := 4

  // ---------------------------------------------------------------- rotation

  /** The first `k` indices tried from a cursor, in order. */
  function Rotation(base: nat, n: nat, k: nat): (r: seq<nat>)
    requires n > 0
    ensures |r| == k
  {
    if k == 0 then [] else Rotation(base, n, k - 1) + [(base + (k - 1)) % n]
  }

  lemma {:induction false} RotationAt(base: nat, n: nat, k: nat)
    requires n > 0
    ensures forall i :: 0 <= i < k ==> Rotation(base, n, k)[i] == (base + i) % n
  {
    if k > 0 {
      RotationAt(base, n, k - 1);
    }
  }

  function Count(s: seq<nat>, x: nat): nat {
    if s == [] then 0 else Count(s[..|s| - 1], x) + if s[|s| - 1] == x then 1 else 0
  }

  lemma {:induction false} CountConcat(a: seq<nat>, b: seq<nat>, x: nat)
    ensures Count(a + b, x) == Count(a, x) + Count(b, x)
  {
    if b == [] {
      assert a + b == a;
    } else {
      CountConcat(a, b[..|b| - 1], x);
      assert (a + b)[..|a + b| - 1] == a + b[..|b| - 1];
    }
  }

  function Range(lo: nat, hi: nat): (r: seq<nat>)
    requires lo <= hi
    ensures |r| == hi - lo
    ensures forall i :: 0 <= i < |r| ==> r[i] == lo + i
    decreases hi
  {
    if lo == hi then [] else Range(lo, hi - 1) + [hi - 1]
  }

  lemma {:induction false} CountRange(lo: nat, hi: nat, x: nat)
    requires lo <= hi
    ensures Count(Range(lo, hi), x) == if lo <= x < hi then 1 else 0
    decreases hi
  {
    if lo < hi {
      CountRange(lo, hi - 1, x);
    }
  }

  lemma ModSmall(x: nat, n: nat)
    requires x < 2 * n
    ensures x % n == if x < n then x else x - n
  {
  }

  lemma {:induction false} ModShift(x: nat, n: nat, c: nat)
    requires n > 0
    ensures (x + c * n) % n == x % n
  {
    if c > 0 {
      ModShift(x, n, c - 1);
      assert x + c * n == (x + (c - 1) * n) + n;
      ModPlus(x + (c - 1) * n, n);
    }
  }

  lemma ModPlus(x: nat, n: nat)
    requires n > 0
    ensures (x + n) % n == x % n
  {
    var q, r := x / n, x % n;
    assert x + n == n * (q + 1) + r;
    Euclid(x + n, n, q + 1, r);
  }

  /** One full turn from a cursor: up to the end of the list, then from its start. */
  lemma OneTurn(base: nat, n: nat, x: nat)
    requires base < n
    ensures Count(Rotation(base, n, n), x) == if x < n then 1 else 0
  {
    RotationAt(base, n, n);
    forall i | 0 <= i < n ensures Rotation(base, n, n)[i] == (Range(base, n) + Range(0, base))[i] {
      ModSmall(base + i, n);
    }
    assert Rotation(base, n, n) == Range(base, n) + Range(0, base);
    CountConcat(Range(base, n), Range(0, base), x);
    CountRange(base, n, x);
    CountRange(0, base, x);
  }

  lemma RotationTurns(base: nat, n: nat, c: nat)
    requires n > 0
    ensures Rotation(base, n, (c + 1) * n) == Rotation(base, n, c * n) + Rotation(base, n, n)
  {
    var whole, parts := Rotation(base, n, (c + 1) * n), Rotation(base, n, c * n) + Rotation(base, n, n);
    assert (c + 1) * n == c * n + n;
    RotationAt(base, n, (c + 1) * n);
    RotationAt(base, n, c * n);
    RotationAt(base, n, n);
    forall i | 0 <= i < |whole| ensures whole[i] == parts[i] {
      if i >= c * n {
        assert base + i == (base + (i - c * n)) + c * n;
        ModShift(base + (i - c * n), n, c);
      }
    }
  }

  /** Over `c` turns every URL of the list is tried exactly `c` times. */
  lemma {:induction false} FairRotation(base: nat, n: nat, c: nat, x: nat)
    requires base < n
    ensures Count(Rotation(base, n, c * n), x) == if x < n then c else 0
  {
    if c > 0 {
      FairRotation(base, n, c - 1, x);
      RotationTurns(base, n, c - 1);
      OneTurn(base, n, x);
      CountConcat(Rotation(base, n, (c - 1) * n), Rotation(base, n, n), x);
    }
  }

  // ---------------------------------------------------------------- backoff

  function Pow2(k: nat): nat {
    if k == 0 then 1 else 2 * Pow2(k - 1)
  }

  function Min(a: nat, b: nat): nat {
    if a < b then a else b
  }

  /** Milliseconds waited after a failed attempt that is not the last. */
  function Delay(attempt: nat, n: nat, transient: bool): nat
    requires n > 0
  {
    if transient then Min(2000, 200 * Pow2(attempt / n)) else 100
  }

  /** The total wait of a call whose attempts all fail; nobody waits after the last one. */
  function TotalDelay(urls: seq<string>, base: nat, oracle: Oracle, k: nat): nat
    requires |urls| > 0
  {
    if k == 0 then 0
    else
      var reply := oracle(k - 1, urls[(base + (k - 1)) % |urls|]);
      TotalDelay(urls, base, oracle, k - 1) + Delay(k - 1, |urls|, reply.Failure? && reply.transient)
  }

  /** The largest sum of the first `k` waits. */
  function MaxDelay(n: nat, k: nat): nat
    requires n > 0
  {
    if k == 0 then 0 else MaxDelay(n, k - 1) + Delay(k - 1, n, true)
  }

  lemma DelayAtMost(attempt: nat, n: nat)
    requires n > 0
    ensures 100 <= Delay(attempt, n, true) <= 2000
  {
    Pow2Positive(attempt / n);
  }

  lemma {:induction false} Pow2Positive(k: nat)
    ensures Pow2(k) >= 1
  {
    if k > 0 {
      Pow2Positive(k - 1);
    }
  }

  lemma {:induction false} TotalBelowMax(urls: seq<string>, base: nat, oracle: Oracle, k: nat)
    requires |urls| > 0
    ensures TotalDelay(urls, base, oracle, k) <= MaxDelay(|urls|, k)
  {
    if k > 0 {
      TotalBelowMax(urls, base, oracle, k - 1);
      DelayAtMost(k - 1, |urls|);
    }
  }

  /** The wait of a transient failure in turn `c`. */
  function TurnWait(c: nat): nat {
    Min(2000, 200 * Pow2(c))
  }

  /** A stretch of equal waits. */
  lemma {:induction false} EqualWaits(n: nat, m: nat, w: nat, j: nat)
    requires 0 < n && forall i {:trigger Delay(i, n, true)} :: m <= i < m + j ==> Delay(i, n, true) == w
    ensures MaxDelay(n, m + j) == MaxDelay(n, m) + j * w
    decreases j
  {
    if j > 0 {
      EqualWaits(n, m, w, j - 1);
      assert j * w == (j - 1) * w + w;
    }
  }

  /** Within turn `c`, which starts at attempt `m`, every wait is the same. */
  lemma TurnDelay(n: nat, c: nat, m: nat, w: nat, j: nat)
    requires 0 < n && j <= n && m == c * n && w == TurnWait(c)
    ensures MaxDelay(n, m + j) == MaxDelay(n, m) + j * w
  {
    forall i {:trigger Delay(i, n, true)} | m <= i < m + j ensures Delay(i, n, true) == w {
      Euclid(i, n, c, i - m);
    }
    EqualWaits(n, m, w, j);
  }

  lemma TurnWaits()
    ensures TurnWait(0) == 200 && TurnWait(1) == 400 && TurnWait(2) == 800 && TurnWait(3) == 1600 && TurnWait(4) == 2000
  {
    assert Pow2(1) == 2 && Pow2(2) == 4;
    assert Pow2(3) == 2 * Pow2(2) && Pow2(4) == 2 * Pow2(3);
  }

  lemma FourTurns(n: nat)
    requires n > 0
    ensures MaxDelay(n, 4 * n) == 3000 * n
  {
    TurnWaits();
    TurnDelay(n, 0, 0, 200, n);
    TurnDelay(n, 1, n, 400, n);
    TurnDelay(n, 2, 2 * n, 800, n);
    TurnDelay(n, 3, 3 * n, 1600, n);
  }

  /** Five turns of transient failures wait 200 + 400 + 800 + 1600 + 2000 ms per URL. */
  lemma FiveTurns(n: nat)
    requires n > 0
    ensures MaxDelay(n, 4 * n + n) == 5000 * n
    ensures MaxDelay(n, 4 * n + (n - 1)) == 5000 * n - 2000
  {
    FourTurns(n);
    TurnWaits();
    TurnDelay(n, 4, 4 * n, 2000, n);
    TurnDelay(n, 4, 4 * n, 2000, n - 1);
  }

  /** Failures that are not transient wait 100 ms each, whatever the turn. */
  lemma {:induction false} PlainFailuresWait(urls: seq<string>, base: nat, oracle: Oracle, k: nat)
    requires urls != []
    requires forall i, u :: oracle(i, u) == Failure(false)
    ensures TotalDelay(urls, base, oracle, k) == 100 * k
  {
    if k > 0 {
      PlainFailuresWait(urls, base, oracle, k - 1);
    }
  }

  /** In turn `c` a transient failure waits twice as long as in the turn before, up to two seconds. */
  lemma TransientWait(n: nat, c: nat, j: nat)
    requires j < n
    ensures Delay(c * n + j, n, true) == if c < 4 then [200, 400, 800, 1600][c] else 2000
  {
    Euclid(c * n + j, n, c, j);
    TurnWaits();
    if c >= 4 {
      Pow2Grows(4, c);
    }
  }

  lemma {:induction false} Pow2Grows(a: nat, b: nat)
    requires a <= b
    ensures Pow2(a) <= Pow2(b)
  {
    if a < b {
      Pow2Grows(a, b - 1);
    }
  }

  // ---------------------------------------------------------------- what one call does

  ghost predicate AllFail<V(!new)>(urls: seq<string>, base: nat, oracle: Oracle<V>, k: nat)
    requires |urls| > 0
  {
    forall i :: 0 <= i < k ==> ReplyTo(urls, base, oracle, i).Failure?
  }

  function ReplyTo<V>(urls: seq<string>, base: nat, oracle: Oracle<V>, i: nat): Reply<V>
    requires |urls| > 0
  {
    oracle(i, urls[(base + i) % |urls|])
  }

  /**
   What a pass over a URL list with a bound on attempts must do: stop at the first success in
   rotation order from the cursor, or fail after exactly the bound.
   */
  ghost predicate PassOk<V(!new)>(
    urls: seq<string>, base: nat, oracle: Oracle<V>, bound: nat, r: Option<V>, tried: seq<nat>, waited: nat)
  {
    if |urls| == 0 then r.None? && tried == [] && waited == 0
    else
      && |tried| <= bound
      && tried == Rotation(base, |urls|, |tried|)
      && match r
         case Some(v) =>
           && |tried| > 0
           && AllFail(urls, base, oracle, |tried| - 1)
           && ReplyTo(urls, base, oracle, |tried| - 1) == Answer(v)
         case None => |tried| == bound && AllFail(urls, base, oracle, bound)
  }

  /** One wait after each failed attempt but the last. */
  predicate WaitOk(urls: seq<string>, base: nat, oracle: Oracle, tried: seq<nat>, waited: nat) {
    if urls == [] || tried == [] then waited == 0
    else waited == TotalDelay(urls, base, oracle, |tried| - 1)
  }

  function Attempts(urls: seq<string>): nat {
    |urls| * (RETRIES_PER_URL + 1)
  }

  /** The waits before attempt number `attempt`; there is none after the last attempt. */
  function Waits(urls: seq<string>, attempt: nat): nat {
    if attempt == Attempts(urls) && attempt > 0 then attempt - 1 else attempt
  }

  /** What is known before attempt number `attempt`. */
  ghost predicate Progress<V(!new)>(
    urls: seq<string>, base: nat, oracle: Oracle<V>, attempt: nat, tried: seq<nat>, waited: nat)
  {
    && |urls| > 0
    && tried == Rotation(base, |urls|, attempt)
    && AllFail(urls, base, oracle, attempt)
    && waited == TotalDelay(urls, base, oracle, Waits(urls, attempt))
  }

  lemma AfterFailure<V(!new)>(
    urls: seq<string>, base: nat, oracle: Oracle<V>, attempt: nat, tried: seq<nat>, waited: nat, reply: Reply<V>)
    requires Progress(urls, base, oracle, attempt, tried, waited) && attempt < Attempts(urls)
    requires reply == ReplyTo(urls, base, oracle, attempt) && reply.Failure?
    ensures Progress(urls, base, oracle, attempt + 1, tried + [(base + attempt) % |urls|],
                     if attempt == Attempts(urls) - 1 then waited else waited + Delay(attempt, |urls|, reply.transient))
  {
  }

  lemma AfterAnswer<V(!new)>(
    urls: seq<string>, base: nat, oracle: Oracle<V>, attempt: nat, tried: seq<nat>, waited: nat, v: V)
    requires Progress(urls, base, oracle, attempt, tried, waited) && attempt < Attempts(urls)
    requires ReplyTo(urls, base, oracle, attempt) == Answer(v)
    ensures PassOk(urls, base, oracle, Attempts(urls), Some(v), tried + [(base + attempt) % |urls|], waited)
    ensures WaitOk(urls, base, oracle, tried + [(base + attempt) % |urls|], waited)
  {
    assert tried + [(base + attempt) % |urls|] == Rotation(base, |urls|, attempt + 1);
  }

  lemma AfterAll<V(!new)>(urls: seq<string>, base: nat, oracle: Oracle<V>, tried: seq<nat>, waited: nat)
    requires Progress(urls, base, oracle, Attempts(urls), tried, waited)
    ensures PassOk(urls, base, oracle, Attempts(urls), None, tried, waited)
    ensures WaitOk(urls, base, oracle, tried, waited)
  {
  }

  class PushClient<V(!new)> {
    const tendermintRpc: seq<string>
    const archiveTendermintRpc: seq<string>
    var currentRpcIndex: nat

    predicate Valid()
      reads this
    {
      currentRpcIndex < |tendermintRpc| || tendermintRpc == []
    }

    constructor (tendermintRpc: seq<string>, archiveTendermintRpc: seq<string>)
      ensures this.tendermintRpc == tendermintRpc && this.archiveTendermintRpc == archiveTendermintRpc
      ensures Valid() && currentRpcIndex == 0
    {
      this.tendermintRpc := tendermintRpc;
      this.archiveTendermintRpc := archiveTendermintRpc;
      currentRpcIndex := 0;
    }

    /** One attempt: the cursor is read again, and moved when a sticky attempt is answered. */
    method TryOnce(oracle: Oracle<V>, rpcUrls: seq<string>, sticky: bool, attempt: nat)
      returns (rpcIndex: nat, reply: Reply<V>)
      requires rpcUrls != []
      modifies this
      ensures rpcIndex == ((if sticky then old(currentRpcIndex) else 0) + attempt) % |rpcUrls|
      ensures reply == ReplyTo(rpcUrls, if sticky then old(currentRpcIndex) else 0, oracle, attempt)
      ensures currentRpcIndex == if sticky && reply.Answer? then rpcIndex else old(currentRpcIndex)
    {
      var baseIndex := if sticky then currentRpcIndex else 0;
      rpcIndex := (baseIndex + attempt) % |rpcUrls|;
      reply := oracle(attempt, rpcUrls[rpcIndex]);
      if reply.Answer? && sticky && rpcIndex != currentRpcIndex {
        currentRpcIndex := rpcIndex;
      }
    }

    /** The body of the loop: one attempt, and the wait after a failure that is not the last. */
    method Attempt(
      oracle: Oracle<V>, rpcUrls: seq<string>, sticky: bool, attempt: nat, before: seq<nat>, waitedBefore: nat)
      returns (r: Option<V>, tried: seq<nat>, waited: nat)
      requires attempt < Attempts(rpcUrls)
      requires Progress(rpcUrls, if sticky then currentRpcIndex else 0, oracle, attempt, before, waitedBefore)
      modifies this
      ensures |tried| == attempt + 1
      ensures r.None? ==> currentRpcIndex == old(currentRpcIndex)
      ensures r.None? ==>
                Progress(rpcUrls, if sticky then old(currentRpcIndex) else 0, oracle, attempt + 1, tried, waited)
      ensures r.Some? ==> currentRpcIndex == if sticky then tried[attempt] else old(currentRpcIndex)
      ensures r.Some? ==> tried[attempt] < |rpcUrls|
      ensures r.Some? ==>
                && PassOk(rpcUrls, if sticky then old(currentRpcIndex) else 0, oracle, Attempts(rpcUrls), r, tried, waited)
                && WaitOk(rpcUrls, if sticky then old(currentRpcIndex) else 0, oracle, tried, waited)
    {
      ghost var base := if sticky then currentRpcIndex else 0;
      var rpcIndex, reply := TryOnce(oracle, rpcUrls, sticky, attempt);
      tried, waited := before + [rpcIndex], waitedBefore;
      if reply.Answer? {
        AfterAnswer(rpcUrls, base, oracle, attempt, before, waited, reply.value);
        return Some(reply.value), tried, waited;
      }
      AfterFailure(rpcUrls, base, oracle, attempt, before, waited, reply);
      if attempt != Attempts(rpcUrls) - 1 {
        waited := waited + Delay(attempt, |rpcUrls|, reply.transient);
      }
      r := None;
    }

    /** `executeWithRpcFallback`; only the primary pool is sticky. */
    method ExecuteWithRpcFallback(oracle: Oracle<V>, rpcUrls: seq<string>, sticky: bool)
      returns (r: Option<V>, tried: seq<nat>, waited: nat)
      requires Valid() && (sticky ==> rpcUrls == tendermintRpc)
      modifies this
      ensures Valid()
      ensures PassOk(rpcUrls, if sticky then old(currentRpcIndex) else 0, oracle, Attempts(rpcUrls), r, tried, waited)
      ensures currentRpcIndex == if sticky && r.Some? then tried[|tried| - 1] else old(currentRpcIndex)
      ensures WaitOk(rpcUrls, if sticky then old(currentRpcIndex) else 0, oracle, tried, waited)
    {
      tried, waited, r := [], 0, None;
      if rpcUrls == [] {
        return;
      }
      var totalAttempts := Attempts(rpcUrls);
      ghost var base := if sticky then currentRpcIndex else 0;
      var attempt := 0;
      while attempt < totalAttempts
        invariant attempt <= totalAttempts
        invariant currentRpcIndex == old(currentRpcIndex) && r.None?
        invariant Progress(rpcUrls, base, oracle, attempt, tried, waited)
      {
        r, tried, waited := Attempt(oracle, rpcUrls, sticky, attempt, tried, waited);
        if r.Some? {
          return;
        }
        attempt := attempt + 1;
      }
      AfterAll(rpcUrls, base, oracle, tried, waited);
    }

    /**
     `executeWithArchiveFallback`: the archive pool is asked only when the primary pool threw
     or answered with an empty value, and its pass never moves the cursor. An answer that is
     `undefined` is no miss.
     */
    method ExecuteWithArchiveFallback(
      oracle: Oracle<V>, archiveOracle: Oracle<V>, isUndefined: V -> bool, isEmpty: V -> bool)
      returns (r: Option<V>, tried: seq<nat>, archiveTried: seq<nat>, waited: nat, archiveWaited: nat, ghost pruned: Option<V>)
      requires Valid()
      modifies this
      ensures Valid()
      ensures PassOk(tendermintRpc, old(currentRpcIndex), oracle, Attempts(tendermintRpc), pruned, tried, waited)
      ensures WaitOk(tendermintRpc, old(currentRpcIndex), oracle, tried, waited)
      ensures currentRpcIndex == if pruned.Some? then tried[|tried| - 1] else old(currentRpcIndex)
      ensures var missed := pruned.None? || (!isUndefined(pruned.value) && isEmpty(pruned.value));
              if !missed || archiveTendermintRpc == [] then r == pruned && archiveTried == [] && archiveWaited == 0
              else
                && PassOk(archiveTendermintRpc, 0, archiveOracle, Attempts(archiveTendermintRpc),
                          r, archiveTried, archiveWaited)
                && WaitOk(archiveTendermintRpc, 0, archiveOracle, archiveTried, archiveWaited)
    {
      archiveTried, archiveWaited := [], 0;
      r, tried, waited := ExecuteWithRpcFallback(oracle, tendermintRpc, true);
      pruned := r;
      var missed := r.None? || (!isUndefined(r.value) && isEmpty(r.value));
      if missed && archiveTendermintRpc != [] {
        r, archiveTried, archiveWaited := ExecuteWithRpcFallback(archiveOracle, archiveTendermintRpc, false);
      }
    }
  }

  class SvmClient<V(!new)> {
    const connections: seq<string>
    var currentConnectionIndex: nat

    predicate Valid()
      reads this
    {
      currentConnectionIndex < |connections|
    }

    /** The constructor refuses an empty list. */
    constructor (rpcUrls: seq<string>)
      requires rpcUrls != []
      ensures connections == rpcUrls && Valid() && currentConnectionIndex == 0
    {
      connections := rpcUrls;
      currentConnectionIndex := 0;
    }

    /** `executeWithFallback`: one attempt per endpoint, 100 ms apart. */
    method ExecuteWithFallback(oracle: Oracle<V>) returns (r: Option<V>, tried: seq<nat>, waited: nat)
      requires Valid()
      modifies this
      ensures Valid()
      ensures PassOk(connections, old(currentConnectionIndex), oracle, |connections|, r, tried, waited)
      ensures currentConnectionIndex == if r.Some? then tried[|tried| - 1] else old(currentConnectionIndex)
      ensures |tried| > 0 && waited == 100 * (|tried| - 1)
    {
      tried, waited, r := [], 0, None;
      var attempt := 0;
      ghost var base := currentConnectionIndex;
      while attempt < |connections|
        invariant 0 <= attempt <= |connections|
        invariant currentConnectionIndex == base
        invariant tried == Rotation(base, |connections|, attempt)
        invariant AllFail(connections, base, oracle, attempt)
        invariant waited == 100 * if attempt == |connections| then attempt - 1 else attempt
      {
        var index := (currentConnectionIndex + attempt) % |connections|;
        tried := tried + [index];
        var reply := oracle(attempt, connections[index]);
        if reply.Answer? {
          if index != currentConnectionIndex {
            currentConnectionIndex := index;
          }
          return Some(reply.value), tried, waited;
        }
        if attempt != |connections| - 1 {
          waited := waited + 100;
        }
        attempt := attempt + 1;
      }
    }
  }

  // ---------------------------------------------------------------- consequences

  /**
   A total failure over n URLs tries each of them exactly five times and waits less than
   5000 n ms, whichever failures were transient.
   */
  lemma TotalFailureIsFair<V(!new)>(
    urls: seq<string>, base: nat, oracle: Oracle<V>, tried: seq<nat>, waited: nat, x: nat)
    requires |urls| > 0 && base < |urls|
    requires PassOk(urls, base, oracle, Attempts(urls), None, tried, waited)
    requires WaitOk(urls, base, oracle, tried, waited)
    ensures Count(tried, x) == if x < |urls| then 5 else 0
    ensures waited <= 5000 * |urls| - 2000
  {
    var n := |urls|;
    assert Attempts(urls) == 5 * n;
    FairRotation(base, n, 5, x);
    TotalBelowMax(urls, base, oracle, 5 * n - 1);
    FiveTurns(n);
    assert 4 * n + (n - 1) == 5 * n - 1;
  }

  /**
   Wherever the cursor stands, one endpoint that answers is enough, and none is not: with
   endpoints that reply the same way to every attempt, a call succeeds exactly when one of the
   list answers.
   */
  lemma OneGoodEndpointIsEnough<V(!new)>(
    urls: seq<string>, base: nat, oracle: Oracle<V>, bound: nat, r: Option<V>, tried: seq<nat>, waited: nat)
    requires base < |urls| <= bound && PassOk(urls, base, oracle, bound, r, tried, waited)
    ensures (exists u :: u in urls && forall i :: oracle(i, u).Answer?) ==> r.Some?
    ensures r.Some? ==> exists u, i :: u in urls && oracle(i, u) == Answer(r.value)
    ensures (forall i, j, u :: oracle(i, u) == oracle(j, u)) ==>
              (r.Some? <==> exists u :: u in urls && oracle(0, u).Answer?)
  {
    forall u | u in urls && r.None? ensures exists i :: oracle(i, u).Failure? {
      var x :| 0 <= x < |urls| && urls[x] == u;
      var i := if base <= x then x - base else x + |urls| - base;
      ModSmall(base + i, |urls|);
      assert ReplyTo(urls, base, oracle, i).Failure?;
    }
    if r.Some? {
      var k := |tried| - 1;
      var u := urls[(base + k) % |urls|];
      assert u in urls && oracle(k, u) == Answer(r.value);
    }
  }

  /** Calls repeated on one client meet the working endpoint at once: the cursor stays on it. */
  lemma StickyCursor<V(!new)>(urls: seq<string>, base: nat, oracle: Oracle<V>, bound: nat, r: Option<V>, tried: seq<nat>, waited: nat)
    requires |urls| > 0 && base < |urls| && bound > 0
    requires PassOk(urls, base, oracle, bound, r, tried, waited)
    requires forall i, j, u :: oracle(i, u) == oracle(j, u)
    requires r.Some?
    ensures ReplyTo(urls, tried[|tried| - 1], oracle, 0) == Answer(r.value)
    ensures forall i :: 0 <= i < |tried| - 1 ==> tried[i] != tried[|tried| - 1]
  {
    var k := |tried| - 1;
    var at := tried[k];
    RotationAt(base, |urls|, |tried|);
    ModSmall(at, |urls|);
    assert oracle(k, urls[at]) == oracle(0, urls[at]);
    forall i | 0 <= i < k ensures tried[i] != at {
      assert ReplyTo(urls, base, oracle, i).Failure?;
      assert oracle(i, urls[tried[i]]) == oracle(k, urls[tried[i]]);
    }
  }

  /** The Solana client tries each endpoint exactly once before it gives up. */
  lemma SvmFailureIsFair<V(!new)>(urls: seq<string>, base: nat, oracle: Oracle<V>, tried: seq<nat>, waited: nat, x: nat)
    requires |urls| > 0 && base < |urls|
    requires PassOk(urls, base, oracle, |urls|, None, tried, waited)
    ensures Count(tried, x) == if x < |urls| then 1 else 0
  {
    OneTurn(base, |urls|, x);
  }
}

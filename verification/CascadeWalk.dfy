/**
 The cascade walker of the universal-tx detector: a depth-bounded depth-first search with one
 visited set shared by the whole search, which builds a tree.

 The chain registry, the detector and the cosmos queries are fixed but arbitrary functions;
 each of them may also throw.
 */
module CascadeWalk {
  import opened Wrappers
  import opened Strings
  import opened CascadeTypes

  // ---------------------------------------------------------------- data

  /** A call of `walk`: the hash as spelled by the caller, its chain, and a known utx id. */
  datatype Visit = Visit(hash: string, chain: string, known: Option<string>)

  /** An element of the visited set: hashes are compared in lower case. */
  datatype Key = Key(chain: string, hash: string)

  datatype Outbound = Outbound(summary: OutboundSummary, refund: Option<Refund>, revert: Option<Refund>)

  /** The answer of `getUniversalTxByIdV2`. */
  datatype Lookup = Missing | Found(outbounds: seq<Outbound>) | Failed

  datatype World = World(
    supported: string -> bool,                        // registered with an EVM or SVM vm
    isPush: string -> bool,                           // one of the Push Chain CAIPs
    detect: (string, string) -> Option<Detection>,    // None: the detector throws
    derivePcId: (string, string) -> string,
    lookup: string -> Lookup,
    resolve: Detection -> Option<seq<Resolution>>)    // None: the resolver throws

  datatype Config = Config(w: World, pushChain: string, maxDepth: int)

  datatype PlannedEdge = PlannedEdge(relation: Relation, target: Option<Visit>)

  datatype Result = Tree(node: Node) | Null | Thrown

  /** `first` records, for every key in the visited set, the call that put it there. */
  datatype Walked = Walked(result: Result, first: map<Key, Visit>)
  datatype Expanded = Expanded(children: seq<Edge>, threw: bool, first: map<Key, Visit>)

  function KeyOf(v: Visit): Key {
    Key(v.chain, Lower(v.hash))
  }

  function NodeKey(n: Node): Key {
    Key(n.detection.chain, Lower(n.detection.txHash))
  }

  /** One key for the spellings of a hash that differ in the case of letters, on one chain. */
  lemma KeysIgnoreCase(v: Visit, v': Visit)
    ensures KeyOf(v) == KeyOf(v') <==>
            v.chain == v'.chain && |v.hash| == |v'.hash| && forall i :: 0 <= i < |v.hash| ==> SameLetter(v.hash[i], v'.hash[i])
  {
    LowerEqualIff(v.hash, v'.hash);
  }

  // ---------------------------------------------------------------- edges of one node

  /** A refund is summarised with the id of its outbound. */
  function RefundEdges(chain: string, id: string, refund: Option<Refund>): seq<PlannedEdge> {
    if refund.None? || refund.value.txHash == "" then []
    else [PlannedEdge(RefundRelation(refund.value.(parentOutboundId := id)),
                      Some(Visit(refund.value.txHash, chain, None)))]
  }

  function OutboundEdges(cfg: Config, chain: string, ob: Outbound): seq<PlannedEdge> {
    var s := ob.summary;
    var walkable := s.externalTxHash.Some? && s.externalTxHash.value != "" && cfg.w.supported(s.destinationChain);
    [PlannedEdge(OutboundRelation(s),
                 if walkable then Some(Visit(s.externalTxHash.value, s.destinationChain, None)) else None)]
    + RefundEdges(chain, s.subTxId, ob.refund) + RefundEdges(chain, s.subTxId, ob.revert)
  }

  function PushPlan(cfg: Config, chain: string, obs: seq<Outbound>): seq<PlannedEdge> {
    if obs == [] then [] else OutboundEdges(cfg, chain, obs[0]) + PushPlan(cfg, chain, obs[1..])
  }

  function FollowUps(cfg: Config, r: Resolution, hashes: seq<string>): seq<PlannedEdge> {
    if hashes == [] then []
    else [PlannedEdge(InboundRelation(r), Some(Visit(hashes[0], cfg.pushChain, Some(r.universalTxId))))]
         + FollowUps(cfg, r, hashes[1..])
  }

  function InboundPlan(cfg: Config, rs: seq<Resolution>): seq<PlannedEdge> {
    if rs == [] then []
    else (if rs[0].pcTxHashes == [] then [PlannedEdge(InboundRelation(rs[0]), None)]
          else FollowUps(cfg, rs[0], rs[0].pcTxHashes))
         + InboundPlan(cfg, rs[1..])
  }

  /** The edges the walker queries for a node, or None when the query throws. */
  function Plan(cfg: Config, v: Visit): Option<seq<PlannedEdge>> {
    if cfg.w.isPush(v.chain) then
      var id := if v.known.Some? then v.known.value else cfg.w.derivePcId(v.chain, v.hash);
      match cfg.w.lookup(id)
      case Missing => Some([])
      case Found(obs) => Some(PushPlan(cfg, v.chain, obs))
      case Failed => None
    else
      var d := Detect(cfg, v);
      if d.None? then None
      else
        var rs := cfg.w.resolve(d.value);
        if rs.None? then None else Some(InboundPlan(cfg, rs.value))
  }

  /** The detector reports the hash and chain it was asked about. */
  function Detect(cfg: Config, v: Visit): Option<Detection> {
    var d := cfg.w.detect(v.hash, v.chain);
    if d.None? then None else Some(d.value.(txHash := v.hash, chain := v.chain))
  }

  // ---------------------------------------------------------------- edges, read off the records

  /** The record the chain has for a visit on Push Chain: under the known id, or the derived one. */
  ghost predicate HasRecord(cfg: Config, v: Visit, obs: seq<Outbound>) {
    && (v.known.Some? ==> cfg.w.lookup(v.known.value) == Found(obs))
    && (v.known.None? ==> cfg.w.lookup(cfg.w.derivePcId(v.chain, v.hash)) == Found(obs))
  }

  /** The resolutions of the logs of a transaction on another chain. */
  ghost predicate HasResolutions(cfg: Config, v: Visit, rs: seq<Resolution>) {
    var d := cfg.w.detect(v.hash, v.chain);
    d.Some? && cfg.w.resolve(d.value.(txHash := v.hash, chain := v.chain)) == Some(rs)
  }

  /** The transactions that one outbound names: its own, its refund and its revert. */
  ghost predicate Names(cfg: Config, chain: string, ob: Outbound, t: Visit) {
    && t.known.None? && t.hash != ""
    && (|| (ob.summary.externalTxHash == Some(t.hash) && t.chain == ob.summary.destinationChain && cfg.w.supported(t.chain))
        || (t.chain == chain && ob.refund.Some? && ob.refund.value.txHash == t.hash)
        || (t.chain == chain && ob.revert.Some? && ob.revert.value.txHash == t.hash))
  }

  /** A follow-up on Push Chain of one resolution, to be looked up under the resolved id. */
  ghost predicate FollowsUp(cfg: Config, r: Resolution, t: Visit) {
    t.hash in r.pcTxHashes && t.chain == cfg.pushChain && t.known == Some(r.universalTxId)
  }

  /** `t` is a visit that the records of `v` ask for. */
  ghost predicate RecordNames(cfg: Config, v: Visit, t: Visit) {
    if cfg.w.isPush(v.chain) then
      exists obs, i :: HasRecord(cfg, v, obs) && 0 <= i < |obs| && Names(cfg, v.chain, obs[i], t)
    else
      exists rs, i :: HasResolutions(cfg, v, rs) && 0 <= i < |rs| && FollowsUp(cfg, rs[i], t)
  }

  /** `k` is the key of such a visit. */
  ghost predicate HasEdge(cfg: Config, v: Visit, k: Key) {
    exists t :: RecordNames(cfg, v, t) && KeyOf(t) == k
  }

  ghost predicate PlansVisit(plan: seq<PlannedEdge>, t: Visit) {
    exists i :: 0 <= i < |plan| && plan[i].target == Some(t)
  }

  lemma PlansConcat(a: seq<PlannedEdge>, b: seq<PlannedEdge>, t: Visit)
    ensures PlansVisit(a + b, t) <==> PlansVisit(a, t) || PlansVisit(b, t)
  {
    var s := a + b;
    if PlansVisit(a, t) {
      var i :| 0 <= i < |a| && a[i].target == Some(t);
      assert s[i] == a[i];
    }
    if PlansVisit(b, t) {
      var i :| 0 <= i < |b| && b[i].target == Some(t);
      assert s[|a| + i] == b[i];
    }
    if PlansVisit(s, t) {
      var i :| 0 <= i < |s| && s[i].target == Some(t);
      assert if i < |a| then s[i] == a[i] else s[i] == b[i - |a|];
    }
  }

  lemma OutboundPlans(cfg: Config, chain: string, ob: Outbound, t: Visit)
    ensures PlansVisit(OutboundEdges(cfg, chain, ob), t) <==> Names(cfg, chain, ob, t)
  {
    var refund, revert := RefundEdges(chain, ob.summary.subTxId, ob.refund), RefundEdges(chain, ob.summary.subTxId, ob.revert);
    var own := OutboundEdges(cfg, chain, ob)[..1];
    assert OutboundEdges(cfg, chain, ob) == own + refund + revert;
    PlansConcat(own, refund, t);
    PlansConcat(own + refund, revert, t);
    RefundPlans(chain, ob.summary.subTxId, ob.refund, t);
    RefundPlans(chain, ob.summary.subTxId, ob.revert, t);
    assert PlansVisit(own, t) <==> own[0].target == Some(t);
  }

  lemma RefundPlans(chain: string, id: string, refund: Option<Refund>, t: Visit)
    ensures PlansVisit(RefundEdges(chain, id, refund), t) <==>
            t.known.None? && t.hash != "" && t.chain == chain && refund.Some? && refund.value.txHash == t.hash
  {
    var es := RefundEdges(chain, id, refund);
    assert PlansVisit(es, t) <==> |es| > 0 && es[0].target == Some(t);
  }

  lemma {:induction false} PushPlans(cfg: Config, chain: string, obs: seq<Outbound>, t: Visit)
    ensures PlansVisit(PushPlan(cfg, chain, obs), t) <==> exists i :: 0 <= i < |obs| && Names(cfg, chain, obs[i], t)
  {
    if obs != [] {
      PushPlans(cfg, chain, obs[1..], t);
      OutboundPlans(cfg, chain, obs[0], t);
      PlansConcat(OutboundEdges(cfg, chain, obs[0]), PushPlan(cfg, chain, obs[1..]), t);
      if i :| 0 <= i < |obs[1..]| && Names(cfg, chain, obs[1..][i], t) {
        assert Names(cfg, chain, obs[i + 1], t);
      }
      assert forall i :: 0 < i < |obs| ==> obs[i] == obs[1..][i - 1];
    }
  }

  lemma {:induction false} FollowUpPlans(cfg: Config, r: Resolution, hashes: seq<string>, t: Visit)
    ensures PlansVisit(FollowUps(cfg, r, hashes), t) <==>
            t.hash in hashes && t.chain == cfg.pushChain && t.known == Some(r.universalTxId)
  {
    if hashes != [] {
      var head := PlannedEdge(InboundRelation(r), Some(Visit(hashes[0], cfg.pushChain, Some(r.universalTxId))));
      FollowUpPlans(cfg, r, hashes[1..], t);
      PlansConcat([head], FollowUps(cfg, r, hashes[1..]), t);
      assert PlansVisit([head], t) <==> [head][0].target == Some(t);
    }
  }

  lemma {:induction false} InboundPlans(cfg: Config, rs: seq<Resolution>, t: Visit)
    ensures PlansVisit(InboundPlan(cfg, rs), t) <==> exists i :: 0 <= i < |rs| && FollowsUp(cfg, rs[i], t)
  {
    if rs != [] {
      InboundPlans(cfg, rs[1..], t);
      var head := if rs[0].pcTxHashes == [] then [PlannedEdge(InboundRelation(rs[0]), None)]
                  else FollowUps(cfg, rs[0], rs[0].pcTxHashes);
      FollowUpPlans(cfg, rs[0], rs[0].pcTxHashes, t);
      PlansConcat(head, InboundPlan(cfg, rs[1..]), t);
      if i :| 0 <= i < |rs[1..]| && FollowsUp(cfg, rs[1..][i], t) {
        assert FollowsUp(cfg, rs[i + 1], t);
      }
      assert forall i :: 0 < i < |rs| ==> rs[i] == rs[1..][i - 1];
    }
  }

  /** The walker plans exactly the visits that the records ask for. */
  lemma PlanIsRecords(cfg: Config, v: Visit, t: Visit)
    ensures RecordNames(cfg, v, t) <==> Plan(cfg, v).Some? && PlansVisit(Plan(cfg, v).value, t)
  {
    if cfg.w.isPush(v.chain) {
      if obs :| HasRecord(cfg, v, obs) {
        PushPlans(cfg, v.chain, obs, t);
        assert Plan(cfg, v) == Some(PushPlan(cfg, v.chain, obs));
      } else {
        var found := cfg.w.lookup(if v.known.Some? then v.known.value else cfg.w.derivePcId(v.chain, v.hash));
        assert found.Found? ==> HasRecord(cfg, v, found.outbounds);
      }
    } else {
      if rs :| HasResolutions(cfg, v, rs) {
        InboundPlans(cfg, rs, t);
        assert Plan(cfg, v) == Some(InboundPlan(cfg, rs));
      } else {
        var d := cfg.w.detect(v.hash, v.chain);
        assert d.Some? ==>
                 var rs := cfg.w.resolve(d.value.(txHash := v.hash, chain := v.chain));
                 rs.Some? ==> HasResolutions(cfg, v, rs.value);
      }
    }
  }

  lemma EdgesAreRecords(cfg: Config, v: Visit)
    ensures forall k :: HasEdge(cfg, v, k) <==> Plan(cfg, v).Some? && LeadsTo(Plan(cfg, v).value, k)
  {
    forall t ensures RecordNames(cfg, v, t) <==> Plan(cfg, v).Some? && PlansVisit(Plan(cfg, v).value, t) {
      PlanIsRecords(cfg, v, t);
    }
    forall k | Plan(cfg, v).Some? && LeadsTo(Plan(cfg, v).value, k) ensures HasEdge(cfg, v, k) {
      var plan := Plan(cfg, v).value;
      var i :| 0 <= i < |plan| && plan[i].target.Some? && KeyOf(plan[i].target.value) == k;
      assert PlansVisit(plan, plan[i].target.value);
      assert RecordNames(cfg, v, plan[i].target.value);
    }
    forall k | HasEdge(cfg, v, k) ensures Plan(cfg, v).Some? && LeadsTo(Plan(cfg, v).value, k) {
      var t :| RecordNames(cfg, v, t) && KeyOf(t) == k;
      var plan := Plan(cfg, v).value;
      var i :| 0 <= i < |plan| && plan[i].target == Some(t);
    }
  }

  // ---------------------------------------------------------------- the search

  function Remaining(cfg: Config, depth: nat): nat {
    if depth >= cfg.maxDepth then 0 else cfg.maxDepth - depth
  }

  function WithFailure(d: Detection): Detection {
    d.(notes := d.notes + [OutboundLookupFailed])
  }

  function Walk(cfg: Config, v: Visit, depth: nat, first: map<Key, Visit>): Walked
    decreases Remaining(cfg, depth), 0
  {
    var key := KeyOf(v);
    if key in first then Walked(Null, first)
    else
      var seen := first[key := v];
      if !cfg.w.supported(v.chain) then Walked(Null, seen)
      else
        var d := Detect(cfg, v);
        if d.None? then Walked(Thrown, seen)
        else if depth >= cfg.maxDepth then Walked(Tree(Node(d.value, [], depth, Some(MaxDepth))), seen)
        else
          var e := Expand(cfg, Plan(cfg, v), depth + 1, seen);
          if !e.threw then Walked(Tree(Node(d.value, e.children, depth, None)), e.first)
          else if cfg.w.isPush(v.chain) then
            Walked(Tree(Node(WithFailure(d.value), e.children, depth, None)), e.first)
          else Walked(Thrown, e.first)
  }

  function Expand(cfg: Config, plan: Option<seq<PlannedEdge>>, depth: nat, first: map<Key, Visit>): Expanded
    decreases Remaining(cfg, depth), if plan.Some? then |plan.value| + 1 else 0
  {
    if plan.None? then Expanded([], true, first) else ExpandAll(cfg, plan.value, depth, first)
  }

  function ExpandAll(cfg: Config, plan: seq<PlannedEdge>, depth: nat, first: map<Key, Visit>): Expanded
    decreases Remaining(cfg, depth), |plan|
  {
    if plan == [] then Expanded([], false, first)
    else if plan[0].target.None? then
      Before(Bare(plan[0].relation), ExpandAll(cfg, plan[1..], depth, first))
    else
      var r := Walk(cfg, plan[0].target.value, depth, first);
      if r.result.Thrown? then Expanded([], true, r.first)
      else Before(ToEdge(plan[0].relation, r.result),
                  ExpandAll(cfg, plan[1..], depth, r.first))
  }

  function ToEdge(relation: Relation, r: Result): Edge {
    if r.Tree? then Branch(relation, r.node) else Bare(relation)
  }

  function Before(edge: Edge, e: Expanded): Expanded {
    e.(children := [edge] + e.children)
  }

  // ---------------------------------------------------------------- the class

  class Walker {
    var visited: set<Key>
    ghost var first: map<Key, Visit>

    ghost predicate Valid()
      reads this
    {
      visited == first.Keys
    }

    constructor ()
      ensures Valid() && first == map[]
    {
      visited, first := {}, map[];
    }

    /** `walk`. */
    method WalkFrom(cfg: Config, v: Visit, depth: nat) returns (r: Result)
      requires Valid()
      modifies this
      ensures Valid() && Walked(r, first) == Walk(cfg, v, depth, old(first))
      decreases Remaining(cfg, depth), 0
    {
      var key := KeyOf(v);
      if key in visited {
        return Null;
      }
      visited, first := visited + {key}, first[key := v];
      if !cfg.w.supported(v.chain) {
        return Null;
      }
      var d := Detect(cfg, v);
      if d.None? {
        return Thrown;
      }
      if depth >= cfg.maxDepth {
        return Tree(Node(d.value, [], depth, Some(MaxDepth)));
      }
      var plan := Plan(cfg, v);
      var children, threw := [], true;
      if plan.Some? {
        children, threw := PushChildren(cfg, plan.value, depth + 1);
      }
      if !threw {
        return Tree(Node(d.value, children, depth, None));
      }
      // Only the Push Chain expansion catches; an external node lets the error through.
      if cfg.w.isPush(v.chain) {
        return Tree(Node(WithFailure(d.value), children, depth, None));
      }
      return Thrown;
    }

    /** The loops that push one edge per answer; a throw leaves the edges pushed so far. */
    method PushChildren(cfg: Config, plan: seq<PlannedEdge>, depth: nat)
      returns (children: seq<Edge>, threw: bool)
      requires Valid()
      modifies this
      ensures Valid() && Expanded(children, threw, first) == ExpandAll(cfg, plan, depth, old(first))
      decreases Remaining(cfg, depth), |plan|
    {
      children := [];
      for i := 0 to |plan|
        invariant Valid()
        invariant ExpandAll(cfg, plan, depth, old(first)) ==
                  AfterAll(children, ExpandAll(cfg, plan[i..], depth, first))
      {
        ghost var rest := plan[i..];
        assert rest[0] == plan[i] && rest[1..] == plan[i + 1..];
        var edge := Bare(plan[i].relation);
        if plan[i].target.Some? {
          var r := WalkFrom(cfg, plan[i].target.value, depth);
          if r.Thrown? {
            return children, true;
          }
          edge := ToEdge(plan[i].relation, r);
        }
        AfterAllBefore(children, edge, ExpandAll(cfg, rest[1..], depth, first));
        children := children + [edge];
      }
      threw := false;
    }
  }

  ghost function AfterAll(children: seq<Edge>, e: Expanded): Expanded {
    e.(children := children + e.children)
  }

  lemma AfterAllBefore(children: seq<Edge>, edge: Edge, e: Expanded)
    ensures AfterAll(children, Before(edge, e)) == AfterAll(children + [edge], e)
  {
    assert children + ([edge] + e.children) == (children + [edge]) + e.children;
  }

  // ---------------------------------------------------------------- trees

  /** The keys of a tree in preorder. */
  function Keys(n: Node): seq<Key>
    decreases n, 1
  {
    [NodeKey(n)] + EdgeKeys(n.children)
  }

  function EdgeKeys(es: seq<Edge>): seq<Key>
    decreases es, 0
  {
    if es == [] then []
    else
      assert es decreases to es[0];
      (if es[0].Branch? then Keys(es[0].node) else []) + EdgeKeys(es[1..])
  }

  /** Every child is one deeper than its parent. */
  predicate DepthsStep(n: Node)
    decreases n, 1
  {
    EdgeDepths(n.children, n.depth + 1)
  }

  predicate EdgeDepths(es: seq<Edge>, depth: nat)
    decreases es, 0
  {
    es == [] ||
    assert es decreases to es[0];
    (&& (es[0].Branch? ==> es[0].node.depth == depth && DepthsStep(es[0].node))
     && EdgeDepths(es[1..], depth))
  }

  /** Nothing in the tree was cut at the depth bound and no lookup failed. */
  predicate Clean(n: Node)
    decreases n, 1
  {
    n.truncated.None? && OutboundLookupFailed !in n.detection.notes && EdgesClean(n.children)
  }

  predicate EdgesClean(es: seq<Edge>)
    decreases es, 0
  {
    es == [] ||
    assert es decreases to es[0];
    ((es[0].Branch? ==> Clean(es[0].node)) && EdgesClean(es[1..]))
  }

  predicate Distinct(s: seq<Key>) {
    forall i, j :: 0 <= i < j < |s| ==> s[i] != s[j]
  }

  ghost predicate Extends(a: map<Key, Visit>, b: map<Key, Visit>) {
    forall k :: k in a ==> k in b && b[k] == a[k]
  }

  // ---------------------------------------------------------------- every run

  ghost predicate FreshKeys(cfg: Config, ks: seq<Key>, a: map<Key, Visit>, b: map<Key, Visit>) {
    && Distinct(ks)
    && forall k :: k in ks ==> k !in a && k in b && cfg.w.supported(k.chain) && KeyOf(b[k]) == k
  }

  /**
   In every run, also one that truncates or fails: a node's key is new when the node is made,
   so keys are pairwise distinct, only supported chains appear, and depths step by one.
   */
  lemma {:induction false} WalkSound(cfg: Config, v: Visit, depth: nat, first: map<Key, Visit>)
    ensures
      var r := Walk(cfg, v, depth, first);
      && Extends(first, r.first)
      && KeyOf(v) in r.first
      && (r.result.Tree? ==>
            && NodeKey(r.result.node) == KeyOf(v)
            && r.first[KeyOf(v)] == v
            && r.result.node.depth == depth
            && DepthsStep(r.result.node)
            && FreshKeys(cfg, Keys(r.result.node), first, r.first))
    decreases Remaining(cfg, depth), 0
  {
    var key := KeyOf(v);
    if key !in first && cfg.w.supported(v.chain) && Detect(cfg, v).Some? {
      var seen := first[key := v];
      if depth < cfg.maxDepth && Plan(cfg, v).Some? {
        var e := ExpandAll(cfg, Plan(cfg, v).value, depth + 1, seen);
        ExpandSound(cfg, Plan(cfg, v).value, depth + 1, seen);
        FreshRoot(cfg, v, first, EdgeKeys(e.children), e.first);
      }
    }
  }

  lemma FreshRoot(cfg: Config, v: Visit, first: map<Key, Visit>, below: seq<Key>, b: map<Key, Visit>)
    requires KeyOf(v) !in first && cfg.w.supported(v.chain)
    requires Extends(first[KeyOf(v) := v], b) && FreshKeys(cfg, below, first[KeyOf(v) := v], b)
    ensures FreshKeys(cfg, [KeyOf(v)] + below, first, b)
  {
  }

  lemma {:induction false} ExpandSound(cfg: Config, plan: seq<PlannedEdge>, depth: nat, first: map<Key, Visit>)
    ensures
      var e := ExpandAll(cfg, plan, depth, first);
      && Extends(first, e.first)
      && EdgeDepths(e.children, depth)
      && FreshKeys(cfg, EdgeKeys(e.children), first, e.first)
    decreases Remaining(cfg, depth), |plan|
  {
    if plan != [] {
      if plan[0].target.None? {
        ExpandSound(cfg, plan[1..], depth, first);
      } else {
        var r := Walk(cfg, plan[0].target.value, depth, first);
        WalkSound(cfg, plan[0].target.value, depth, first);
        if !r.result.Thrown? {
          ExpandSound(cfg, plan[1..], depth, r.first);
        }
      }
    }
  }

  // ---------------------------------------------------------------- marks and null children

  /** Every node is marked as cut at the depth bound exactly when it is there, and in no other way. */
  predicate MarkedByDepth(n: Node, maxDepth: int)
    decreases n, 1
  {
    n.truncated == (if n.depth >= maxDepth then Some(MaxDepth) else None) && EdgesMarkedByDepth(n.children, maxDepth)
  }

  predicate EdgesMarkedByDepth(es: seq<Edge>, maxDepth: int)
    decreases es, 0
  {
    es == [] ||
    assert es decreases to es[0];
    ((es[0].Branch? ==> MarkedByDepth(es[0].node, maxDepth)) && EdgesMarkedByDepth(es[1..], maxDepth))
  }

  /** No run marks a node as a cycle: the only mark is that of the depth bound. */
  lemma {:induction false} WalkMarks(cfg: Config, v: Visit, depth: nat, first: map<Key, Visit>)
    ensures
      var r := Walk(cfg, v, depth, first).result;
      r.Tree? ==> r.node.depth == depth && MarkedByDepth(r.node, cfg.maxDepth)
    decreases Remaining(cfg, depth), 0
  {
    if KeyOf(v) !in first && cfg.w.supported(v.chain) && Detect(cfg, v).Some? {
      if depth < cfg.maxDepth && Plan(cfg, v).Some? {
        ExpandMarks(cfg, Plan(cfg, v).value, depth + 1, first[KeyOf(v) := v]);
      }
    }
  }

  lemma {:induction false} ExpandMarks(cfg: Config, plan: seq<PlannedEdge>, depth: nat, first: map<Key, Visit>)
    ensures EdgesMarkedByDepth(ExpandAll(cfg, plan, depth, first).children, cfg.maxDepth)
    decreases Remaining(cfg, depth), |plan|
  {
    if plan != [] {
      if plan[0].target.None? {
        ExpandMarks(cfg, plan[1..], depth, first);
      } else {
        WalkMarks(cfg, plan[0].target.value, depth, first);
        var r := Walk(cfg, plan[0].target.value, depth, first);
        if !r.result.Thrown? {
          ExpandMarks(cfg, plan[1..], depth, r.first);
        }
      }
    }
  }

  /** The search answers with no node exactly for a key met before, or a chain it does not know. */
  lemma NullIff(cfg: Config, v: Visit, depth: nat, first: map<Key, Visit>)
    ensures Walk(cfg, v, depth, first).result.Null? <==> KeyOf(v) in first || !cfg.w.supported(v.chain)
  {
  }

  /** The visited keys when the walker comes to the i-th edge of a plan. */
  function FirstBefore(cfg: Config, plan: seq<PlannedEdge>, depth: nat, first: map<Key, Visit>, i: nat): map<Key, Visit>
    requires i <= |plan|
  {
    ExpandAll(cfg, plan[..i], depth, first).first
  }

  /** An edge has no child exactly when it has no target, or its target was met before or is unsupported. */
  lemma {:induction false} BareIff(cfg: Config, plan: seq<PlannedEdge>, depth: nat, first: map<Key, Visit>, i: nat)
    requires i < |ExpandAll(cfg, plan, depth, first).children|
    ensures i < |plan|
    ensures ExpandAll(cfg, plan, depth, first).children[i].Bare? <==>
            || plan[i].target.None?
            || KeyOf(plan[i].target.value) in FirstBefore(cfg, plan, depth, first, i)
            || !cfg.w.supported(plan[i].target.value.chain)
    decreases |plan|
  {
    if i == 0 {
      if plan[0].target.Some? {
        NullIff(cfg, plan[0].target.value, depth, first);
      }
    } else {
      var next := if plan[0].target.None? then first else Walk(cfg, plan[0].target.value, depth, first).first;
      BareIff(cfg, plan[1..], depth, next, i - 1);
      assert plan[1..][..i - 1] == plan[..i][1..];
    }
  }

  /** Of two edges of a node that lead to one key, the later has no child: a revisit leaves no mark. */
  lemma {:induction false} RevisitIsBare(
    cfg: Config, plan: seq<PlannedEdge>, depth: nat, first: map<Key, Visit>, i: nat, j: nat)
    requires i < j < |ExpandAll(cfg, plan, depth, first).children| && j < |plan|
    requires plan[i].target.Some? && plan[j].target.Some?
    requires KeyOf(plan[i].target.value) == KeyOf(plan[j].target.value)
    ensures ExpandAll(cfg, plan, depth, first).children[j].Bare?
  {
    BareIff(cfg, plan, depth, first, j);
    MetBefore(cfg, plan, depth, first, i, j);
  }

  lemma {:induction false} MetBefore(
    cfg: Config, plan: seq<PlannedEdge>, depth: nat, first: map<Key, Visit>, i: nat, j: nat)
    requires i < j < |ExpandAll(cfg, plan, depth, first).children| && j < |plan|
    requires plan[i].target.Some?
    ensures KeyOf(plan[i].target.value) in FirstBefore(cfg, plan, depth, first, j)
    decreases |plan|
  {
    var next := if plan[0].target.None? then first else Walk(cfg, plan[0].target.value, depth, first).first;
    assert plan[1..][..j - 1] == plan[..j][1..];
    if i == 0 {
      WalkSound(cfg, plan[0].target.value, depth, first);
      ExpandSound(cfg, plan[1..][..j - 1], depth, next);
    } else {
      MetBefore(cfg, plan[1..], depth, next, i - 1, j - 1);
    }
  }

  /** A record that names one external hash twice. */
  function TwiceNamed(chain: string, hash: string): Config {
    var ob := Outbound(OutboundSummary("", "", chain, Some(hash), None, None), None, None);
    Config(
      World(
        c => true,
        c => c != chain,
        (h, c) => Some(Detection(h, c, "", None, [])),
        (c, h) => h,
        id => Found([ob, ob]),
        d => Some([])),
      "push", 1)
  }

  /** Its tree has a node for the first naming only, and nowhere a mark that tells why. */
  lemma RevisitExample(chain: string, hash: string, start: string, startChain: string)
    requires hash != "" && startChain != chain
    ensures
      var r := Walk(TwiceNamed(chain, hash), Visit(start, startChain, None), 0, map[]).result;
      && r.Tree? && |r.node.children| == 2
      && r.node.children[0].Branch? && r.node.children[1].Bare?
      && r.node.truncated.None? && r.node.children[0].node.truncated == Some(MaxDepth)
  {
    var cfg := TwiceNamed(chain, hash);
    var v := Visit(start, startChain, None);
    var target := Visit(hash, chain, None);
    var ob := Outbound(OutboundSummary("", "", chain, Some(hash), None, None), None, None);
    var edge := PlannedEdge(OutboundRelation(ob.summary), Some(target));
    assert OutboundEdges(cfg, startChain, ob) == [edge];
    assert [ob, ob][1..] == [ob] && [ob][1..] == [];
    assert PushPlan(cfg, startChain, [ob]) == [edge] + PushPlan(cfg, startChain, []);
    assert PushPlan(cfg, startChain, [ob, ob]) == [edge] + PushPlan(cfg, startChain, [ob]);
    assert cfg.w.isPush(startChain) && cfg.w.lookup(start) == Found([ob, ob]);
    assert [edge] + ([edge] + []) == [edge, edge];
    assert Plan(cfg, v) == Some([edge, edge]);
    var seen := map[KeyOf(v) := v];
    var once := seen[KeyOf(target) := target];
    assert [edge, edge][1..] == [edge] && [edge][1..] == [];
    assert Walk(cfg, target, 1, seen).result.Tree? && Walk(cfg, target, 1, seen).first == once;
    assert Walk(cfg, target, 1, once).result.Null?;
    assert ExpandAll(cfg, [edge], 1, once).children == [Bare(edge.relation)];
  }

  // ---------------------------------------------------------------- the children of a node, in order

  /** A node's children have the relations of its planned edges, in order; all of them if it is clean. */
  lemma ChildrenFollowPlan(cfg: Config, v: Visit, depth: nat, first: map<Key, Visit>, i: nat)
    requires depth < cfg.maxDepth && Walk(cfg, v, depth, first).result.Tree? && Plan(cfg, v).Some?
    ensures
      var children, plan := Walk(cfg, v, depth, first).result.node.children, Plan(cfg, v).value;
      && |children| <= |plan|
      && (i < |children| ==> children[i].relation == plan[i].relation)
      && (Clean(Walk(cfg, v, depth, first).result.node) ==> |children| == |plan|)
  {
    var seen := first[KeyOf(v) := v];
    var e := ExpandAll(cfg, Plan(cfg, v).value, depth + 1, seen);
    ExpandFollowsPlan(cfg, Plan(cfg, v).value, depth + 1, seen, i);
    var d := Detect(cfg, v).value;
    assert WithFailure(d).notes[|d.notes|] == OutboundLookupFailed;
  }

  lemma {:induction false} ExpandFollowsPlan(
    cfg: Config, plan: seq<PlannedEdge>, depth: nat, first: map<Key, Visit>, i: nat)
    ensures
      var e := ExpandAll(cfg, plan, depth, first);
      && |e.children| <= |plan|
      && (i < |e.children| ==> e.children[i].relation == plan[i].relation)
      && (!e.threw ==> |e.children| == |plan|)
    decreases |plan|
  {
    if plan != [] {
      var next := if plan[0].target.None? then first else Walk(cfg, plan[0].target.value, depth, first).first;
      ExpandFollowsPlan(cfg, plan[1..], depth, next, if i == 0 then 0 else i - 1);
    }
  }

  /** One edge if there is a transaction to refund. */
  function Hashed(refund: Option<Refund>): nat {
    if refund.Some? && refund.value.txHash != "" then 1 else 0
  }

  /** Where the edges of the i-th outbound of a record start. */
  function EdgesBefore(obs: seq<Outbound>, i: nat): nat
    requires i <= |obs|
  {
    if i == 0 then 0 else EdgesBefore(obs, i - 1) + 1 + Hashed(obs[i - 1].refund) + Hashed(obs[i - 1].revert)
  }

  lemma {:induction false} EdgesBeforeTail(obs: seq<Outbound>, i: nat)
    requires 0 < i <= |obs|
    ensures EdgesBefore(obs, i) == 1 + Hashed(obs[0].refund) + Hashed(obs[0].revert) + EdgesBefore(obs[1..], i - 1)
  {
    if i > 1 {
      EdgesBeforeTail(obs, i - 1);
    }
  }

  /**
   The edges of a record in order: for each outbound its own, with a target if it names a hash on
   a supported chain, then its refund and its revert, if they have hashes.
   */
  ghost predicate EdgesOf(cfg: Config, chain: string, plan: seq<PlannedEdge>, at: nat, ob: Outbound) {
    var s, refunds := ob.summary, Hashed(ob.refund);
    && at + refunds + Hashed(ob.revert) < |plan|
    && plan[at].relation == OutboundRelation(s)
    && (plan[at].target.Some? <==>
          s.externalTxHash.Some? && s.externalTxHash.value != "" && cfg.w.supported(s.destinationChain))
    && (plan[at].target.Some? ==> plan[at].target.value == Visit(s.externalTxHash.value, s.destinationChain, None))
    && (refunds == 1 ==> IsRefundEdge(plan[at + 1], chain, s.subTxId, ob.refund.value))
    && (Hashed(ob.revert) == 1 ==> IsRefundEdge(plan[at + 1 + refunds], chain, s.subTxId, ob.revert.value))
  }

  predicate IsRefundEdge(e: PlannedEdge, chain: string, id: string, refund: Refund) {
    && e.relation == RefundRelation(refund.(parentOutboundId := id))
    && e.target == Some(Visit(refund.txHash, chain, None))
  }

  lemma {:induction false} PushPlanOrder(cfg: Config, chain: string, obs: seq<Outbound>, i: nat)
    ensures |PushPlan(cfg, chain, obs)| == EdgesBefore(obs, |obs|)
    ensures i < |obs| ==> EdgesOf(cfg, chain, PushPlan(cfg, chain, obs), EdgesBefore(obs, i), obs[i])
  {
    if obs != [] {
      var head := OutboundEdges(cfg, chain, obs[0]);
      var tail := PushPlan(cfg, chain, obs[1..]);
      EdgesBeforeTail(obs, |obs|);
      PushPlanOrder(cfg, chain, obs[1..], if i == 0 then 0 else i - 1);
      assert |head| == 1 + Hashed(obs[0].refund) + Hashed(obs[0].revert);
      if 0 < i < |obs| {
        EdgesBeforeTail(obs, i);
        EdgesShift(cfg, chain, head, tail, EdgesBefore(obs[1..], i - 1), obs[i]);
      }
    }
  }

  lemma EdgesShift(
    cfg: Config, chain: string, head: seq<PlannedEdge>, tail: seq<PlannedEdge>, at: nat, ob: Outbound)
    requires EdgesOf(cfg, chain, tail, at, ob)
    ensures EdgesOf(cfg, chain, head + tail, |head| + at, ob)
  {
  }

  /** The planned edges of a Push node are those of its record, under the known id if there is one. */
  lemma PushNodeEdges(cfg: Config, v: Visit, obs: seq<Outbound>, i: nat)
    requires cfg.w.isPush(v.chain) && HasRecord(cfg, v, obs)
    ensures Plan(cfg, v).Some? && |Plan(cfg, v).value| == EdgesBefore(obs, |obs|)
    ensures i < |obs| ==> EdgesOf(cfg, v.chain, Plan(cfg, v).value, EdgesBefore(obs, i), obs[i])
  {
    PushPlanOrder(cfg, v.chain, obs, i);
  }

  /** With a known id nothing else is asked: neither the derived id nor any other record matters. */
  lemma OnlyTheKnownRecordCounts(
    cfg: Config, v: Visit, derivePcId: (string, string) -> string, lookup: string -> Lookup)
    requires cfg.w.isPush(v.chain) && v.known.Some? && lookup(v.known.value) == cfg.w.lookup(v.known.value)
    ensures Plan(cfg.(w := cfg.w.(derivePcId := derivePcId, lookup := lookup)), v) == Plan(cfg, v)
  {
    var other := cfg.(w := cfg.w.(derivePcId := derivePcId, lookup := lookup));
    if cfg.w.lookup(v.known.value).Found? {
      SamePushPlan(cfg, other, v.chain, cfg.w.lookup(v.known.value).outbounds);
    }
  }

  lemma {:induction false} SamePushPlan(cfg: Config, other: Config, chain: string, obs: seq<Outbound>)
    requires other.w.supported == cfg.w.supported
    ensures PushPlan(other, chain, obs) == PushPlan(cfg, chain, obs)
  {
    if obs != [] {
      SamePushPlan(cfg, other, chain, obs[1..]);
    }
  }

  /** Where the edges of the i-th resolution start; one without a follow-up has one edge too. */
  function FollowUpsBefore(rs: seq<Resolution>, i: nat): nat
    requires i <= |rs|
  {
    if i == 0 then 0
    else FollowUpsBefore(rs, i - 1) + if rs[i - 1].pcTxHashes == [] then 1 else |rs[i - 1].pcTxHashes|
  }

  lemma {:induction false} FollowUpsBeforeTail(rs: seq<Resolution>, i: nat)
    requires 0 < i <= |rs|
    ensures FollowUpsBefore(rs, i) ==
            (if rs[0].pcTxHashes == [] then 1 else |rs[0].pcTxHashes|) + FollowUpsBefore(rs[1..], i - 1)
  {
    if i > 1 {
      FollowUpsBeforeTail(rs, i - 1);
    }
  }

  /** One edge a follow-up, to be looked up under the resolved id; a bare one if there is none. */
  ghost predicate FollowUpAt(cfg: Config, plan: seq<PlannedEdge>, at: nat, r: Resolution, j: nat) {
    && (r.pcTxHashes == [] ==> at < |plan| && plan[at] == PlannedEdge(InboundRelation(r), None))
    && (j < |r.pcTxHashes| ==>
          && at + j < |plan|
          && plan[at + j] == PlannedEdge(InboundRelation(r), Some(Visit(r.pcTxHashes[j], cfg.pushChain, Some(r.universalTxId)))))
  }

  lemma {:induction false} FollowUpsOrder(cfg: Config, r: Resolution, hashes: seq<string>, j: nat)
    ensures |FollowUps(cfg, r, hashes)| == |hashes|
    ensures j < |hashes| ==>
              FollowUps(cfg, r, hashes)[j] ==
              PlannedEdge(InboundRelation(r), Some(Visit(hashes[j], cfg.pushChain, Some(r.universalTxId))))
  {
    if hashes != [] {
      FollowUpsOrder(cfg, r, hashes[1..], if j == 0 then 0 else j - 1);
    }
  }

  lemma {:induction false} InboundPlanOrder(cfg: Config, rs: seq<Resolution>, i: nat, j: nat)
    ensures |InboundPlan(cfg, rs)| == FollowUpsBefore(rs, |rs|)
    ensures i < |rs| ==> FollowUpAt(cfg, InboundPlan(cfg, rs), FollowUpsBefore(rs, i), rs[i], j)
  {
    if rs != [] {
      InboundHead(cfg, rs, j);
      FollowUpsBeforeTail(rs, |rs|);
      InboundPlanOrder(cfg, rs[1..], if i == 0 then 0 else i - 1, j);
      if 0 < i < |rs| {
        FollowUpsBeforeTail(rs, i);
        var head := if rs[0].pcTxHashes == [] then [PlannedEdge(InboundRelation(rs[0]), None)]
                    else FollowUps(cfg, rs[0], rs[0].pcTxHashes);
        FollowUpShift(cfg, head, InboundPlan(cfg, rs[1..]), FollowUpsBefore(rs[1..], i - 1), rs[i], j);
      }
    }
  }

  lemma InboundHead(cfg: Config, rs: seq<Resolution>, j: nat)
    requires rs != []
    ensures |InboundPlan(cfg, rs)| ==
            (if rs[0].pcTxHashes == [] then 1 else |rs[0].pcTxHashes|) + |InboundPlan(cfg, rs[1..])|
    ensures FollowUpAt(cfg, InboundPlan(cfg, rs), 0, rs[0], j)
  {
    FollowUpsOrder(cfg, rs[0], rs[0].pcTxHashes, j);
  }

  lemma FollowUpShift(
    cfg: Config, head: seq<PlannedEdge>, tail: seq<PlannedEdge>, at: nat, r: Resolution, j: nat)
    requires FollowUpAt(cfg, tail, at, r, j)
    ensures FollowUpAt(cfg, head + tail, |head| + at, r, j)
  {
  }

  /** The planned edges of a node on another chain are the follow-ups of its resolutions, in order. */
  lemma ExternalNodeEdges(cfg: Config, v: Visit, rs: seq<Resolution>, i: nat, j: nat)
    requires !cfg.w.isPush(v.chain) && HasResolutions(cfg, v, rs)
    ensures Plan(cfg, v).Some? && |Plan(cfg, v).value| == FollowUpsBefore(rs, |rs|)
    ensures i < |rs| ==> FollowUpAt(cfg, Plan(cfg, v).value, FollowUpsBefore(rs, i), rs[i], j)
  {
    InboundPlanOrder(cfg, rs, i, j);
  }

  // ---------------------------------------------------------------- errors

  /** The visit of the i-th edge, made with what was visited before it, throws. */
  ghost predicate EdgeThrows(cfg: Config, plan: seq<PlannedEdge>, depth: nat, first: map<Key, Visit>, i: nat)
    requires i < |plan|
  {
    plan[i].target.Some? && Walk(cfg, plan[i].target.value, depth, FirstBefore(cfg, plan, depth, first, i)).result.Thrown?
  }

  ghost predicate SomeEdgeThrows(cfg: Config, plan: seq<PlannedEdge>, depth: nat, first: map<Key, Visit>) {
    exists i :: 0 <= i < |plan| && EdgeThrows(cfg, plan, depth, first, i)
  }

  /** The edges before the one whose visit throws are kept, and no others. */
  lemma {:induction false} ExpansionStopsAtThrow(cfg: Config, plan: seq<PlannedEdge>, depth: nat, first: map<Key, Visit>)
    ensures
      var e := ExpandAll(cfg, plan, depth, first);
      && (e.threw ==> |e.children| < |plan| && EdgeThrows(cfg, plan, depth, first, |e.children|))
      && forall i :: 0 <= i < |e.children| && i < |plan| ==> !EdgeThrows(cfg, plan, depth, first, i)
    decreases |plan|
  {
    if plan != [] {
      var e := ExpandAll(cfg, plan, depth, first);
      assert plan[..0] == [];
      var thrown := plan[0].target.Some? && Walk(cfg, plan[0].target.value, depth, first).result.Thrown?;
      if !thrown {
        var next := if plan[0].target.None? then first else Walk(cfg, plan[0].target.value, depth, first).first;
        ExpansionStopsAtThrow(cfg, plan[1..], depth, next);
        forall i | 0 < i < |plan|
          ensures EdgeThrows(cfg, plan, depth, first, i) <==> EdgeThrows(cfg, plan[1..], depth, next, i - 1)
        {
          assert plan[1..][..i - 1] == plan[..i][1..];
        }
      }
    }
  }

  ghost predicate PlannedThrows(cfg: Config, v: Visit, depth: nat, first: map<Key, Visit>) {
    Plan(cfg, v).Some? && SomeEdgeThrows(cfg, Plan(cfg, v).value, depth, first)
  }

  /** The query for the edges of a node throws: that of its record, or that of its resolutions. */
  ghost predicate QueryFails(cfg: Config, v: Visit) {
    if cfg.w.isPush(v.chain) then
      && (v.known.Some? ==> cfg.w.lookup(v.known.value) == Failed)
      && (v.known.None? ==> cfg.w.lookup(cfg.w.derivePcId(v.chain, v.hash)) == Failed)
    else
      var d := cfg.w.detect(v.hash, v.chain);
      d.Some? ==> cfg.w.resolve(d.value.(txHash := v.hash, chain := v.chain)) == None
  }

  /**
   An error ends in the nearest Push node above it, which keeps the edges made so far and gets
   the note; a node on another chain lets it through. So a visit throws exactly when it is a new
   one, on a supported chain, and its detection throws, or it is not on Push Chain, is expanded,
   and its resolver or the visit of one of its edges throws.
   */
  lemma ThrowsIff(cfg: Config, v: Visit, depth: nat, first: map<Key, Visit>)
    ensures
      var seen, detected := first[KeyOf(v) := v], cfg.w.detect(v.hash, v.chain);
      Walk(cfg, v, depth, first).result.Thrown? <==>
        && KeyOf(v) !in first && cfg.w.supported(v.chain)
        && (|| detected.None?
            || (&& depth < cfg.maxDepth && !cfg.w.isPush(v.chain)
                && (QueryFails(cfg, v) || PlannedThrows(cfg, v, depth + 1, seen))))
  {
    if Plan(cfg, v).Some? {
      var plan, seen := Plan(cfg, v).value, first[KeyOf(v) := v];
      ExpansionStopsAtThrow(cfg, plan, depth + 1, seen);
      ExpandFollowsPlan(cfg, plan, depth + 1, seen, 0);
    }
  }

  /** A Push node carries the failure note, besides its detection's own notes, exactly when it caught an error. */
  lemma NoteIff(cfg: Config, v: Visit, depth: nat, first: map<Key, Visit>)
    requires Walk(cfg, v, depth, first).result.Tree?
    ensures
      var n, seen := Walk(cfg, v, depth, first).result.node, first[KeyOf(v) := v];
      var d := cfg.w.detect(v.hash, v.chain);
      && d.Some?
      && (n.detection.notes == d.value.notes + [OutboundLookupFailed] || n.detection.notes == d.value.notes)
      && (n.detection.notes != d.value.notes <==>
            && depth < cfg.maxDepth && cfg.w.isPush(v.chain)
            && (QueryFails(cfg, v) || PlannedThrows(cfg, v, depth + 1, seen)))
  {
    var d := cfg.w.detect(v.hash, v.chain).value;
    assert |d.notes + [OutboundLookupFailed]| == |d.notes| + 1;
    if Plan(cfg, v).Some? {
      var plan, seen := Plan(cfg, v).value, first[KeyOf(v) := v];
      ExpansionStopsAtThrow(cfg, plan, depth + 1, seen);
      ExpandFollowsPlan(cfg, plan, depth + 1, seen, 0);
    }
  }

  // ---------------------------------------------------------------- completeness

  ghost predicate LeadsTo(plan: seq<PlannedEdge>, k: Key) {
    exists i :: 0 <= i < |plan| && plan[i].target.Some? && KeyOf(plan[i].target.value) == k
  }

  /** Every edge of `k`'s first visit ends in the visited set. */
  ghost predicate Closed(cfg: Config, k: Key, first: map<Key, Visit>) {
    k in first && forall t :: HasEdge(cfg, first[k], t) ==> t in first
  }

  ghost predicate AllClosed(cfg: Config, ks: seq<Key>, first: map<Key, Visit>) {
    forall k :: k in ks ==> Closed(cfg, k, first)
  }

  /** What was added to the visited set and is not in the tree is on an unsupported chain. */
  ghost predicate Accounted(cfg: Config, ks: seq<Key>, a: map<Key, Visit>, b: map<Key, Visit>) {
    forall k :: k in b && k !in a ==> k in ks || !cfg.w.supported(k.chain)
  }

  lemma {:induction false} WalkComplete(cfg: Config, v: Visit, depth: nat, first: map<Key, Visit>)
    ensures
      var r := Walk(cfg, v, depth, first);
      && (r.result.Null? ==> Accounted(cfg, [], first, r.first))
      && (r.result.Tree? && Clean(r.result.node) ==>
            && Accounted(cfg, Keys(r.result.node), first, r.first)
            && AllClosed(cfg, Keys(r.result.node), r.first))
    decreases Remaining(cfg, depth), 0
  {
    var r := Walk(cfg, v, depth, first);
    if r.result.Tree? && Clean(r.result.node) {
      var seen := first[KeyOf(v) := v];
      var plan := Plan(cfg, v);
      var e := Expand(cfg, plan, depth + 1, seen);
      var d := Detect(cfg, v).value;
      assert WithFailure(d).notes[|d.notes|] == OutboundLookupFailed;
      assert !e.threw && r.result.node.children == e.children;
      EdgesAreRecords(cfg, v);
      ExpandComplete(cfg, plan.value, depth + 1, seen);
      WalkSound(cfg, v, depth, first);
    }
  }

  lemma {:induction false} ExpandComplete(cfg: Config, plan: seq<PlannedEdge>, depth: nat, first: map<Key, Visit>)
    requires
      var e := ExpandAll(cfg, plan, depth, first);
      !e.threw && EdgesClean(e.children)
    ensures
      var e := ExpandAll(cfg, plan, depth, first);
      && Accounted(cfg, EdgeKeys(e.children), first, e.first)
      && AllClosed(cfg, EdgeKeys(e.children), e.first)
      && forall t :: LeadsTo(plan, t) ==> t in e.first
    decreases Remaining(cfg, depth), |plan|
  {
    if plan != [] {
      var e := ExpandAll(cfg, plan, depth, first);
      var rest := plan[1..];
      if plan[0].target.None? {
        assert e.children[1..] == ExpandAll(cfg, rest, depth, first).children;
        ExpandComplete(cfg, rest, depth, first);
        LeadsToTail(plan);
      } else {
        var r := Walk(cfg, plan[0].target.value, depth, first);
        assert e.children[1..] == ExpandAll(cfg, rest, depth, r.first).children;
        WalkComplete(cfg, plan[0].target.value, depth, first);
        WalkSound(cfg, plan[0].target.value, depth, first);
        ExpandComplete(cfg, rest, depth, r.first);
        ExpandSound(cfg, rest, depth, r.first);
        LeadsToTail(plan);
        if r.result.Tree? {
          ClosedGrows(cfg, Keys(r.result.node), r.first, e.first);
        }
      }
    }
  }

  lemma LeadsToTail(plan: seq<PlannedEdge>)
    requires plan != []
    ensures forall t :: LeadsTo(plan, t) ==>
                          LeadsTo(plan[1..], t) || (plan[0].target.Some? && KeyOf(plan[0].target.value) == t)
  {
    forall t | LeadsTo(plan, t)
      ensures LeadsTo(plan[1..], t) || (plan[0].target.Some? && KeyOf(plan[0].target.value) == t)
    {
      var i :| 0 <= i < |plan| && plan[i].target.Some? && KeyOf(plan[i].target.value) == t;
      if i > 0 {
        assert plan[1..][i - 1] == plan[i];
      }
    }
  }

  lemma ClosedGrows(cfg: Config, ks: seq<Key>, a: map<Key, Visit>, b: map<Key, Visit>)
    requires AllClosed(cfg, ks, a) && Extends(a, b)
    ensures AllClosed(cfg, ks, b)
  {
  }

  // ---------------------------------------------------------------- reachability

  /** A path along queried edges; every key but the last is on a supported chain. */
  ghost predicate IsPath(cfg: Config, first: map<Key, Visit>, p: seq<Key>) {
    && |p| > 0
    && forall i {:trigger p[i]} :: 0 <= i < |p| - 1 ==>
         p[i] in first && cfg.w.supported(p[i].chain) && HasEdge(cfg, first[p[i]], p[i + 1])
  }

  ghost predicate Connects(cfg: Config, first: map<Key, Visit>, p: seq<Key>, from: Key, to: Key) {
    IsPath(cfg, first, p) && p[0] == from && p[|p| - 1] == to
  }

  ghost predicate Reachable(cfg: Config, first: map<Key, Visit>, from: Key, to: Key) {
    exists p :: Connects(cfg, first, p, from, to)
  }

  /** `k` is reachable from the target of one of the planned edges. */
  ghost predicate ReachedVia(cfg: Config, plan: seq<PlannedEdge>, first: map<Key, Visit>, k: Key) {
    exists t :: LeadsTo(plan, t) && Reachable(cfg, first, t, k)
  }

  /** Every node of the tree is reachable from its root. */
  lemma {:induction false} WalkReaches(cfg: Config, v: Visit, depth: nat, first: map<Key, Visit>, k: Key)
    requires Walk(cfg, v, depth, first).result.Tree?
    requires k in Keys(Walk(cfg, v, depth, first).result.node)
    ensures Reachable(cfg, Walk(cfg, v, depth, first).first, KeyOf(v), k)
    decreases Remaining(cfg, depth), 0
  {
    var r := Walk(cfg, v, depth, first);
    WalkSound(cfg, v, depth, first);
    assert Connects(cfg, r.first, [KeyOf(v)], KeyOf(v), KeyOf(v));
    if k in EdgeKeys(r.result.node.children) {
      var plan := Plan(cfg, v).value;
      ExpandReaches(cfg, plan, depth + 1, first[KeyOf(v) := v], k);
      PathFromParent(cfg, v, plan, r.first, k);
    }
  }

  lemma PathFromParent(cfg: Config, v: Visit, plan: seq<PlannedEdge>, first: map<Key, Visit>, k: Key)
    requires Plan(cfg, v) == Some(plan) && cfg.w.supported(v.chain)
    requires KeyOf(v) in first && first[KeyOf(v)] == v
    requires ReachedVia(cfg, plan, first, k)
    ensures Reachable(cfg, first, KeyOf(v), k)
  {
    var t :| LeadsTo(plan, t) && Reachable(cfg, first, t, k);
    assert HasEdge(cfg, v, t) by {
      EdgesAreRecords(cfg, v);
    }
    var p :| Connects(cfg, first, p, t, k);
    PrependPath(cfg, v, first, t, p, k);
  }

  lemma PrependPath(cfg: Config, v: Visit, first: map<Key, Visit>, t: Key, p: seq<Key>, k: Key)
    requires KeyOf(v) in first && first[KeyOf(v)] == v && cfg.w.supported(v.chain)
    requires HasEdge(cfg, v, t) && Connects(cfg, first, p, t, k)
    ensures Reachable(cfg, first, KeyOf(v), k)
  {
    var q := [KeyOf(v)] + p;
    forall i | 0 <= i < |q| - 1
      ensures q[i] in first && cfg.w.supported(q[i].chain) && HasEdge(cfg, first[q[i]], q[i + 1])
    {
      if i > 0 {
        assert q[i] == p[i - 1] && q[i + 1] == p[i - 1 + 1];
      }
    }
    assert Connects(cfg, first, q, KeyOf(v), k);
  }

  lemma {:induction false} ExpandReaches(cfg: Config, plan: seq<PlannedEdge>, depth: nat, first: map<Key, Visit>, k: Key)
    requires k in EdgeKeys(ExpandAll(cfg, plan, depth, first).children)
    ensures ReachedVia(cfg, plan, ExpandAll(cfg, plan, depth, first).first, k)
    decreases Remaining(cfg, depth), |plan|
  {
    var e := ExpandAll(cfg, plan, depth, first);
    var next := first;
    if plan[0].target.Some? {
      var v := plan[0].target.value;
      var r := Walk(cfg, v, depth, first);
      next := r.first;
      ExpandSound(cfg, plan[1..], depth, next);
      if r.result.Tree? && k in Keys(r.result.node) {
        WalkReaches(cfg, v, depth, first, k);
        ReachableGrows(cfg, next, e.first, KeyOf(v), k);
        assert LeadsTo(plan, KeyOf(v));
        return;
      }
    }
    assert e.children[1..] == ExpandAll(cfg, plan[1..], depth, next).children;
    ExpandReaches(cfg, plan[1..], depth, next, k);
    ReachedViaTail(cfg, plan, e.first, k);
  }

  lemma ReachedViaTail(cfg: Config, plan: seq<PlannedEdge>, first: map<Key, Visit>, k: Key)
    requires plan != [] && ReachedVia(cfg, plan[1..], first, k)
    ensures ReachedVia(cfg, plan, first, k)
  {
    var t :| LeadsTo(plan[1..], t) && Reachable(cfg, first, t, k);
    var i :| 0 <= i < |plan[1..]| && plan[1..][i].target.Some? && KeyOf(plan[1..][i].target.value) == t;
    assert plan[i + 1] == plan[1..][i];
    assert LeadsTo(plan, t);
  }

  lemma ReachableGrows(cfg: Config, a: map<Key, Visit>, b: map<Key, Visit>, from: Key, to: Key)
    requires Extends(a, b) && Reachable(cfg, a, from, to)
    ensures Reachable(cfg, b, from, to)
  {
    var p :| Connects(cfg, a, p, from, to);
    assert Connects(cfg, b, p, from, to);
  }

  /** A closed set of keys holds every supported key reachable from it. */
  lemma {:induction false} ClosedHoldsPaths(cfg: Config, first: map<Key, Visit>, ks: seq<Key>, p: seq<Key>, n: nat)
    requires AllClosed(cfg, ks, first) && Accounted(cfg, ks, map[], first)
    requires IsPath(cfg, first, p) && p[0] in ks && n < |p|
    ensures p[n] in first
    ensures cfg.w.supported(p[n].chain) ==> p[n] in ks
  {
    if n > 0 {
      ClosedHoldsPaths(cfg, first, ks, p, n - 1);
      assert HasEdge(cfg, first[p[n - 1]], p[n - 1 + 1]);
    }
  }

  /**
   When nothing was truncated and no lookup failed, the tree's nodes are exactly the supported
   keys reachable from the root through the queried edges, each key's edges being those of
   the call that reached it first.
   */
  lemma TraceIsReachableSet(cfg: Config, v: Visit)
    requires Walk(cfg, v, 0, map[]).result.Tree?
    requires Clean(Walk(cfg, v, 0, map[]).result.node)
    ensures
      var r := Walk(cfg, v, 0, map[]);
      forall k :: k in Keys(r.result.node) <==>
                  cfg.w.supported(k.chain) && Reachable(cfg, r.first, KeyOf(v), k)
  {
    var r := Walk(cfg, v, 0, map[]);
    var ks := Keys(r.result.node);
    WalkSound(cfg, v, 0, map[]);
    WalkComplete(cfg, v, 0, map[]);
    forall k | k in ks ensures Reachable(cfg, r.first, KeyOf(v), k) {
      WalkReaches(cfg, v, 0, map[], k);
    }
    forall k: Key | cfg.w.supported(k.chain) && Reachable(cfg, r.first, KeyOf(v), k) ensures k in ks {
      var p :| Connects(cfg, r.first, p, KeyOf(v), k);
      assert ks[0] == KeyOf(v);
      ClosedHoldsPaths(cfg, r.first, ks, p, |p| - 1);
    }
  }

  /** The edges of a key do not depend on the call that reached it: they are `succ`. */
  ghost predicate Follows(cfg: Config, succ: Key -> set<Key>) {
    forall v: Visit, t: Key :: HasEdge(cfg, v, t) <==> t in succ(KeyOf(v))
  }

  ghost predicate GraphPath(cfg: Config, succ: Key -> set<Key>, p: seq<Key>, from: Key, to: Key) {
    && |p| > 0 && p[0] == from && p[|p| - 1] == to
    && forall i {:trigger p[i]} :: 0 <= i < |p| - 1 ==> cfg.w.supported(p[i].chain) && p[i + 1] in succ(p[i])
  }

  /** In that case the nodes are plain graph reachability, with no mention of the search. */
  lemma TraceIsGraphReachability(cfg: Config, v: Visit, succ: Key -> set<Key>)
    requires Walk(cfg, v, 0, map[]).result.Tree?
    requires Clean(Walk(cfg, v, 0, map[]).result.node)
    requires Follows(cfg, succ)
    ensures
      var n := Walk(cfg, v, 0, map[]).result.node;
      forall k :: k in Keys(n) <==>
                  cfg.w.supported(k.chain) && exists p :: GraphPath(cfg, succ, p, KeyOf(v), k)
  {
    var r := Walk(cfg, v, 0, map[]);
    var ks := Keys(r.result.node);
    TraceIsReachableSet(cfg, v);
    WalkSound(cfg, v, 0, map[]);
    WalkComplete(cfg, v, 0, map[]);
    assert ks[0] == KeyOf(v);
    forall k | k in ks ensures exists p :: GraphPath(cfg, succ, p, KeyOf(v), k) {
      var p: seq<Key> :| Connects(cfg, r.first, p, KeyOf(v), k);
      forall i | 0 <= i < |p| - 1 ensures cfg.w.supported(p[i].chain) && p[i + 1] in succ(p[i]) {
        ClosedHoldsPaths(cfg, r.first, ks, p, i);
        assert HasEdge(cfg, r.first[p[i]], p[i + 1]);
      }
      assert GraphPath(cfg, succ, p, KeyOf(v), k);
    }
    forall k, t | k in ks && t in succ(k) && cfg.w.supported(t.chain) ensures t in ks {
      StepStays(cfg, succ, r.first, k, t);
    }
    forall k: Key, p | cfg.w.supported(k.chain) && GraphPath(cfg, succ, p, KeyOf(v), k) ensures k in ks {
      GraphPathStays(cfg, succ, ks, p, |p| - 1);
    }
  }

  lemma StepStays(cfg: Config, succ: Key -> set<Key>, first: map<Key, Visit>, k: Key, t: Key)
    requires Follows(cfg, succ) && Closed(cfg, k, first) && KeyOf(first[k]) == k
    requires t in succ(k)
    ensures t in first
  {
    assert HasEdge(cfg, first[k], t);
  }

  lemma {:induction false} GraphPathStays(cfg: Config, succ: Key -> set<Key>, ks: seq<Key>, p: seq<Key>, n: nat)
    requires forall k, t :: k in ks && t in succ(k) && cfg.w.supported(t.chain) ==> t in ks
    requires |p| > 0 && GraphPath(cfg, succ, p, p[0], p[|p| - 1]) && p[0] in ks && n < |p|
    requires cfg.w.supported(p[|p| - 1].chain)
    ensures p[n] in ks
  {
    if n > 0 {
      GraphPathStays(cfg, succ, ks, p, n - 1);
      var before := p[n - 1];
      assert p[n - 1 + 1] in succ(before);
      assert n == |p| - 1 || cfg.w.supported(p[n].chain);
    }
  }
}

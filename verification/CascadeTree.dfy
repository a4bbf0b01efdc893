/**
 Two passes over a finished cascade tree: `flattenCascade`, an explicit-stack preorder, and
 `normalizeCascadeNodeForUser`, which rewrites Solana signatures to base58 for display.

 The normalizers of the source reuse an input object when nothing in it changed; on values
 that is the same as rebuilding it.
 */
module CascadeTree {
  import opened Wrappers
  import opened Strings
  import opened CascadeTypes

  // ---------------------------------------------------------------- flatten

  /** The nodes of a tree, parents before children, siblings in order. */
  function Preorder(n: Node): (r: seq<Node>)
    ensures |r| > 0 && r[0] == n
    decreases n, 1
  {
    [n] + EdgesPreorder(n.children)
  }

  function EdgesPreorder(es: seq<Edge>): seq<Node>
    decreases es, 0
  {
    if es == [] then []
    else
      assert es decreases to es[0];
      (if es[0].Branch? then Preorder(es[0].node) else []) + EdgesPreorder(es[1..])
  }

  /** The preorder of a stack of trees, top (last) first. */
  ghost function StackPreorder(stack: seq<Node>): seq<Node> {
    if stack == [] then []
    else Preorder(stack[|stack| - 1]) + StackPreorder(stack[..|stack| - 1])
  }

  lemma StackPush(stack: seq<Node>, n: Node)
    ensures StackPreorder(stack + [n]) == Preorder(n) + StackPreorder(stack)
  {
    assert (stack + [n])[..|stack|] == stack;
  }

  /** `flattenCascade` returns the recursive preorder; it ends because each step emits a node of it. */
  method FlattenCascade(root: Node) returns (out: seq<Node>)
    ensures out == Preorder(root)
  {
    out := [];
    var stack := [root];
    StackPush([], root);
    while |stack| > 0
      invariant out + StackPreorder(stack) == Preorder(root)
      decreases |StackPreorder(stack)|
    {
      var n := stack[|stack| - 1];
      assert StackPreorder(stack) == [n] + (EdgesPreorder(n.children) + StackPreorder(stack[..|stack| - 1]));
      out := out + [n];
      stack := PushChildren(stack[..|stack| - 1], n.children);
    }
  }

  lemma Regroup(a: seq<Node>, b: seq<Node>, c: seq<Node>)
    ensures a + (b + c) == (a + b) + c
  {
  }

  lemma EdgesFrom(children: seq<Edge>, i: nat)
    requires i < |children|
    ensures EdgesPreorder(children[i..]) ==
            (if children[i].Branch? then Preorder(children[i].node) else []) + EdgesPreorder(children[i + 1..])
  {
    assert children[i..][1..] == children[i + 1..];
  }

  /** Pushes the children last to first, so that the first is popped next. */
  method PushChildren(below: seq<Node>, children: seq<Edge>) returns (stack: seq<Node>)
    ensures StackPreorder(stack) == EdgesPreorder(children) + StackPreorder(below)
  {
    stack := below;
    var i := |children|;
    while i > 0
      invariant 0 <= i <= |children|
      invariant StackPreorder(stack) == EdgesPreorder(children[i..]) + StackPreorder(below)
    {
      i := i - 1;
      EdgesFrom(children, i);
      if children[i].Branch? {
        StackPush(stack, children[i].node);
        Regroup(Preorder(children[i].node), EdgesPreorder(children[i + 1..]), StackPreorder(below));
        stack := stack + [children[i].node];
      }
    }
    assert children[0..] == children;
  }

  // ---------------------------------------------------------------- display form of a hash

  datatype Vm = EVM | SVM
  datatype ChainInfo = ChainInfo(chain: string, vm: Vm, chainId: string) {
    /** Its namespace, spelled out. */
    predicate Named(namespace: string) {
      namespace == (if vm == SVM then "solana:" else "eip155:") + chainId
    }
  }

  /** The chain registry in its own order, and base58 of the bytes a hex string decodes to. */
  datatype Env = Env(registry: seq<ChainInfo>, base58: string -> string)

  /** Base58 leaves out the digit zero. */
  ghost predicate NoZeroDigit(env: Env) {
    forall hex :: '0' !in env.base58(hex)
  }

  function VmNamespace(vm: Vm): string {
    match vm
    case EVM => "eip155"
    case SVM => "solana"
  }

  function Namespace(info: ChainInfo): string {
    VmNamespace(info.vm) + ":" + info.chainId
  }

  /** The first registered chain with that namespace. */
  function ChainFromNamespace(registry: seq<ChainInfo>, namespace: string): Option<string> {
    if registry == [] then None
    else if Namespace(registry[0]) == namespace then Some(registry[0].chain)
    else ChainFromNamespace(registry[1..], namespace)
  }

  function VmOf(registry: seq<ChainInfo>, chain: string): Option<Vm> {
    if registry == [] then None
    else if registry[0].chain == chain then Some(registry[0].vm)
    else VmOf(registry[1..], chain)
  }

  function ToExternalTxHashDisplay(env: Env, chain: Option<string>, raw: string): string {
    if raw == "" then raw
    else if chain.None? || VmOf(env.registry, chain.value) != Some(SVM) then raw
    else if !StartsWith0x(raw) then raw
    else env.base58(raw[2..])
  }

  // ---------------------------------------------------------------- normalize

  function NormalizeSummary(env: Env, s: OutboundSummary): OutboundSummary {
    if s.externalTxHash.None? || s.externalTxHash.value == "" then s
    else
      var next := ToExternalTxHashDisplay(
        env, ChainFromNamespace(env.registry, s.destinationChain), s.externalTxHash.value);
      if next == s.externalTxHash.value then s else s.(externalTxHash := Some(next))
  }

  function NormalizeSummaries(env: Env, ss: seq<OutboundSummary>): (r: seq<OutboundSummary>)
    ensures |r| == |ss| && forall i :: 0 <= i < |r| ==> r[i] == NormalizeSummary(env, ss[i])
  {
    if ss == [] then [] else [NormalizeSummary(env, ss[0])] + NormalizeSummaries(env, ss[1..])
  }

  function NormalizeDetection(env: Env, d: Detection): Detection {
    if d.pushChainTx.None? then d
    else
      var x := d.pushChainTx.value;
      d.(pushChainTx := Some(x.(outboundHashes := NormalizeSummaries(env, x.outboundHashes))))
  }

  function NormalizeRelation(env: Env, r: Relation): Relation {
    match r
    case OutboundRelation(s) => OutboundRelation(NormalizeSummary(env, s))
    case InboundRelation(i) => InboundRelation(i.(outboundHashes := NormalizeSummaries(env, i.outboundHashes)))
    case RefundRelation(_) => r
  }

  function NormalizeNode(env: Env, n: Node): Node
    decreases n, 1
  {
    n.(detection := NormalizeDetection(env, n.detection), children := NormalizeEdges(env, n.children))
  }

  function NormalizeEdges(env: Env, es: seq<Edge>): seq<Edge>
    decreases es, 0
  {
    if es == [] then []
    else
      assert es decreases to es[0];
      var relation := NormalizeRelation(env, es[0].relation);
      [if es[0].Branch? then Branch(relation, NormalizeNode(env, es[0].node)) else Bare(relation)]
      + NormalizeEdges(env, es[1..])
  }

  // ---------------------------------------------------------------- what is a display form

  /** The one shape that is rewritten: a `0x` hash of an outbound to a registered SVM chain. */
  predicate RawSvmHash(env: Env, s: OutboundSummary) {
    && s.externalTxHash.Some? && StartsWith0x(s.externalTxHash.value)
    && var chain := ChainFromNamespace(env.registry, s.destinationChain);
       chain.Some? && VmOf(env.registry, chain.value) == Some(SVM)
  }

  predicate NoneRaw(env: Env, ss: seq<OutboundSummary>) {
    forall i :: 0 <= i < |ss| ==> !RawSvmHash(env, ss[i])
  }

  predicate DisplayDetection(env: Env, d: Detection) {
    d.pushChainTx.Some? ==> NoneRaw(env, d.pushChainTx.value.outboundHashes)
  }

  predicate DisplayRelation(env: Env, r: Relation) {
    match r
    case OutboundRelation(s) => !RawSvmHash(env, s)
    case InboundRelation(i) => NoneRaw(env, i.outboundHashes)
    case RefundRelation(_) => true
  }

  /** No raw SVM hash is left anywhere in the tree. */
  predicate DisplayNode(env: Env, n: Node)
    decreases n, 1
  {
    DisplayDetection(env, n.detection) && DisplayEdges(env, n.children)
  }

  predicate DisplayEdges(env: Env, es: seq<Edge>)
    decreases es, 0
  {
    es == [] ||
    assert es decreases to es[0];
    (&& DisplayRelation(env, es[0].relation)
     && (es[0].Branch? ==> DisplayNode(env, es[0].node))
     && DisplayEdges(env, es[1..]))
  }

  lemma SummaryFixpoint(env: Env, s: OutboundSummary)
    requires NoZeroDigit(env)
    ensures NormalizeSummary(env, s) == s <==> !RawSvmHash(env, s)
    ensures !RawSvmHash(env, NormalizeSummary(env, s))
  {
    if RawSvmHash(env, s) {
      var raw := s.externalTxHash.value;
      HoldsZeroDigit(raw);
      HoldsZeroDigit(env.base58(raw[2..]));
    }
  }

  lemma HoldsZeroDigit(s: string)
    ensures StartsWith0x(s) ==> '0' in s
  {
    if StartsWith0x(s) {
      assert s[..2][0] == s[0];
    }
  }

  lemma SummariesFixpoint(env: Env, ss: seq<OutboundSummary>)
    requires NoZeroDigit(env)
    ensures NormalizeSummaries(env, ss) == ss <==> NoneRaw(env, ss)
    ensures NoneRaw(env, NormalizeSummaries(env, ss))
  {
    var r := NormalizeSummaries(env, ss);
    forall i | 0 <= i < |ss| ensures r[i] == ss[i] <==> !RawSvmHash(env, ss[i])
                             ensures !RawSvmHash(env, r[i])
    {
      SummaryFixpoint(env, ss[i]);
    }
  }

  lemma DetectionFixpoint(env: Env, d: Detection)
    requires NoZeroDigit(env)
    ensures NormalizeDetection(env, d) == d <==> DisplayDetection(env, d)
    ensures DisplayDetection(env, NormalizeDetection(env, d))
  {
    if d.pushChainTx.Some? {
      SummariesFixpoint(env, d.pushChainTx.value.outboundHashes);
    }
  }

  lemma RelationFixpoint(env: Env, r: Relation)
    requires NoZeroDigit(env)
    ensures NormalizeRelation(env, r) == r <==> DisplayRelation(env, r)
    ensures DisplayRelation(env, NormalizeRelation(env, r))
  {
    match r
    case OutboundRelation(s) => SummaryFixpoint(env, s);
    case InboundRelation(i) => SummariesFixpoint(env, i.outboundHashes);
    case RefundRelation(_) =>
  }

  /** Normalizing leaves no raw SVM hash, and changes a tree exactly when it holds one. */
  lemma {:induction false} NormalizeFixpoint(env: Env, n: Node)
    requires NoZeroDigit(env)
    ensures NormalizeNode(env, n) == n <==> DisplayNode(env, n)
    ensures DisplayNode(env, NormalizeNode(env, n))
    decreases n, 1
  {
    DetectionFixpoint(env, n.detection);
    EdgesFixpoint(env, n.children);
  }

  lemma {:induction false} EdgesFixpoint(env: Env, es: seq<Edge>)
    requires NoZeroDigit(env)
    ensures NormalizeEdges(env, es) == es <==> DisplayEdges(env, es)
    ensures DisplayEdges(env, NormalizeEdges(env, es))
    decreases es, 0
  {
    if es != [] {
      assert es decreases to es[0];
      RelationFixpoint(env, es[0].relation);
      if es[0].Branch? {
        NormalizeFixpoint(env, es[0].node);
      }
      EdgesFixpoint(env, es[1..]);
      var r := NormalizeEdges(env, es);
      assert r[1..] == NormalizeEdges(env, es[1..]);
      assert es == [es[0]] + es[1..];
    }
  }

  /** Idempotence: what users get is not rewritten a second time. */
  lemma NormalizeIdempotent(env: Env, n: Node)
    requires NoZeroDigit(env)
    ensures NormalizeNode(env, NormalizeNode(env, n)) == NormalizeNode(env, n)
  {
    NormalizeFixpoint(env, n);
    NormalizeFixpoint(env, NormalizeNode(env, n));
  }

  // ---------------------------------------------------------------- which hashes change, and to what

  /** The k-th registered chain is the first with the namespace. */
  predicate FirstNamed(registry: seq<ChainInfo>, namespace: string, k: nat) {
    && k < |registry| && registry[k].Named(namespace)
    && forall j :: 0 <= j < k ==> !registry[j].Named(namespace)
  }

  predicate DistinctChains(registry: seq<ChainInfo>) {
    forall i, j :: 0 <= i < j < |registry| ==> registry[i].chain != registry[j].chain
  }

  lemma {:induction false} FirstNamedIsFound(registry: seq<ChainInfo>, namespace: string, k: nat)
    requires FirstNamed(registry, namespace, k)
    ensures ChainFromNamespace(registry, namespace) == Some(registry[k].chain)
  {
    if k > 0 {
      FirstNamedIsFound(registry[1..], namespace, k - 1);
    }
  }

  lemma {:induction false} NoneNamedIsNotFound(registry: seq<ChainInfo>, namespace: string)
    requires forall j :: 0 <= j < |registry| ==> !registry[j].Named(namespace)
    ensures ChainFromNamespace(registry, namespace) == None
  {
    if registry != [] {
      NoneNamedIsNotFound(registry[1..], namespace);
    }
  }

  lemma {:induction false} VmOfRegistered(registry: seq<ChainInfo>, k: nat)
    requires DistinctChains(registry) && k < |registry|
    ensures VmOf(registry, registry[k].chain) == Some(registry[k].vm)
  {
    if k > 0 {
      VmOfRegistered(registry[1..], k - 1);
      assert registry[0].chain != registry[k].chain;
    }
  }

  /**
   A `0x` hash of an outbound to a registered chain: on Solana it becomes the base58 of the bytes
   that its digits stand for, from which a base58 decoder gets them back; elsewhere it stays.
   */
  lemma DisplayOfRegistered(env: Env, unbase58: string -> string, s: OutboundSummary, digits: string, k: nat)
    requires DistinctChains(env.registry) && FirstNamed(env.registry, s.destinationChain, k)
    requires s.externalTxHash == Some("0x" + digits)
    requires unbase58(env.base58(digits)) == digits
    requires NoZeroDigit(env)
    ensures env.registry[k].vm.EVM? ==> NormalizeSummary(env, s) == s
    ensures env.registry[k].vm.SVM? ==>
              && NormalizeSummary(env, s).externalTxHash == Some(env.base58(digits))
              && unbase58(NormalizeSummary(env, s).externalTxHash.value) == digits
  {
    FirstNamedIsFound(env.registry, s.destinationChain, k);
    VmOfRegistered(env.registry, k);
    assert ("0x" + digits)[2..] == digits;
  }

  /** What is not a `0x` hash, and every hash of an outbound to a chain that is not registered, stays. */
  lemma DisplayKeeps(env: Env, s: OutboundSummary)
    requires
      || s.externalTxHash.None? || !StartsWith0x(s.externalTxHash.value)
      || forall j :: 0 <= j < |env.registry| ==> !env.registry[j].Named(s.destinationChain)
    ensures NormalizeSummary(env, s) == s
  {
    if forall j :: 0 <= j < |env.registry| ==> !env.registry[j].Named(s.destinationChain) {
      NoneNamedIsNotFound(env.registry, s.destinationChain);
    }
  }

  // ---------------------------------------------------------------- what stays

  /** A summary with its hash blanked if, and only if, its destination is an SVM chain. */
  function EraseSummary(env: Env, s: OutboundSummary): OutboundSummary {
    var chain := ChainFromNamespace(env.registry, s.destinationChain);
    if s.externalTxHash.Some? && chain.Some? && VmOf(env.registry, chain.value) == Some(SVM)
    then s.(externalTxHash := Some("")) else s
  }

  function EraseSummaries(env: Env, ss: seq<OutboundSummary>): (r: seq<OutboundSummary>)
    ensures |r| == |ss| && forall i :: 0 <= i < |r| ==> r[i] == EraseSummary(env, ss[i])
  {
    if ss == [] then [] else [EraseSummary(env, ss[0])] + EraseSummaries(env, ss[1..])
  }

  function EraseDetection(env: Env, d: Detection): Detection {
    if d.pushChainTx.None? then d
    else
      var x := d.pushChainTx.value;
      d.(pushChainTx := Some(x.(outboundHashes := EraseSummaries(env, x.outboundHashes))))
  }

  function EraseRelation(env: Env, r: Relation): Relation {
    match r
    case OutboundRelation(s) => OutboundRelation(EraseSummary(env, s))
    case InboundRelation(i) => InboundRelation(i.(outboundHashes := EraseSummaries(env, i.outboundHashes)))
    case RefundRelation(_) => r
  }

  function EraseNode(env: Env, n: Node): Node
    decreases n, 1
  {
    n.(detection := EraseDetection(env, n.detection), children := EraseEdges(env, n.children))
  }

  function EraseEdges(env: Env, es: seq<Edge>): seq<Edge>
    decreases es, 0
  {
    if es == [] then []
    else
      assert es decreases to es[0];
      var relation := EraseRelation(env, es[0].relation);
      [if es[0].Branch? then Branch(relation, EraseNode(env, es[0].node)) else Bare(relation)]
      + EraseEdges(env, es[1..])
  }

  /** Nothing but `externalTxHash` values of SVM destinations changes: same shape, same fields. */
  lemma {:induction false} NormalizeOnlySvmHashes(env: Env, n: Node)
    ensures EraseNode(env, NormalizeNode(env, n)) == EraseNode(env, n)
    decreases n, 1
  {
    if n.detection.pushChainTx.Some? {
      var ss := n.detection.pushChainTx.value.outboundHashes;
      assert EraseSummaries(env, NormalizeSummaries(env, ss)) == EraseSummaries(env, ss);
    }
    EdgesOnlySvmHashes(env, n.children);
  }

  lemma {:induction false} EdgesOnlySvmHashes(env: Env, es: seq<Edge>)
    ensures EraseEdges(env, NormalizeEdges(env, es)) == EraseEdges(env, es)
    decreases es, 0
  {
    if es != [] {
      assert es decreases to es[0];
      if es[0].relation.InboundRelation? {
        var ss := es[0].relation.inbound.outboundHashes;
        assert EraseSummaries(env, NormalizeSummaries(env, ss)) == EraseSummaries(env, ss);
      }
      if es[0].Branch? {
        NormalizeOnlySvmHashes(env, es[0].node);
      }
      EdgesOnlySvmHashes(env, es[1..]);
      assert NormalizeEdges(env, es)[1..] == NormalizeEdges(env, es[1..]);
    }
  }

  function NormalizeAll(env: Env, ns: seq<Node>): (r: seq<Node>)
    ensures |r| == |ns| && forall i :: 0 <= i < |r| ==> r[i] == NormalizeNode(env, ns[i])
  {
    if ns == [] then [] else [NormalizeNode(env, ns[0])] + NormalizeAll(env, ns[1..])
  }

  /** Flattening and normalizing commute: the order of nodes is kept. */
  lemma {:induction false} FlattenNormalizeCommute(env: Env, n: Node)
    ensures Preorder(NormalizeNode(env, n)) == NormalizeAll(env, Preorder(n))
    decreases n, 1
  {
    EdgesCommute(env, n.children);
    var all := NormalizeAll(env, Preorder(n));
    assert all == [NormalizeNode(env, n)] + NormalizeAll(env, EdgesPreorder(n.children));
  }

  lemma {:induction false} EdgesCommute(env: Env, es: seq<Edge>)
    ensures EdgesPreorder(NormalizeEdges(env, es)) == NormalizeAll(env, EdgesPreorder(es))
    decreases es, 0
  {
    if es != [] {
      assert es decreases to es[0];
      var rest := EdgesPreorder(es[1..]);
      EdgesCommute(env, es[1..]);
      var r := NormalizeEdges(env, es);
      assert r[1..] == NormalizeEdges(env, es[1..]);
      if es[0].Branch? {
        FlattenNormalizeCommute(env, es[0].node);
        NormalizeAllConcat(env, Preorder(es[0].node), rest);
        assert EdgesPreorder(r) == Preorder(r[0].node) + EdgesPreorder(r[1..]);
      } else {
        assert EdgesPreorder(es) == rest;
        assert EdgesPreorder(r) == EdgesPreorder(r[1..]);
      }
    }
  }

  lemma NormalizeAllConcat(env: Env, a: seq<Node>, b: seq<Node>)
    ensures NormalizeAll(env, a + b) == NormalizeAll(env, a) + NormalizeAll(env, b)
  {
  }
}

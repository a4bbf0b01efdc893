/** The tree that `traceUniversalTxCascade` returns, as plain values. */
module CascadeTypes {
  import opened Wrappers

  /** A cosmos outbound tuple. */
  datatype OutboundSummary = OutboundSummary(
    subTxId: string, status: string, destinationChain: string,
    externalTxHash: Option<string>, amount: Option<string>, recipient: Option<string>)

  /** The universal tx a destination log gave rise to. */
  datatype Resolution = Resolution(
    universalTxId: string, sourceLogIndex: int, sourceEventName: string,
    status: int, statusName: string, pcTxHashes: seq<string>,
    outboundHashes: seq<OutboundSummary>, notFound: bool)

  /** A gas-refund or revert tx on Push Chain. */
  datatype Refund = Refund(
    txHash: string, sender: string, gasUsed: int, blockHeight: int,
    status: string, errorMsg: string, parentOutboundId: string)

  datatype CrossRef = CrossRef(
    id: string, status: int, pcTxHashes: seq<string>, outboundHashes: seq<OutboundSummary>)

  datatype Note = OutboundLookupFailed | Text(text: string)

  datatype Detection = Detection(
    txHash: string, chain: string, kind: string, pushChainTx: Option<CrossRef>, notes: seq<Note>)

  datatype Relation =
    | OutboundRelation(outbound: OutboundSummary)
    | InboundRelation(inbound: Resolution)
    | RefundRelation(refund: Refund)

  /** An edge without a child is one the source gives a `null` node. */
  datatype Edge = Bare(relation: Relation) | Branch(relation: Relation, node: Node)

  /** The marks a node can carry where the search stopped. */
  datatype Truncation = MaxDepth | Cycle

  datatype Node = Node(detection: Detection, children: seq<Edge>, depth: nat, truncated: Option<Truncation>)
}

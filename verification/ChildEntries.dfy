/** What the entries and the diagnostics of the child-inbound resolver tell, field by field. */
module ChildEntries {
  import opened Wrappers
  import opened CascadeTypes
  import opened ChildInbounds

  // ---------------------------------------------------------------- what the diagnostics tell

  /** The complaint a log gives rise to: a negative index, or a lookup that failed. */
  ghost predicate Complains(derive: Derivation, answer: Chain, logs: seq<Log>, i: nat, d: Diagnostic)
    requires i < |logs|
  {
    match d
    case NegativeIndex(name) => logs[i].logIndex < 0 && name == logs[i].eventName
    case LookupFailed(id, message) =>
      logs[i].logIndex >= 0 && id == IdAt(derive, logs[i]) && answer(i, id) == Failed(message)
  }

  /** The diagnostics are the complaints of the logs, and there is at most one for each. */
  lemma {:induction false} DiagnosticsAreComplaints(derive: Derivation, answer: Chain, logs: seq<Log>, n: nat, d: Diagnostic)
    requires n <= |logs|
    ensures d in Diagnostics(derive, answer, logs, n) <==> exists i :: 0 <= i < n && Complains(derive, answer, logs, i, d)
    ensures |Diagnostics(derive, answer, logs, n)| <= n
  {
    if n > 0 {
      DiagnosticsAreComplaints(derive, answer, logs, n - 1, d);
      var id := IdAt(derive, logs[n - 1]);
      assert Complains(derive, answer, logs, n - 1, d) <==> d in Reported(logs[n - 1], id, answer(n - 1, id));
    }
  }

  // ---------------------------------------------------------------- what an entry tells

  /** The hashes that are there and not empty. */
  predicate Present(hashes: seq<Option<string>>, h: string) {
    h != "" && Some(h) in hashes
  }

  lemma {:induction false} PresentHashesMembers(hashes: seq<Option<string>>, h: string)
    ensures h in PresentHashes(hashes) <==> Present(hashes, h)
    ensures |PresentHashes(hashes)| <= |hashes|
  {
    if hashes != [] {
      PresentHashesMembers(hashes[1..], h);
      assert hashes == [hashes[0]] + hashes[1..];
    }
  }

  lemma {:induction false} PresentHashesOrder(a: seq<Option<string>>, b: seq<Option<string>>)
    ensures PresentHashes(a + b) == PresentHashes(a) + PresentHashes(b)
  {
    if a == [] {
      assert a + b == b;
    } else {
      assert (a + b)[1..] == a[1..] + b;
      PresentHashesOrder(a[1..], b);
    }
  }

  /** An outbound of the record as the entry shows it, field by field. */
  predicate Shows(s: OutboundSummary, ob: OutboundRecord) {
    && s.amount == ob.amount && s.recipient == ob.recipient
    && (ob.id == Some(s.subTxId) || (ob.id.None? && s.subTxId == ""))
    && (ob.destinationChain == Some(s.destinationChain) || (ob.destinationChain.None? && s.destinationChain == ""))
    && (s.externalTxHash.Some? <==> ob.observedTxHash.Some? && ob.observedTxHash.value != "")
    && (s.externalTxHash.Some? ==> s.externalTxHash == ob.observedTxHash)
    && (s.status == "PENDING" <==> ob.outboundStatus == 1)
    && (s.status == "OBSERVED" <==> ob.outboundStatus == 2)
    && (s.status == "REVERTED" <==> ob.outboundStatus == 3)
    && (s.status == "OUTBOUND_STATUS_UNSPECIFIED" <==> ob.outboundStatus == 0)
  }

  lemma SummaryShows(ob: OutboundRecord)
    ensures Shows(Summaries([ob])[0], ob)
  {
    StatusUnknown(ob.outboundStatus);
  }

  lemma StatusUnknown(n: int)
    ensures !(0 <= n <= 3) ==> |OutboundStatusName(n)| > 0 && OutboundStatusName(n)[|OutboundStatusName(n)| - 1] == ')'
  {
  }

  /**
   The entry of a record: its id and log, the status, a missing one counting as zero, the present
   hashes in order, and one summary for each outbound, in order.
   */
  lemma EntryTellsRecord(id: string, log: Log, utx: UniversalTx, i: nat, h: string)
    requires utx.id != ""
    ensures
      var e := Resolved(id, log, Answered(Some(utx)));
      && !e.notFound && e.universalTxId == id && e.sourceLogIndex == log.logIndex && e.sourceEventName == log.eventName
      && (utx.universalStatus == Some(e.status) || (utx.universalStatus.None? && e.status == 0))
      && (h in e.pcTxHashes <==> Present(utx.pcTxHashes, h))
      && |e.outboundHashes| == |utx.outbounds|
      && (i < |utx.outbounds| ==> Shows(e.outboundHashes[i], utx.outbounds[i]))
  {
    PresentHashesMembers(utx.pcTxHashes, h);
    if i < |utx.outbounds| {
      SummaryShows(utx.outbounds[i]);
      assert Summaries(utx.outbounds)[i] == Summaries([utx.outbounds[i]])[0];
    }
  }

  /** Without a record, or with one that has no id, and after a failed lookup, the entry is not found. */
  lemma NotFoundIff(id: string, log: Log, answer: Answer)
    ensures
      var e := Resolved(id, log, answer);
      && (e.notFound <==> !exists utx: UniversalTx :: utx.id != "" && answer == Answered(Some(utx)))
      && (e.notFound ==> e == Resolution(id, log.logIndex, log.eventName, 0, "UNIVERSAL_TX_STATUS_UNSPECIFIED", [], [], true))
  {
    if answer.Answered? && answer.record.Some? {
      assert answer == Answered(Some(answer.record.value));
    }
  }
}

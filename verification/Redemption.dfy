/** Destination transactions of redeemed VAAs (contract-watcher/watcher/watcher.go and
    contract-watcher/storage/repository.go): which update may replace which. */
module Redemption {
  import opened Wrappers
  import opened Writes

  const CONFIRMED := "completed"
  const FAILED := "failed"
  const UNKNOWN := "unknown"

  /** A destination transaction without its time stamps. */
  datatype DestinationTx = DestinationTx(
    chainId: nat, status: string, methodName: string, txHash: string, sender: string, receiver: string, blockNumber: string)

  datatype TransactionUpdate = TransactionUpdate(id: string, destination: DestinationTx)

  /** A document may exist without a destination: other services write the origin part. */
  datatype TxDoc = TxDoc(origin: string, destination: Option<DestinationTx>, revision: nat)

  type GlobalTxs = map<string, TxDoc>

  datatype UpdateError = NoError | FailedCannotBeUpdated | UnknownCannotBeUpdated | InvalidStatus

  /** The status the lookup by identifier reports: None for an error, which a missing document is,
      and the empty string for a document without a destination. */
  function Lookup(txs: GlobalTxs, id: string, ok: bool): Option<string> {
    if !ok || id !in txs then None
    else if txs[id].destination.None? then Some("")
    else Some(txs[id].destination.value.status)
  }

  function CheckTxShouldBeUpdated(tx: TransactionUpdate, found: Option<string>): (bool, UpdateError) {
    if tx.destination.status == CONFIRMED then (true, NoError)
    else if tx.destination.status == FAILED then
      if found.None? then (true, NoError)
      else if found.value == CONFIRMED then (false, FailedCannotBeUpdated)
      else (true, NoError)
    else if tx.destination.status == UNKNOWN then
      if found.None? then (true, NoError)
      else if found.value == CONFIRMED || found.value == FAILED then (false, UnknownCannotBeUpdated)
      else (true, NoError)
    else (false, InvalidStatus)
  }

  /** confirmed > failed > unknown > everything else. */
  function Rank(status: string): nat {
    if status == CONFIRMED then 3 else if status == FAILED then 2 else if status == UNKNOWN then 1 else 0
  }

  /** After a successful lookup an update passes exactly when it is valid and does not lower the
      rank; after a failed one every valid update passes. The error names the status refused. */
  lemma CheckComparesRanks(tx: TransactionUpdate, found: Option<string>)
    ensures CheckTxShouldBeUpdated(tx, found).0 <==>
              Rank(tx.destination.status) > 0 && (found.None? || Rank(tx.destination.status) >= Rank(found.value))
    ensures CheckTxShouldBeUpdated(tx, found).1 ==
              if CheckTxShouldBeUpdated(tx, found).0 then NoError
              else if Rank(tx.destination.status) == 0 then InvalidStatus
              else if Rank(tx.destination.status) == 1 then UnknownCannotBeUpdated
              else FailedCannotBeUpdated
  {
  }

  /** One call of updateGlobalTransaction and what its lookup and write met. */
  datatype Step = Step(tx: TransactionUpdate, lookup: bool, write: Write)

  function Upserted(txs: GlobalTxs, tx: TransactionUpdate): TxDoc {
    if tx.id in txs then TxDoc(txs[tx.id].origin, Some(tx.destination), txs[tx.id].revision + 1)
    else TxDoc("", Some(tx.destination), 1)
  }

  function Apply(txs: GlobalTxs, step: Step): GlobalTxs {
    if CheckTxShouldBeUpdated(step.tx, Lookup(txs, step.tx.id, step.lookup)).0 && step.write.Applied()
    then txs[step.tx.id := Upserted(txs, step.tx)] else txs
  }

  function Run(txs: GlobalTxs, steps: seq<Step>): GlobalTxs {
    if steps == [] then txs else Apply(Run(txs, steps[..|steps| - 1]), steps[|steps| - 1])
  }

  lemma RunExtends(txs: GlobalTxs, steps: seq<Step>, step: Step)
    ensures Run(txs, steps + [step]) == Apply(Run(txs, steps), step)
  {
    assert (steps + [step])[..|steps|] == steps;
  }

  function Destination(txs: GlobalTxs, id: string): Option<DestinationTx> {
    if id in txs then txs[id].destination else None
  }

  function StoredRank(txs: GlobalTxs, id: string): nat {
    match Destination(txs, id)
    case None => 0
    case Some(d) => Rank(d.status)
  }

  // ---------------------------------------------------------------- single steps

  /** The stored rank falls in exactly one situation: the lookup of an existing document failed and
      a valid lower update was written. */
  lemma RankFallsIff(txs: GlobalTxs, step: Step, id: string)
    ensures StoredRank(Apply(txs, step), id) < StoredRank(txs, id) <==>
              && step.tx.id == id && id in txs && !step.lookup && step.write.Applied()
              && 0 < Rank(step.tx.destination.status) < StoredRank(txs, id)
  {
    CheckComparesRanks(step.tx, Lookup(txs, id, step.lookup));
  }

  /** An update touches only the destination of its own document. */
  lemma OnlyDestinationChanges(txs: GlobalTxs, step: Step, id: string)
    requires id in txs
    ensures id in Apply(txs, step) && Apply(txs, step)[id].origin == txs[id].origin
    ensures id != step.tx.id ==> Apply(txs, step)[id] == txs[id]
  {
  }

  /** Which status may follow which, by name. */
  predicate MayFollow(stored: Option<string>, status: string) {
    || status == "completed"
    || (status == "failed" && stored != Some("completed"))
    || (status == "unknown" && stored != Some("completed") && stored != Some("failed"))
  }

  /** A call whose lookup succeeds and whose write takes effect stores the whole update exactly when its
      status may follow the stored one; otherwise, or when the write is rejected, it changes nothing. */
  lemma UpdateStoredIff(txs: GlobalTxs, step: Step)
    requires step.lookup
    ensures var stored := if Destination(txs, step.tx.id).Some? then Some(Destination(txs, step.tx.id).value.status) else None;
            if MayFollow(stored, step.tx.destination.status) && step.write.Applied()
            then Destination(Apply(txs, step), step.tx.id) == Some(step.tx.destination)
            else Apply(txs, step) == txs
  {
    assert |"completed"| == 9 && |"failed"| == 6 && |"unknown"| == 7;
  }

  function Revision(txs: GlobalTxs, id: string): nat {
    if id in txs then txs[id].revision else 0
  }

  /** Writes count revisions: a call raises the revision of its document by one exactly when it is
      written, and no other. */
  lemma RevisionCountsWrites(txs: GlobalTxs, step: Step, id: string)
    ensures Revision(Apply(txs, step), id) ==
            Revision(txs, id) + if step.tx.id == id && Apply(txs, step) != txs then 1 else 0
    ensures id in Apply(txs, step) && id !in txs ==> Apply(txs, step)[id].origin == ""
  {
  }

  ghost predicate OnlyValidStored(txs: GlobalTxs) {
    forall id :: Destination(txs, id).Some? ==> StoredRank(txs, id) > 0
  }

  /** Other statuses are never stored, whatever fails. */
  lemma {:induction false} InvalidNeverStored(txs: GlobalTxs, steps: seq<Step>)
    requires OnlyValidStored(txs)
    ensures OnlyValidStored(Run(txs, steps))
  {
    if steps != [] {
      var last := steps[|steps| - 1];
      var before := Run(txs, steps[..|steps| - 1]);
      InvalidNeverStored(txs, steps[..|steps| - 1]);
      CheckComparesRanks(last.tx, Lookup(before, last.tx.id, last.lookup));
      forall id | Destination(Run(txs, steps), id).Some?
        ensures StoredRank(Run(txs, steps), id) > 0
      {
        assert id != last.tx.id ==> Destination(Run(txs, steps), id) == Destination(before, id);
      }
    }
  }

  // ---------------------------------------------------------------- whole runs

  /** No lookup of an existing document failed. */
  ghost predicate LookupsHold(txs: GlobalTxs, steps: seq<Step>) {
    forall n :: 0 <= n < |steps| ==> LookupHolds(txs, steps, n)
  }

  ghost predicate LookupHolds(txs: GlobalTxs, steps: seq<Step>, n: nat)
    requires n < |steps|
  {
    steps[n].lookup || steps[n].tx.id !in Run(txs, steps[..n])
  }

  /** Step i carries a valid update of the document and its write, if attempted, takes effect. */
  predicate Candidate(steps: seq<Step>, i: nat, id: string) {
    i < |steps| && steps[i].tx.id == id && Rank(steps[i].tx.destination.status) > 0 && steps[i].write.Applied()
  }

  /** i is the most recent candidate among those of maximal rank. */
  ghost predicate IsWinner(steps: seq<Step>, i: nat, id: string) {
    && Candidate(steps, i, id)
    && forall j: nat :: Candidate(steps, j, id) ==>
         Rank(steps[j].tx.destination.status) <= Rank(steps[i].tx.destination.status) &&
         (Rank(steps[j].tx.destination.status) == Rank(steps[i].tx.destination.status) ==> j <= i)
  }

  ghost predicate HoldsWinner(d: Option<DestinationTx>, steps: seq<Step>, id: string) {
    if d.None? then forall i: nat :: !Candidate(steps, i, id)
    else exists i: nat :: IsWinner(steps, i, id) && steps[i].tx.destination == d.value
  }

  lemma CandidatesOfPrefix(steps: seq<Step>, id: string)
    requires steps != []
    ensures forall i: nat :: i < |steps| - 1 ==>
              (Candidate(steps, i, id) <==> Candidate(steps[..|steps| - 1], i, id)) && steps[i] == steps[..|steps| - 1][i]
  {
  }

  lemma WinnerAfterStep(txs: GlobalTxs, steps: seq<Step>, id: string)
    requires steps != []
    requires var last := steps[|steps| - 1]; last.lookup || last.tx.id !in txs
    requires HoldsWinner(Destination(txs, id), steps[..|steps| - 1], id)
    ensures HoldsWinner(Destination(Apply(txs, steps[|steps| - 1]), id), steps, id)
  {
    var front, last, n := steps[..|steps| - 1], steps[|steps| - 1], |steps| - 1;
    var d, d' := Destination(txs, id), Destination(Apply(txs, last), id);
    CandidatesOfPrefix(steps, id);
    CheckComparesRanks(last.tx, Lookup(txs, last.tx.id, last.lookup));
    if Candidate(steps, n, id) && (d.None? || Rank(last.tx.destination.status) >= Rank(d.value.status)) {
      assert d' == Some(last.tx.destination);
      if d.Some? {
        var i: nat :| IsWinner(front, i, id) && front[i].tx.destination == d.value;
        assert forall j: nat :: Candidate(front, j, id) ==> Rank(steps[j].tx.destination.status) <= Rank(d.value.status);
      }
      assert IsWinner(steps, n, id);
    } else {
      assert d' == d;
      if d.Some? {
        var i: nat :| IsWinner(front, i, id) && front[i].tx.destination == d.value;
        assert IsWinner(steps, i, id);
      }
    }
  }

  /** For any sequence of updates whose lookups of existing documents succeed, the stored
      destination is the most recent valid update of maximal rank. */
  lemma {:induction false} StoredIsWinner(txs: GlobalTxs, steps: seq<Step>, id: string)
    requires Destination(txs, id).None? && LookupsHold(txs, steps)
    ensures HoldsWinner(Destination(Run(txs, steps), id), steps, id)
  {
    if steps != [] {
      var front, n := steps[..|steps| - 1], |steps| - 1;
      assert LookupHolds(txs, steps, n);
      forall k | 0 <= k < n
        ensures LookupHolds(txs, front, k)
      {
        assert LookupHolds(txs, steps, k);
        assert front[..k] == steps[..k];
      }
      StoredIsWinner(txs, front, id);
      WinnerAfterStep(Run(txs, front), steps, id);
    }
  }

  lemma WinnerUnique(steps: seq<Step>, i: nat, j: nat, id: string)
    requires IsWinner(steps, i, id) && IsWinner(steps, j, id)
    ensures i == j
  {
  }

  lemma {:induction false} RunPrepends(txs: GlobalTxs, step: Step, steps: seq<Step>)
    ensures Run(txs, [step] + steps) == Run(Apply(txs, step), steps)
  {
    if steps == [] {
      assert [step] + steps == [] + [step];
      RunExtends(txs, [], step);
    } else {
      var front, last := steps[..|steps| - 1], steps[|steps| - 1];
      RunPrepends(txs, step, front);
      assert [step] + steps == ([step] + front) + [last];
      RunExtends(txs, [step] + front, last);
    }
  }

  ghost predicate Reliable(steps: seq<Step>) {
    forall i :: 0 <= i < |steps| ==> steps[i].lookup
  }

  lemma ApplyDestination(x: GlobalTxs, y: GlobalTxs, step: Step, id: string)
    requires Destination(x, id) == Destination(y, id) && step.lookup
    ensures Destination(Apply(x, step), id) == Destination(Apply(y, step), id)
  {
    CheckComparesRanks(step.tx, Lookup(x, id, true));
    CheckComparesRanks(step.tx, Lookup(y, id, true));
    hide CheckTxShouldBeUpdated;
  }

  /** Under successful lookups a destination depends only on the destination before. */
  lemma {:induction false} OnlyDestinationMatters(x: GlobalTxs, y: GlobalTxs, steps: seq<Step>, id: string)
    requires Destination(x, id) == Destination(y, id) && Reliable(steps)
    ensures Destination(Run(x, steps), id) == Destination(Run(y, steps), id)
  {
    if steps != [] {
      var front, last := steps[..|steps| - 1], steps[|steps| - 1];
      hide Apply, Destination;
      OnlyDestinationMatters(x, y, front, id);
      ApplyDestination(Run(x, front), Run(y, front), last, id);
    }
  }

  /** A stored destination acts like an update applied first. */
  lemma StoredActsFirst(txs: GlobalTxs, steps: seq<Step>, id: string, first: Step)
    requires Destination(txs, id).Some? && StoredRank(txs, id) > 0 && Reliable(steps)
    requires first == Step(TransactionUpdate(id, Destination(txs, id).value), true, Acked)
    ensures Destination(txs - {id}, id) == None
    ensures Destination(Run(txs, steps), id) == Destination(Run(txs - {id}, [first] + steps), id)
  {
    CheckComparesRanks(first.tx, Lookup(txs - {id}, id, true));
    RunPrepends(txs - {id}, first, steps);
    OnlyDestinationMatters(txs, Apply(txs - {id}, first), steps, id);
  }

  /** The destination is the one of a given winner. */
  lemma WinnerIsStored(steps: seq<Step>, i: nat, id: string)
    requires LookupsHold(map[], steps) && IsWinner(steps, i, id)
    ensures Destination(Run(map[], steps), id) == Some(steps[i].tx.destination)
  {
    StoredIsWinner(map[], steps, id);
    var d := Destination(Run(map[], steps), id);
    assert Candidate(steps, i, id);
    var j: nat :| IsWinner(steps, j, id) && steps[j].tx.destination == d.value;
    WinnerUnique(steps, i, j, id);
  }
}

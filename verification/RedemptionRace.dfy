/** Several watchers updating one store (contract-watcher/processor/processor.go): each call of
    updateGlobalTransaction looks up and decides first and writes later, and other watchers may act in
    between (contract-watcher/watcher/watcher.go). */
module RedemptionRace {
  import opened Wrappers
  import opened Writes
  import opened Redemption

  /** A call that passed its check and has not written yet. */
  datatype Call = Call(tx: TransactionUpdate, lookup: bool)

  /** Watchers are numbered; each makes one call at a time. */
  datatype State = State(txs: GlobalTxs, calls: map<nat, Call>)

  datatype Act =
    | Check(watcher: nat, tx: TransactionUpdate, lookup: bool)
    | Put(watcher: nat, write: Write)
    | Stop

  predicate Passes(txs: GlobalTxs, tx: TransactionUpdate, lookup: bool) {
    CheckTxShouldBeUpdated(tx, Lookup(txs, tx.id, lookup)).0
  }

  /** One act. The process may stop at any time, which ends the calls that passed. */
  function Next(s: State, act: Act): State {
    match act
    case Check(w, tx, lookup) =>
      if w !in s.calls && Passes(s.txs, tx, lookup) then State(s.txs, s.calls[w := Call(tx, lookup)]) else s
    case Put(w, write) =>
      if w !in s.calls then s
      else
        var tx := s.calls[w].tx;
        State(if write.Applied() then s.txs[tx.id := Upserted(s.txs, tx)] else s.txs, s.calls - {w})
    case Stop => State(s.txs, map[])
  }

  function Run(txs: GlobalTxs, acts: seq<Act>): State {
    if acts == [] then State(txs, map[]) else Next(Run(txs, acts[..|acts| - 1]), acts[|acts| - 1])
  }

  /** The store and the calls before act n. */
  function Before(txs: GlobalTxs, acts: seq<Act>, n: nat): State
    requires n <= |acts|
  {
    Run(txs, acts[..n])
  }

  lemma BeforeNext(txs: GlobalTxs, acts: seq<Act>, n: nat)
    requires n < |acts|
    ensures Before(txs, acts, n + 1) == Next(Before(txs, acts, n), acts[n])
  {
    assert acts[..n + 1][..n] == acts[..n];
  }

  function RankBefore(txs: GlobalTxs, acts: seq<Act>, n: nat, id: string): nat
    requires n <= |acts|
  {
    StoredRank(Before(txs, acts, n).txs, id)
  }

  // ---------------------------------------------------------------- how a rank falls

  /** Act c is the check of the call that act n ends. */
  ghost predicate Begins(txs: GlobalTxs, acts: seq<Act>, c: nat, n: nat) {
    && c < n < |acts|
    && acts[c].Check? && acts[n].Put? && acts[c].watcher == acts[n].watcher
    && acts[c].watcher !in Before(txs, acts, c).calls && Passes(Before(txs, acts, c).txs, acts[c].tx, acts[c].lookup)
    && forall k :: c < k <= n ==> HasCall(txs, acts, k, acts[c].watcher, Call(acts[c].tx, acts[c].lookup))
  }

  ghost predicate HasCall(txs: GlobalTxs, acts: seq<Act>, k: nat, w: nat, call: Call) {
    k <= |acts| && w in Before(txs, acts, k).calls && Before(txs, acts, k).calls[w] == call
  }

  lemma {:induction false} CallWasBegun(txs: GlobalTxs, acts: seq<Act>, n: nat, k: nat, w: nat, call: Call) returns (c: nat)
    requires k <= n < |acts| && HasCall(txs, acts, k, w, call)
    requires forall i :: k <= i <= n ==> HasCall(txs, acts, i, w, call)
    ensures c < k && acts[c] == Check(w, call.tx, call.lookup)
    ensures w !in Before(txs, acts, c).calls && Passes(Before(txs, acts, c).txs, call.tx, call.lookup)
    ensures forall i :: c < i <= n ==> HasCall(txs, acts, i, w, call)
  {
    assert acts[..0] == [];
    BeforeNext(txs, acts, k - 1);
    if HasCall(txs, acts, k - 1, w, call) {
      c := CallWasBegun(txs, acts, n, k - 1, w, call);
    } else {
      c := k - 1;
    }
  }

  /** The lookup of the check failed although the document had a higher rank. */
  ghost predicate Missed(txs: GlobalTxs, acts: seq<Act>, c: nat) {
    && c < |acts| && acts[c].Check? && !acts[c].lookup
    && Rank(acts[c].tx.destination.status) < RankBefore(txs, acts, c, acts[c].tx.id)
  }

  /** Between check and write another watcher raised the rank above the update's. */
  ghost predicate Overtaken(txs: GlobalTxs, acts: seq<Act>, c: nat, n: nat) {
    exists r: nat :: RaisedAt(txs, acts, c, r, n)
  }

  ghost predicate RaisedAt(txs: GlobalTxs, acts: seq<Act>, c: nat, r: nat, n: nat) {
    && c < r < n < |acts| && acts[c].Check? && acts[r].Put? && acts[r].watcher != acts[c].watcher
    && RankBefore(txs, acts, r, acts[c].tx.id) <= Rank(acts[c].tx.destination.status)
         < RankBefore(txs, acts, r + 1, acts[c].tx.id)
  }

  /** Act n writes a passed update of the document that is lower than what is stored. */
  ghost predicate WritesLower(txs: GlobalTxs, acts: seq<Act>, c: nat, n: nat, id: string) {
    && Begins(txs, acts, c, n) && acts[n].write.Applied() && acts[c].tx.id == id
    && Rank(acts[c].tx.destination.status) < RankBefore(txs, acts, n, id)
  }

  lemma StepLowersRank(s: State, act: Act, id: string)
    ensures StoredRank(Next(s, act).txs, id) < StoredRank(s.txs, id) <==>
              && act.Put? && act.watcher in s.calls && act.write.Applied() && s.calls[act.watcher].tx.id == id
              && Rank(s.calls[act.watcher].tx.destination.status) < StoredRank(s.txs, id)
    ensures StoredRank(Next(s, act).txs, id) != StoredRank(s.txs, id) ==> act.Put? && act.watcher in s.calls
  {
  }

  /** The rank stood at or below a bound at c and above it at n, so some act raised it across. */
  lemma {:induction false} RankCrosses(txs: GlobalTxs, acts: seq<Act>, c: nat, n: nat, id: string, bound: nat) returns (r: nat)
    requires c < n <= |acts| && RankBefore(txs, acts, c, id) <= bound < RankBefore(txs, acts, n, id)
    ensures c <= r < n && RankBefore(txs, acts, r, id) <= bound < RankBefore(txs, acts, r + 1, id)
    decreases n
  {
    hide RankBefore;
    if RankBefore(txs, acts, n - 1, id) <= bound {
      r := n - 1;
    } else {
      r := RankCrosses(txs, acts, c, n - 1, id, bound);
    }
  }

  lemma LowerWriteHasCause(txs: GlobalTxs, acts: seq<Act>, c: nat, n: nat, id: string)
    requires WritesLower(txs, acts, c, n, id)
    ensures Missed(txs, acts, c) || Overtaken(txs, acts, c, n)
  {
    hide Before, HasCall;
    var tx, w := acts[c].tx, acts[c].watcher;
    CheckComparesRanks(tx, Lookup(Before(txs, acts, c).txs, tx.id, acts[c].lookup));
    if !Missed(txs, acts, c) {
      var r := RankCrosses(txs, acts, c, n, id, Rank(tx.destination.status));
      BeforeNext(txs, acts, r);
      StepLowersRank(Before(txs, acts, r), acts[r], id);
      if acts[r].watcher == w {
        OwnPutEndsCall(txs, acts, c, r, n);
      }
      assert RaisedAt(txs, acts, c, r, n);
    }
  }

  lemma OwnPutEndsCall(txs: GlobalTxs, acts: seq<Act>, c: nat, r: nat, n: nat)
    requires Begins(txs, acts, c, n) && c <= r < n
    ensures !(acts[r].Put? && acts[r].watcher == acts[c].watcher)
  {
    BeforeNext(txs, acts, r);
    assert HasCall(txs, acts, r + 1, acts[c].watcher, Call(acts[c].tx, acts[c].lookup));
  }

  /** In any interleaving the stored rank of a document falls exactly when a passed lower update is
      written whose lookup failed or came before another watcher's write that raised the rank. */
  lemma RankFallsIff(txs: GlobalTxs, acts: seq<Act>, n: nat, id: string)
    requires n < |acts|
    ensures RankBefore(txs, acts, n + 1, id) < RankBefore(txs, acts, n, id) <==>
              exists c: nat :: WritesLower(txs, acts, c, n, id) && (Missed(txs, acts, c) || Overtaken(txs, acts, c, n))
  {
    hide Before, Missed, Overtaken;
    var s := Before(txs, acts, n);
    BeforeNext(txs, acts, n);
    StepLowersRank(s, acts[n], id);
    if RankBefore(txs, acts, n + 1, id) < RankBefore(txs, acts, n, id) {
      var w := acts[n].watcher;
      assert HasCall(txs, acts, n, w, s.calls[w]);
      var c := CallWasBegun(txs, acts, n, n, w, s.calls[w]);
      LowerWriteHasCause(txs, acts, c, n, id);
    }
    forall c: nat | WritesLower(txs, acts, c, n, id)
      ensures RankBefore(txs, acts, n + 1, id) < RankBefore(txs, acts, n, id)
    {
      assert HasCall(txs, acts, n, acts[c].watcher, Call(acts[c].tx, acts[c].lookup));
    }
  }

  /** A stop ends every call that passed and has not written: what is written after it was checked after
      it. */
  lemma StopEndsCalls(txs: GlobalTxs, acts: seq<Act>, c: nat, n: nat, k: nat)
    requires Begins(txs, acts, c, n) && c < k < n
    ensures acts[k] != Stop
  {
    BeforeNext(txs, acts, k);
    assert HasCall(txs, acts, k + 1, acts[c].watcher, Call(acts[c].tx, acts[c].lookup));
  }

  // ---------------------------------------------------------------- calls that do not overlap

  /** Nobody else has passed a check of the document when a write of it takes effect. */
  ghost predicate Alone(s: State, act: Act) {
    act.Put? && act.watcher in s.calls && act.write.Applied() ==>
      forall v :: v in s.calls && v != act.watcher ==> s.calls[v].tx.id != s.calls[act.watcher].tx.id
  }

  ghost predicate NoOverlap(txs: GlobalTxs, acts: seq<Act>) {
    acts == [] || (NoOverlap(txs, acts[..|acts| - 1]) && Alone(Run(txs, acts[..|acts| - 1]), acts[|acts| - 1]))
  }

  /** The calls one after the other, each at its write, or at its check when that refuses it. */
  function Serial(txs: GlobalTxs, acts: seq<Act>): seq<Step> {
    if acts == [] then []
    else Serial(txs, acts[..|acts| - 1]) + SerialStep(Run(txs, acts[..|acts| - 1]), acts[|acts| - 1])
  }

  function SerialStep(s: State, act: Act): seq<Step> {
    match act
    case Check(w, tx, lookup) => if w !in s.calls && !Passes(s.txs, tx, lookup) then [Step(tx, lookup, Acked)] else []
    case Put(w, write) => if w in s.calls then [Step(s.calls[w].tx, s.calls[w].lookup, write)] else []
    case Stop => []
  }

  /** Every call in flight would still pass, and looked up what is still there. */
  ghost predicate Fresh(s: State) {
    forall w :: w in s.calls ==> Passes(s.txs, s.calls[w].tx, s.calls[w].lookup)
  }

  lemma OtherWritesKeepLookup(txs: GlobalTxs, tx: TransactionUpdate, id: string, ok: bool)
    requires tx.id != id
    ensures Lookup(txs[tx.id := Upserted(txs, tx)], id, ok) == Lookup(txs, id, ok)
  {
  }

  lemma StepIsSerial(s: State, act: Act)
    requires Fresh(s) && Alone(s, act)
    ensures Fresh(Next(s, act)) && Next(s, act).txs == Redemption.Run(s.txs, SerialStep(s, act))
  {
    var t := Next(s, act);
    if act.Put? && act.watcher in s.calls {
      var call := s.calls[act.watcher];
      RunSingle(s.txs, Step(call.tx, call.lookup, act.write));
      forall v | v in t.calls
        ensures Passes(t.txs, t.calls[v].tx, t.calls[v].lookup)
      {
        if act.write.Applied() {
          OtherWritesKeepLookup(s.txs, call.tx, s.calls[v].tx.id, s.calls[v].lookup);
        }
      }
    } else if act.Check? {
      RunSingle(s.txs, Step(act.tx, act.lookup, Acked));
    }
  }

  lemma RunSingle(txs: GlobalTxs, step: Step)
    ensures Redemption.Run(txs, [step]) == Redemption.Apply(txs, step) && Redemption.Run(txs, []) == txs
  {
    assert [] + [step] == [step];
    RunExtends(txs, [], step);
  }

  lemma {:induction false} RunJoins(txs: GlobalTxs, a: seq<Step>, b: seq<Step>)
    ensures Redemption.Run(txs, a + b) == Redemption.Run(Redemption.Run(txs, a), b)
  {
    if b == [] {
      assert a + b == a;
    } else {
      var front, last := b[..|b| - 1], b[|b| - 1];
      RunJoins(txs, a, front);
      assert a + b == (a + front) + [last] && b == front + [last];
      RunExtends(txs, a + front, last);
      RunExtends(Redemption.Run(txs, a), front, last);
    }
  }

  /** Calls of several watchers whose writes do not fall between check and write of another call on
      the same document leave the store as the calls one after the other would. */
  lemma {:induction false} WithoutOverlapSerial(txs: GlobalTxs, acts: seq<Act>)
    requires NoOverlap(txs, acts)
    ensures Fresh(Run(txs, acts)) && Run(txs, acts).txs == Redemption.Run(txs, Serial(txs, acts))
  {
    if acts != [] {
      var front, last := acts[..|acts| - 1], acts[|acts| - 1];
      WithoutOverlapSerial(txs, front);
      StepIsSerial(Run(txs, front), last);
      RunJoins(txs, Serial(txs, front), SerialStep(Run(txs, front), last));
    }
  }

  /** No lookup of an existing document failed. */
  ghost predicate ChecksHold(txs: GlobalTxs, acts: seq<Act>) {
    acts == [] || (ChecksHold(txs, acts[..|acts| - 1]) && CheckHolds(Run(txs, acts[..|acts| - 1]), acts[|acts| - 1]))
  }

  ghost predicate CheckHolds(s: State, act: Act) {
    act.Check? ==> act.lookup || act.tx.id !in s.txs
  }

  ghost predicate CallsHold(s: State) {
    forall w :: w in s.calls ==> s.calls[w].lookup || s.calls[w].tx.id !in s.txs
  }

  lemma StepKeepsCallsHolding(s: State, act: Act)
    requires CallsHold(s) && Alone(s, act) && CheckHolds(s, act)
    ensures CallsHold(Next(s, act))
    ensures forall step :: step in SerialStep(s, act) ==> step.lookup || step.tx.id !in s.txs
  {
  }

  lemma {:induction false} SerialLookupsHold(txs: GlobalTxs, acts: seq<Act>)
    requires NoOverlap(txs, acts) && ChecksHold(txs, acts)
    ensures CallsHold(Run(txs, acts)) && LookupsHold(txs, Serial(txs, acts))
  {
    if acts != [] {
      var front, last := acts[..|acts| - 1], acts[|acts| - 1];
      var s := Run(txs, front);
      SerialLookupsHold(txs, front);
      WithoutOverlapSerial(txs, front);
      StepKeepsCallsHolding(s, last);
      if SerialStep(s, last) != [] {
        var step := SerialStep(s, last)[0];
        assert Serial(txs, acts) == Serial(txs, front) + [step] && step in SerialStep(s, last);
        LookupsExtend(txs, Serial(txs, front), step);
      } else {
        assert Serial(txs, acts) == Serial(txs, front);
      }
    }
  }

  lemma LookupsExtend(txs: GlobalTxs, steps: seq<Step>, step: Step)
    requires LookupsHold(txs, steps) && (step.lookup || step.tx.id !in Redemption.Run(txs, steps))
    ensures LookupsHold(txs, steps + [step])
  {
    var all := steps + [step];
    forall n | 0 <= n < |all|
      ensures LookupHolds(txs, all, n)
    {
      if n < |steps| {
        assert LookupHolds(txs, steps, n);
        assert all[..n] == steps[..n];
      } else {
        assert all[..n] == steps;
      }
    }
  }

  /** Without overlaps and failed lookups the stored destination is the most recent valid update of
      maximal rank, whichever watchers made the calls. */
  lemma StoredIsWinner(txs: GlobalTxs, acts: seq<Act>, id: string)
    requires NoOverlap(txs, acts) && ChecksHold(txs, acts) && Destination(txs, id).None?
    ensures HoldsWinner(Destination(Run(txs, acts).txs, id), Serial(txs, acts), id)
  {
    WithoutOverlapSerial(txs, acts);
    SerialLookupsHold(txs, acts);
    Redemption.StoredIsWinner(txs, Serial(txs, acts), id);
  }

  lemma {:induction false} SuccessfulChecksHold(txs: GlobalTxs, acts: seq<Act>)
    requires forall act :: act in acts && act.Check? ==> act.lookup
    ensures ChecksHold(txs, acts)
  {
    if acts != [] {
      SuccessfulChecksHold(txs, acts[..|acts| - 1]);
    }
  }

  // ---------------------------------------------------------------- an overlap

  const FIRST_FAILED := TransactionUpdate("vaa", DestinationTx(1, FAILED, "", "wrong chain", "", "", ""))
  const THEN_COMPLETED := TransactionUpdate("vaa", DestinationTx(2, CONFIRMED, "", "right chain", "", "", ""))

  /** One watcher finds no document, another one stores a confirmed redemption, and the first one then
      stores its failed one: the rank falls although every lookup and write succeeded. */
  lemma OverlapLosesConfirmation()
    ensures var acts := [Check(1, FIRST_FAILED, true), Check(2, THEN_COMPLETED, true), Put(2, Acked), Put(1, Acked)];
            && ChecksHold(map[], acts)
            && Destination(Before(map[], acts, 3).txs, "vaa") == Some(THEN_COMPLETED.destination)
            && Destination(Run(map[], acts).txs, "vaa") == Some(FIRST_FAILED.destination)
            && RankBefore(map[], acts, 4, "vaa") < RankBefore(map[], acts, 3, "vaa")
            && !NoOverlap(map[], acts)
  {
    var acts := [Check(1, FIRST_FAILED, true), Check(2, THEN_COMPLETED, true), Put(2, Acked), Put(1, Acked)];
    assert acts[..4] == acts && acts[..3][..2] == acts[..2] && acts[..2][..1] == acts[..1] && acts[..1][..0] == [];
    assert Run(map[], acts[..1]) == Next(State(map[], map[]), acts[0]);
    assert Run(map[], acts[..2]) == Next(Run(map[], acts[..1]), acts[1]);
    assert Run(map[], acts[..3]) == Next(Run(map[], acts[..2]), acts[2]);
    assert |FAILED| == 6 && |CONFIRMED| == 9;
    assert !Alone(Run(map[], acts[..2]), acts[2]);
    SuccessfulChecksHold(map[], acts);
    assert !NoOverlap(map[], acts[..3]);
  }
}

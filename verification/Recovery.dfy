/** Recovery after crashes: when do the destinations stored by watchers that stop and restart equal
    those of one uninterrupted pass? One watcher and a store that no other watcher changes. */
module Recovery {
  import opened Wrappers
  import opened Writes
  import opened Redemption
  import opened Replay
  import opened BlockScan

  /** The updates of blocks init..b in order. */
  function Flatten(chain: Chain, init: int, b: int): seq<TransactionUpdate>
    decreases b - init + 1
  {
    if b < init then [] else Flatten(chain, init, b - 1) + chain(b)
  }

  /** Number of updates before a block. */
  function Offset(chain: Chain, init: int, b: int): nat {
    |Flatten(chain, init, b - 1)|
  }

  lemma {:induction false} FlattenAt(chain: Chain, init: int, b: int, hi: int, j: nat)
    requires init <= b <= hi && j < |chain(b)|
    ensures Offset(chain, init, b) + j < |Flatten(chain, init, hi)|
    ensures Flatten(chain, init, hi)[Offset(chain, init, b) + j] == chain(b)[j]
    decreases hi - b
  {
    if b < hi {
      FlattenAt(chain, init, b, hi - 1, j);
    }
  }

  lemma {:induction false} OffsetMono(chain: Chain, init: int, b: int, c: int)
    requires b <= c
    ensures Offset(chain, init, b) <= Offset(chain, init, c)
    decreases c - b
  {
    if b < c {
      OffsetMono(chain, init, b, c - 1);
    }
  }

  /** The writes that took effect, as positions in the list of all updates. */
  function Landed(chain: Chain, init: int, t: seq<Event>): seq<Landing> {
    if t == [] then []
    else
      Landed(chain, init, t[..|t| - 1]) + (if Lands(chain, t[|t| - 1]) then [LandingOf(chain, init, t[|t| - 1])] else [])
  }

  predicate Lands(chain: Chain, e: Event) {
    e.Update? && e.index < |chain(e.block)| && e.write.Applied()
  }

  function LandingOf(chain: Chain, init: int, e: Event): Landing
    requires e.Update?
  {
    Landing(Offset(chain, init, e.block) + e.index, e.known)
  }

  /** One past the position applied last. */
  function Reached(ls: seq<Landing>): nat {
    if ls == [] then 0 else ls[|ls| - 1].position + 1
  }

  /** The position a run applies next. */
  function NextPosition(chain: Chain, init: int, start: int, p: Position): nat {
    Offset(chain, init, Here(start, p)) + (if p.At? && p.next > 0 then p.next else 0)
  }

  lemma LandedAppend(chain: Chain, init: int, log: seq<Event>, e: Event)
    ensures Landed(chain, init, log + [e]) ==
            Landed(chain, init, log) + (if Lands(chain, e) then [LandingOf(chain, init, e)] else [])
  {
    assert (log + [e])[..|log|] == log;
  }

  ghost predicate LookupsSucceed(log: seq<Event>) {
    forall e :: e in log && e.Update? ==> e.lookup
  }

  ghost predicate UpdatesInRange(init: int, log: seq<Event>, hi: int) {
    forall e :: e in log && e.Update? ==> init <= e.block <= hi
  }

  lemma RejectedChangesNothing(txs: GlobalTxs, step: Redemption.Step)
    ensures Redemption.Apply(txs, step) ==
            if step.write.Applied() then Redemption.Apply(txs, Step(step.tx, step.lookup, Acked)) else txs
  {
  }

  lemma {:induction false} LandedBelow(chain: Chain, init: int, log: seq<Event>, hi: int)
    requires UpdatesInRange(init, log, hi)
    ensures Below(Landed(chain, init, log), |Flatten(chain, init, hi)|)
  {
    if log != [] {
      var front, last := log[..|log| - 1], log[|log| - 1];
      assert log == front + [last];
      LandedBelow(chain, init, front, hi);
      if Lands(chain, last) {
        assert last in log;
        FlattenAt(chain, init, last.block, hi, last.index);
      }
    }
  }

  lemma ApplyingAppend(us: seq<TransactionUpdate>, ls: seq<Landing>, l: Landing)
    requires Below(ls, |us|) && l.position < |us|
    ensures Below(ls + [l], |us|) && Applying(us, ls + [l]) == Applying(us, ls) + [Step(Written(us, l), true, Acked)]
  {
  }

  lemma OneMoreApplied(txs: GlobalTxs, steps: seq<Redemption.Step>, us: seq<TransactionUpdate>, ls: seq<Landing>,
                       step: Redemption.Step, l: Landing)
    requires Below(ls, |us|) && l.position < |us| && step.tx == Written(us, l) && step.lookup
    requires Redemption.Run(txs, steps) == Redemption.Run(txs, Applying(us, ls))
    ensures Below(ls + [l], |us|)
    ensures Redemption.Run(txs, steps + [step]) == Redemption.Run(txs, Applying(us, if step.write.Applied() then ls + [l] else ls))
  {
    hide Redemption.Run, Redemption.Apply, Applying, Below, Written;
    RunExtends(txs, steps, step);
    RejectedChangesNothing(Redemption.Run(txs, steps), step);
    ApplyingAppend(us, ls, l);
    RunExtends(txs, Applying(us, ls), Step(step.tx, true, Acked));
  }

  lemma UpdatesAppend(chain: Chain, t: seq<Event>, e: Event)
    ensures UpdatesOf(chain, t + [e]) ==
            if e.Update? && e.index < |chain(e.block)| then UpdatesOf(chain, t) + [Step(UpdateOf(chain, e), e.lookup, e.write)]
            else UpdatesOf(chain, t)
  {
    assert (t + [e])[..|t|] == t;
  }

  lemma UpdateAppliesLanded(chain: Chain, init: int, front: seq<Event>, last: Event, hi: int, txs: GlobalTxs)
    requires last.Update? && last.lookup && last.index < |chain(last.block)| && init <= last.block <= hi
    requires Below(Landed(chain, init, front), |Flatten(chain, init, hi)|)
    requires Redemption.Run(txs, UpdatesOf(chain, front)) ==
             Redemption.Run(txs, Applying(Flatten(chain, init, hi), Landed(chain, init, front)))
    ensures Below(Landed(chain, init, front + [last]), |Flatten(chain, init, hi)|)
    ensures Redemption.Run(txs, UpdatesOf(chain, front + [last])) ==
            Redemption.Run(txs, Applying(Flatten(chain, init, hi), Landed(chain, init, front + [last])))
  {
    hide Redemption.Run, Flatten, Offset, Landed, Applying, Below, UpdatesOf;
    var us, ls := Flatten(chain, init, hi), Landed(chain, init, front);
    UpdatesAppend(chain, front, last);
    LandedAppend(chain, init, front, last);
    FlattenAt(chain, init, last.block, hi, last.index);
    OneMoreApplied(txs, UpdatesOf(chain, front), us, ls, Step(UpdateOf(chain, last), last.lookup, last.write),
                   LandingOf(chain, init, last));
    assert ls + [] == ls;
  }

  /** What a log does to the store is what its landed updates do, one after the other. */
  lemma {:induction false} LogAppliesLanded(chain: Chain, init: int, log: seq<Event>, hi: int, txs: GlobalTxs)
    requires LookupsSucceed(log) && UpdatesInRange(init, log, hi)
    ensures Below(Landed(chain, init, log), |Flatten(chain, init, hi)|)
    ensures Redemption.Run(txs, UpdatesOf(chain, log)) ==
            Redemption.Run(txs, Applying(Flatten(chain, init, hi), Landed(chain, init, log)))
  {
    LandedBelow(chain, init, log, hi);
    if log != [] {
      var front, last := log[..|log| - 1], log[|log| - 1];
      assert log == front + [last] && last in log;
      assert forall e :: e in front ==> e in log;
      LogAppliesLanded(chain, init, front, hi, txs);
      if last.Update? && last.index < |chain(last.block)| {
        UpdateAppliesLanded(chain, init, front, last, hi, txs);
      } else {
        assert Landed(chain, init, log) == Landed(chain, init, front);
      }
    }
  }

  /** The log stores for a VAA what a single uninterrupted pass over all visited blocks stores. */
  ghost predicate LeavesNoTrace(chain: Chain, init: int, log: seq<Event>, txs: GlobalTxs, id: string) {
    Destination(Redemption.Run(txs, UpdatesOf(chain, log)), id) ==
    Destination(Redemption.Run(txs, InOrder(Flatten(chain, init, High(init, log)))), id)
  }

  /** Blocks with the same numbers of updates. */
  ghost predicate SameShape(chain: Chain, other: Chain) {
    forall b :: |other(b)| == |chain(b)|
  }

  /** Only redemptions that have one of the three statuses were written without it. */
  ghost predicate StatusesFit(chain: Chain, init: int, log: seq<Event>) {
    var us, ls := Flatten(chain, init, High(init, log)), Landed(chain, init, log);
    Below(ls, |us|) && Fitting(us, ls)
  }

  /** The log leaves no trace whatever the redemptions of the blocks are, for every VAA. */
  ghost predicate Recovers(chain: Chain, init: int, log: seq<Event>) {
    forall other: Chain, txs: GlobalTxs, id: string ::
      SameShape(chain, other) && StatusesFit(other, init, log) && Sound(txs, id) ==> LeavesNoTrace(other, init, log, txs, id)
  }

  /** Every redemption of the visited blocks was written with its own status, the last such writes came in
      chain order, and so did the last writes with any status. */
  ghost predicate Settled(chain: Chain, init: int, log: seq<Event>) {
    Settles(Landed(chain, init, log), |Flatten(chain, init, High(init, log))|)
  }

  lemma {:induction false} FlattenOfShape(chain: Chain, other: Chain, init: int, b: int)
    requires SameShape(chain, other)
    ensures |Flatten(other, init, b)| == |Flatten(chain, init, b)|
    decreases b - init + 1
  {
    if b >= init {
      FlattenOfShape(chain, other, init, b - 1);
    }
  }

  lemma {:induction false} LandedOfShape(chain: Chain, other: Chain, init: int, log: seq<Event>)
    requires SameShape(chain, other)
    ensures Landed(other, init, log) == Landed(chain, init, log)
  {
    if log != [] {
      LandedOfShape(chain, other, init, log[..|log| - 1]);
      var last := log[|log| - 1];
      if last.Update? {
        FlattenOfShape(chain, other, init, last.block - 1);
      }
    }
  }

  const NO_UPDATE := TransactionUpdate("", DestinationTx(0, "", "", "", "", "", ""))

  /** n updates from position lo on. */
  function Part(us: seq<TransactionUpdate>, lo: nat, n: nat): (part: seq<TransactionUpdate>)
    ensures |part| == n
    ensures lo + n <= |us| ==> part == us[lo..lo + n]
  {
    seq(n, i requires 0 <= i < n => if lo + i < |us| then us[lo + i] else NO_UPDATE)
  }

  /** The chain whose blocks, as long as the given ones, hold a list of updates. */
  function Filled(chain: Chain, init: int, us: seq<TransactionUpdate>): Chain {
    b => Part(us, Offset(chain, init, b), |chain(b)|)
  }

  lemma {:induction false} FilledFlattens(chain: Chain, init: int, us: seq<TransactionUpdate>, b: int)
    requires |Flatten(chain, init, b)| <= |us|
    ensures Flatten(Filled(chain, init, us), init, b) == us[..|Flatten(chain, init, b)|]
    decreases b - init + 1
  {
    if b >= init {
      FilledFlattens(chain, init, us, b - 1);
      var lo, n := Offset(chain, init, b), |chain(b)|;
      assert us[..lo] + us[lo..lo + n] == us[..lo + n];
    }
  }

  lemma LogComparesPositions(chain: Chain, init: int, log: seq<Event>, txs: GlobalTxs, id: string)
    requires LookupsSucceed(log) && UpdatesInRange(init, log, High(init, log))
    ensures Below(Landed(chain, init, log), |Flatten(chain, init, High(init, log))|)
    ensures LeavesNoTrace(chain, init, log, txs, id) <==>
              StoresSame(txs, Flatten(chain, init, High(init, log)), Landed(chain, init, log), id)
  {
    LogAppliesLanded(chain, init, log, High(init, log), txs);
  }

  lemma SettledRecovers(chain: Chain, init: int, log: seq<Event>)
    requires LookupsSucceed(log) && UpdatesInRange(init, log, High(init, log))
    requires Settled(chain, init, log)
    ensures Recovers(chain, init, log)
  {
    var hi := High(init, log);
    forall other: Chain, txs: GlobalTxs, id: string | SameShape(chain, other) && StatusesFit(other, init, log) && Sound(txs, id)
      ensures LeavesNoTrace(other, init, log, txs, id)
    {
      FlattenOfShape(chain, other, init, hi);
      LandedOfShape(chain, other, init, log);
      LogComparesPositions(other, init, log, txs, id);
      ReplayStoresSame(txs, Flatten(other, init, hi), Landed(other, init, log), id);
    }
  }

  lemma UnsettledShows(chain: Chain, init: int, log: seq<Event>)
    requires LookupsSucceed(log) && UpdatesInRange(init, log, High(init, log))
    requires !Settled(chain, init, log)
    ensures !Recovers(chain, init, log)
  {
    var hi, n := High(init, log), |Flatten(chain, init, High(init, log))|;
    LandedBelow(chain, init, log, hi);
    var us := Unsettling(Landed(chain, init, log), n);
    var other := Filled(chain, init, us);
    assert SameShape(chain, other);
    FilledFlattens(chain, init, us, hi);
    assert us[..n] == us;
    LandedOfShape(chain, other, init, log);
    LogComparesPositions(other, init, log, map[], "");
    assert Sound(map[], "");
    assert !LeavesNoTrace(other, init, log, map[], "");
  }

  lemma {:induction false} RunUpdatesVisited(chain: Chain, start: int, t: seq<Event>)
    requires Legal(chain, start, t)
    ensures forall e :: e in t && e.Update? ==> Visited(t, e.block)
    ensures Track(chain, start, t).value.At? ==> Visited(t, Track(chain, start, t).value.block)
  {
    if t != [] {
      var front, last := t[..|t| - 1], t[|t| - 1];
      assert t == front + [last];
      RunUpdatesVisited(chain, start, front);
    }
  }

  lemma {:induction false} HistoryUpdatesVisited(chain: Chain, init: int, runs: seq<seq<Event>>)
    requires History(chain, init, runs)
    ensures forall e :: e in Flat(runs) && e.Update? ==> Visited(Flat(runs), e.block)
  {
    if runs != [] {
      var before := Flat(runs[..|runs| - 1]);
      HistoryUpdatesVisited(chain, init, runs[..|runs| - 1]);
      RunUpdatesVisited(chain, StartBlock(init, Cursor(None, before)), runs[|runs| - 1]);
    }
  }

  /** Crash recovery, exactly. With successful lookups and no other watcher writing, the destinations
      after any number of runs that stopped anywhere equal those of one uninterrupted pass that obtains
      everything, for every VAA and whatever the redemptions are, if and only if the log is settled. */
  lemma CrashesLeaveNoTraceIff(chain: Chain, init: int, runs: seq<seq<Event>>)
    requires History(chain, init, runs) && LookupsSucceed(Flat(runs))
    ensures var log := Flat(runs);
            Recovers(chain, init, log) <==> Settled(chain, init, log)
  {
    var log := Flat(runs);
    HistoryCovered(chain, init, runs);
    HistoryUpdatesVisited(chain, init, runs);
    if Settled(chain, init, log) {
      SettledRecovers(chain, init, log);
    } else {
      UnsettledShows(chain, init, log);
    }
  }

  // ---------------------------------------------------------------- runs that lose nothing

  /** The position of a run that lost no block so far. */
  predicate Lossless(p: Position) {
    p.At? ==> !p.lost
  }

  ghost predicate Climbing(chain: Chain, init: int, log: seq<Event>, start: int, p: Position) {
    Climbs(Landed(chain, init, log)) && NextPosition(chain, init, start, p) <= Reached(Landed(chain, init, log))
  }

  lemma ClimbsAppend(ls: seq<Landing>, l: Landing)
    requires Climbs(ls) && l.known && l.position <= Reached(ls)
    ensures Climbs(ls + [l]) && Reached(ls + [l]) == l.position + 1
  {
  }

  lemma OffsetOfNext(chain: Chain, init: int, b: int)
    requires init <= b
    ensures Offset(chain, init, b + 1) == Offset(chain, init, b) + |chain(b)|
  {
  }

  lemma MoveKeepsPosition(chain: Chain, init: int, start: int, p: Position, e: Event)
    requires init <= Here(start, p) && !e.Update? && !e.Drop?
    requires Move(chain, start, p, e).Some? && Lossless(Move(chain, start, p, e).value)
    ensures NextPosition(chain, init, start, Move(chain, start, p, e).value) <= NextPosition(chain, init, start, p)
  {
    hide Offset;
    if p.At? {
      OffsetOfNext(chain, init, p.block);
    }
  }

  lemma UpdateMovesPosition(chain: Chain, init: int, start: int, p: Position, e: Event)
    requires e.Update? && Move(chain, start, p, e).Some?
    ensures LandingOf(chain, init, e).position == NextPosition(chain, init, start, p)
    ensures NextPosition(chain, init, start, Move(chain, start, p, e).value) == LandingOf(chain, init, e).position + 1
  {
    hide Offset;
  }

  /** The event neither drops a redemption nor writes one without its status or without effect. */
  predicate LosesNothing(e: Event) {
    !e.Drop? && (e.Update? ==> e.known && e.write.Applied())
  }

  lemma EventKeepsClimbing(chain: Chain, init: int, log: seq<Event>, start: int, p: Position, e: Event)
    requires Climbing(chain, init, log, start, p) && init <= Here(start, p) && LosesNothing(e)
    requires Move(chain, start, p, e).Some? && Lossless(Move(chain, start, p, e).value)
    ensures Climbing(chain, init, log + [e], start, Move(chain, start, p, e).value)
  {
    LandedAppend(chain, init, log, e);
    if e.Update? {
      UpdateMovesPosition(chain, init, start, p, e);
      assert LandingOf(chain, init, e).known;
      hide Landed, NextPosition, LandingOf, Reached, Climbs;
      ClimbsAppend(Landed(chain, init, log), LandingOf(chain, init, e));
    } else {
      hide Landed, NextPosition, LandingOf, Reached, Climbs;
      MoveKeepsPosition(chain, init, start, p, e);
      assert Landed(chain, init, log) + [] == Landed(chain, init, log);
    }
  }

  lemma {:induction false} LosslessPrefix(chain: Chain, start: int, t: seq<Event>)
    requires t != [] && Legal(chain, start, t) && Lossless(Track(chain, start, t).value)
    ensures Legal(chain, start, t[..|t| - 1]) && Lossless(Track(chain, start, t[..|t| - 1]).value)
  {
  }

  ghost predicate NothingLost(log: seq<Event>) {
    forall e :: e in log ==> LosesNothing(e)
  }

  lemma {:induction false} RunKeepsClimbing(chain: Chain, init: int, log: seq<Event>, start: int, t: seq<Event>)
    requires Covered(init, log) && start == StartBlock(init, Cursor(None, log)) && Legal(chain, start, t)
    requires Lossless(Track(chain, start, t).value) && NothingLost(t)
    requires Climbing(chain, init, log, start, Outside)
    ensures Climbing(chain, init, log + t, start, Track(chain, start, t).value)
  {
    if t == [] {
      assert log + t == log;
    } else {
      var front, last := t[..|t| - 1], t[|t| - 1];
      assert t == front + [last] && last in t;
      LosslessPrefix(chain, start, t);
      RunKeepsClimbing(chain, init, log, start, front);
      RunKeepsCoverage(chain, init, log, start, front);
      EventKeepsClimbing(chain, init, log + front, start, Track(chain, start, front).value, last);
      assert log + t == (log + front) + [last];
    }
  }

  /** No run moved on from a block with updates whose transactions it had not obtained. */
  ghost predicate NoBlockLost(chain: Chain, init: int, runs: seq<seq<Event>>)
    requires History(chain, init, runs)
  {
    runs == [] ||
    (NoBlockLost(chain, init, runs[..|runs| - 1]) &&
     Lossless(Track(chain, StartBlock(init, Cursor(None, Flat(runs[..|runs| - 1]))), runs[|runs| - 1]).value))
  }

  /** Where the last run stands. */
  function FinalPosition(chain: Chain, init: int, runs: seq<seq<Event>>): Position
    requires History(chain, init, runs)
  {
    if runs == [] then Outside
    else Track(chain, StartBlock(init, Cursor(None, Flat(runs[..|runs| - 1]))), runs[|runs| - 1]).value
  }

  lemma {:induction false} HistoryClimbs(chain: Chain, init: int, runs: seq<seq<Event>>)
    requires History(chain, init, runs) && NoBlockLost(chain, init, runs) && NothingLost(Flat(runs))
    ensures var log := Flat(runs);
            && Climbing(chain, init, log, StartBlock(init, Cursor(None, log)), Outside)
            && (FinalPosition(chain, init, runs).At? ==> Climbing(chain, init, log, init, FinalPosition(chain, init, runs)))
  {
    if runs != [] {
      var before, t := Flat(runs[..|runs| - 1]), runs[|runs| - 1];
      var start := StartBlock(init, Cursor(None, before));
      var p := Track(chain, start, t).value;
      HistoryClimbs(chain, init, runs[..|runs| - 1]);
      HistoryCovered(chain, init, runs[..|runs| - 1]);
      RunKeepsClimbing(chain, init, before, start, t);
      RunKeepsCoverage(chain, init, before, start, t);
      // the next run starts at or before the block reached
      var next := StartBlock(init, Cursor(None, before + t));
      assert next <= Here(start, p);
      OffsetMono(chain, init, next, Here(start, p));
    }
  }

  lemma VisitedNonempty(chain: Chain, init: int, runs: seq<seq<Event>>)
    requires History(chain, init, runs) && FinalPosition(chain, init, runs).At?
    ensures FinalPosition(chain, init, runs).block >= init
  {
    var before := Flat(runs[..|runs| - 1]);
    HistoryCovered(chain, init, runs[..|runs| - 1]);
    RunKeepsCoverage(chain, init, before, StartBlock(init, Cursor(None, before)), runs[|runs| - 1]);
  }

  /** A condition on single runs: when no run moved on from a block without its transactions, no request
      for a redemption failed and no write was rejected, and the last run has finished the highest
      visited block, crashes leave no trace, however often and wherever the watcher stopped. */
  lemma LosslessRunsRecover(chain: Chain, init: int, runs: seq<seq<Event>>)
    requires History(chain, init, runs) && NoBlockLost(chain, init, runs)
    requires LookupsSucceed(Flat(runs)) && NothingLost(Flat(runs))
    requires var p := FinalPosition(chain, init, runs);
             p.At? && p.block == High(init, Flat(runs)) && Complete(chain, p)
    ensures Recovers(chain, init, Flat(runs))
  {
    var log, p := Flat(runs), FinalPosition(chain, init, runs);
    var us, ls := Flatten(chain, init, p.block), Landed(chain, init, log);
    HistoryCovered(chain, init, runs);
    HistoryClimbs(chain, init, runs);
    HistoryUpdatesVisited(chain, init, runs);
    LandedBelow(chain, init, log, p.block);
    VisitedNonempty(chain, init, runs);
    assert us == Flatten(chain, init, p.block - 1) + chain(p.block);
    assert NextPosition(chain, init, init, p) == |us|;
    ClimbsSettle(ls, |us|);
    SettledRecovers(chain, init, log);
  }

  // ---------------------------------------------------------------- a rollback

  /** Two blocks that redeem the same VAA, confirmed twice with different hashes. */
  const TWO_BLOCKS: Chain := b => if b == 0 then [OneOfTwo(0, 1, CONFIRMED, 0)] else if b == 1 then [OneOfTwo(0, 1, CONFIRMED, 1)] else []

  const FIRST := Landing(0, true)
  const SECOND := Landing(1, true)

  /** A run that stops after applying the second block, before it writes the cursor. */
  const STOPPED_RUN: seq<Event> :=
    [Visit(0), Open(0), Update(0, 0, true, true, Acked), Save(0, Acked), Visit(1), Open(1), Update(1, 0, true, true, Acked)]

  /** The run after it applies the first block again, does not obtain the second one, and goes on. */
  const SKIPPING_RUN: seq<Event> :=
    [Visit(0), Open(0), Update(0, 0, true, true, Acked), Save(0, Acked), Visit(1), Visit(2), Open(2)]

  /** Where a run stands and what the log of all runs says. */
  ghost predicate Stands(log: seq<Event>, t: seq<Event>, p: Position, cursor: Option<int>, high: int, landed: seq<Landing>) {
    && Track(TWO_BLOCKS, 0, t) == Some(p)
    && Cursor(None, log + t) == cursor && High(0, log + t) == high && Landed(TWO_BLOCKS, 0, log + t) == landed
  }

  lemma StandsAtStart()
    ensures Stands([], [], Outside, None, -1, [])
  {
  }

  lemma StandsAgain(t: seq<Event>, p: Position, cursor: Option<int>, high: int, landed: seq<Landing>)
    requires Stands([], t, p, cursor, high, landed)
    ensures Stands(t, [], Outside, cursor, high, landed)
  {
    assert t + [] == t && [] + t == t;
  }

  lemma OffsetsOfTwo()
    ensures Offset(TWO_BLOCKS, 0, 0) == 0 && Offset(TWO_BLOCKS, 0, 1) == 1
    ensures Flatten(TWO_BLOCKS, 0, 2) == Two(2, 0, 1, CONFIRMED)
  {
    assert Flatten(TWO_BLOCKS, 0, -1) == [];
    assert Flatten(TWO_BLOCKS, 0, 0) == [OneOfTwo(0, 1, CONFIRMED, 0)];
    assert Flatten(TWO_BLOCKS, 0, 1) == [OneOfTwo(0, 1, CONFIRMED, 0), OneOfTwo(0, 1, CONFIRMED, 1)];
    assert Flatten(TWO_BLOCKS, 0, 2) == Flatten(TWO_BLOCKS, 0, 1);
  }

  lemma UpdateOfTwo(p: Position, e: Event)
    requires e.Update? && Move(TWO_BLOCKS, 0, p, e).Some? && p.At? && e.write.Applied()
    ensures Lands(TWO_BLOCKS, e) && LandingOf(TWO_BLOCKS, 0, e) == Landing(e.block, e.known)
  {
    hide Offset;
    OffsetsOfTwo();
    assert e.index < |TWO_BLOCKS(e.block)|;
  }

  lemma StandsAfter(log: seq<Event>, t: seq<Event>, p: Position, cursor: Option<int>, high: int, landed: seq<Landing>, e: Event, q: Position)
    requires Stands(log, t, p, cursor, high, landed) && Move(TWO_BLOCKS, 0, p, e) == Some(q)
    requires e.Update? ==> e.known && e.write.Applied()
    ensures Stands(log, t + [e], q, if e.Save? && e.write.Applied() then Some(e.block) else cursor,
                   if e.Visit? && e.block > high then e.block else high, if e.Update? then landed + [Landing(e.block, true)] else landed)
  {
    hide Cursor, High, Landed, Lands, LandingOf;
    assert (t + [e])[..|t|] == t && log + (t + [e]) == (log + t) + [e];
    AppendEffects(0, log + t, e);
    LandedAppend(TWO_BLOCKS, 0, log + t, e);
    if e.Update? {
      UpdateOfTwo(p, e);
    } else {
      NoUpdateLands(e);
      assert landed + [] == landed;
    }
  }

  lemma NoUpdateLands(e: Event)
    requires !e.Update?
    ensures !Lands(TWO_BLOCKS, e)
  {
  }

  /** The common part of both runs. */
  lemma FirstBlockStands(log: seq<Event>, cursor: Option<int>, high: int, landed: seq<Landing>)
    requires Stands(log, [], Outside, cursor, high, landed) && high >= -1
    ensures Stands(log, STOPPED_RUN[..5], At(1, -1, false), Some(0), if high > 1 then high else 1, landed + [FIRST])
  {
    hide Stands;
    var t, h := STOPPED_RUN, if high > 0 then high else 0;
    StandsAfter(log, [], Outside, cursor, high, landed, t[0], At(0, -1, false));
    assert [] + [t[0]] == t[..1] && t[..1] + [t[1]] == t[..2] && t[..2] + [t[2]] == t[..3];
    assert t[..3] + [t[3]] == t[..4] && t[..4] + [t[4]] == t[..5];
    StandsAfter(log, t[..1], At(0, -1, false), cursor, h, landed, t[1], At(0, 0, false));
    StandsAfter(log, t[..2], At(0, 0, false), cursor, h, landed, t[2], At(0, 1, false));
    StandsAfter(log, t[..3], At(0, 1, false), cursor, h, landed + [FIRST], t[3], At(0, 1, false));
    StandsAfter(log, t[..4], At(0, 1, false), Some(0), h, landed + [FIRST], t[4], At(1, -1, false));
  }

  lemma StoppedRunStands()
    ensures Stands([], STOPPED_RUN, At(1, 1, false), Some(0), 1, [FIRST, SECOND])
  {
    hide Stands;
    var t := STOPPED_RUN;
    StandsAtStart();
    FirstBlockStands([], None, -1, []);
    assert [] + [FIRST] == [FIRST] && [FIRST] + [SECOND] == [FIRST, SECOND];
    assert t[..5] + [t[5]] == t[..6] && t[..6] + [t[6]] == t;
    StandsAfter([], t[..5], At(1, -1, false), Some(0), 1, [FIRST], t[5], At(1, 0, false));
    StandsAfter([], t[..6], At(1, 0, false), Some(0), 1, [FIRST], t[6], At(1, 1, false));
  }

  lemma SkippingRunStands()
    ensures Stands(STOPPED_RUN, SKIPPING_RUN, At(2, 0, true), Some(0), 2, [FIRST, SECOND, FIRST])
  {
    hide Stands;
    var t := SKIPPING_RUN;
    StoppedRunStands();
    StandsAgain(STOPPED_RUN, At(1, 1, false), Some(0), 1, [FIRST, SECOND]);
    FirstBlockStands(STOPPED_RUN, Some(0), 1, [FIRST, SECOND]);
    assert STOPPED_RUN[..5] == t[..5] && t[..5] + [t[5]] == t[..6] && t[..6] + [t[6]] == t;
    assert [FIRST, SECOND] + [FIRST] == [FIRST, SECOND, FIRST];
    StandsAfter(STOPPED_RUN, t[..5], At(1, -1, false), Some(0), 1, [FIRST, SECOND, FIRST], t[5], At(2, -1, true));
    StandsAfter(STOPPED_RUN, t[..6], At(2, -1, true), Some(0), 2, [FIRST, SECOND, FIRST], t[6], At(2, 0, true));
  }

  /** That every visited block was obtained in some visit is not enough: here every block was, lookups
      and writes succeeded and the last run finished the highest block, yet the first block's
      redemption, applied again by the second run, stays in place of the second block's. */
  lemma OpenedBlocksCanRollBack()
    ensures var runs := [STOPPED_RUN, SKIPPING_RUN];
            var log := Flat(runs);
            && History(TWO_BLOCKS, 0, runs) && LookupsSucceed(log) && NothingLost(log)
            && High(0, log) == 2 && FinalPosition(TWO_BLOCKS, 0, runs) == At(2, 0, true) && Complete(TWO_BLOCKS, At(2, 0, true))
            && (forall b :: 0 <= b <= 2 ==> Open(b) in log)
            && !LeavesNoTrace(TWO_BLOCKS, 0, log, map[], "")
  {
    hide Cursor, High, Landed, Track, LeavesNoTrace;
    StoppedRunStands();
    SkippingRunStands();
    assert [] + STOPPED_RUN == STOPPED_RUN;
    RollbackIsHistory();
    RollbackEvents(STOPPED_RUN + SKIPPING_RUN);
    RollbackShows(STOPPED_RUN + SKIPPING_RUN);
  }

  lemma RollbackIsHistory()
    requires Track(TWO_BLOCKS, 0, STOPPED_RUN).Some? && Cursor(None, STOPPED_RUN) == Some(0)
    requires Track(TWO_BLOCKS, 0, SKIPPING_RUN) == Some(At(2, 0, true))
    ensures Flat([STOPPED_RUN, SKIPPING_RUN]) == STOPPED_RUN + SKIPPING_RUN
    ensures History(TWO_BLOCKS, 0, [STOPPED_RUN, SKIPPING_RUN])
    ensures FinalPosition(TWO_BLOCKS, 0, [STOPPED_RUN, SKIPPING_RUN]) == At(2, 0, true)
  {
    var runs := [STOPPED_RUN, SKIPPING_RUN];
    hide Track;
    assert runs[..1] == [STOPPED_RUN] && [STOPPED_RUN][..0] == [];
    assert [] + STOPPED_RUN == STOPPED_RUN && Flat([STOPPED_RUN]) == STOPPED_RUN;
    assert Cursor(None, []) == None;
    assert History(TWO_BLOCKS, 0, [STOPPED_RUN]);
  }

  lemma RollbackEvents(log: seq<Event>)
    requires log == STOPPED_RUN + SKIPPING_RUN
    ensures LookupsSucceed(log) && NothingLost(log) && UpdatesInRange(0, log, 2)
    ensures forall b :: 0 <= b <= 2 ==> Open(b) in log
  {
    assert forall e :: e in log ==> e in STOPPED_RUN || e in SKIPPING_RUN;
    assert log[1] == Open(0) && log[5] == Open(1) && log[13] == Open(2);
  }

  lemma RollbackShows(log: seq<Event>)
    requires LookupsSucceed(log) && UpdatesInRange(0, log, 2) && High(0, log) == 2
    requires Landed(TWO_BLOCKS, 0, log) == [FIRST, SECOND, FIRST]
    ensures !LeavesNoTrace(TWO_BLOCKS, 0, log, map[], "")
  {
    OffsetsOfTwo();
    SwappedLandingsShow([FIRST, SECOND, FIRST], 2, 1, 2, false);
    LogComparesPositions(TWO_BLOCKS, 0, log, map[], "");
  }
}

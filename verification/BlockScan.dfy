/** What a contract watcher does, event by event, over any number of runs that may stop anywhere:
    the blocks it visits, the updates it applies and the cursor it persists
    (contract-watcher/watcher: evm_standard_watcher.go, aptos_watcher.go, solana_watcher.go,
    terra_watcher.go). The Watchers module proves that the loops produce exactly such events. */
module BlockScan {
  import opened Wrappers
  import opened Writes
  import opened Redemption
  import opened Replay

  /** The redemptions of each block, in order, each as the update it makes when everything about it can
      be obtained. */
  type Chain = int -> seq<TransactionUpdate>

  datatype Event =
    | Visit(block: int)                                            // the block loop reaches a block
    | Open(block: int)                                             // its transactions were obtained
    | Drop(block: int, index: nat)                                 // a request for one of them failed
    | Update(block: int, index: nat, known: bool, lookup: bool, write: Write)   // one of them is written
    | Save(block: int, write: Write)                               // the cursor is written

  /** Position inside a run: next is the next redemption of the block, or -1 while its transactions were
      not obtained in this visit; lost tells that an earlier visit of a block that has redemptions ended
      without them. An update carries the status "unknown" when the status is not known. */
  datatype Position = Outside | At(block: int, next: int, lost: bool)

  /** The current visit is not in the middle of the block's redemptions. */
  predicate Between(chain: Chain, p: Position) {
    p.At? ==> p.next == -1 || p.next == |chain(p.block)|
  }

  /** Every redemption of the current block had its turn, or it has none. */
  predicate Complete(chain: Chain, p: Position) {
    p.At? && (p.next == |chain(p.block)| || chain(p.block) == [])
  }

  /** The next redemption of the current block has its turn. */
  function Turn(chain: Chain, p: Position, b: int, j: nat): Option<Position> {
    if p.At? && b == p.block && j == p.next && j < |chain(b)| then Some(At(b, j + 1, p.lost)) else None
  }

  function Move(chain: Chain, start: int, p: Position, e: Event): Option<Position> {
    match e
    case Visit(b) =>
      if p.Outside? then (if b == start then Some(At(b, -1, false)) else None)
      else if (b == p.block || b == p.block + 1) && Between(chain, p) then Some(At(b, -1, p.lost || !Complete(chain, p)))
      else None
    case Open(b) =>
      if p.At? && b == p.block && Between(chain, p) then Some(At(b, 0, p.lost)) else None
    case Drop(b, j) => Turn(chain, p, b, j)
    case Update(b, j, _, _, _) => Turn(chain, p, b, j)
    case Save(b, _) =>
      if p.At? && b == p.block && Between(chain, p) then Some(p) else None
  }

  /** Where a run stands after its events; None when the events are not those of a run. */
  function Track(chain: Chain, start: int, t: seq<Event>): Option<Position> {
    if t == [] then Some(Outside)
    else
      match Track(chain, start, t[..|t| - 1])
      case None => None
      case Some(p) => Move(chain, start, p, t[|t| - 1])
  }

  predicate Legal(chain: Chain, start: int, t: seq<Event>) {
    Track(chain, start, t).Some?
  }

  /** A run may stop after any event. */
  lemma {:induction false} LegalPrefix(chain: Chain, start: int, t: seq<Event>, n: nat)
    requires Legal(chain, start, t) && n <= |t|
    ensures Legal(chain, start, t[..n])
    decreases |t|
  {
    if n == |t| {
      assert t[..n] == t;
    } else {
      var front := t[..|t| - 1];
      LegalPrefix(chain, start, front, n);
      assert front[..n] == t[..n];
    }
  }

  // ---------------------------------------------------------------- effects

  /** The blocks visited, in order. */
  function VisitsIn(t: seq<Event>): seq<int> {
    if t == [] then []
    else VisitsIn(t[..|t| - 1]) + (if t[|t| - 1].Visit? then [t[|t| - 1].block] else [])
  }

  /** The persisted cursor. */
  function Cursor(c: Option<int>, t: seq<Event>): Option<int> {
    if t == [] then c
    else
      var last := t[|t| - 1];
      if last.Save? && last.write.Applied() then Some(last.block) else Cursor(c, t[..|t| - 1])
  }

  /** The highest block visited, init - 1 before any. */
  function High(init: int, t: seq<Event>): (h: int)
    ensures h >= init - 1
  {
    if t == [] then init - 1
    else
      var h, last := High(init, t[..|t| - 1]), t[|t| - 1];
      if last.Visit? && last.block > h then last.block else h
  }

  predicate Visited(t: seq<Event>, b: int) {
    Visit(b) in t
  }

  /** The store changes behind a list of events. */
  function UpdatesOf(chain: Chain, t: seq<Event>): seq<Redemption.Step> {
    if t == [] then []
    else
      var front, last := UpdatesOf(chain, t[..|t| - 1]), t[|t| - 1];
      if last.Update? && last.index < |chain(last.block)|
      then front + [Step(UpdateOf(chain, last), last.lookup, last.write)] else front
  }

  /** The update an event writes. */
  function UpdateOf(chain: Chain, e: Event): TransactionUpdate
    requires e.Update? && e.index < |chain(e.block)|
  {
    if e.known then chain(e.block)[e.index] else Degraded(chain(e.block)[e.index])
  }

  // ---------------------------------------------------------------- runs and restarts

  /** Where a run starts: at the persisted cursor, or at the configured block. */
  function StartBlock(init: int, c: Option<int>): int {
    if c.Some? then c.value else init
  }

  function Flat(runs: seq<seq<Event>>): seq<Event> {
    if runs == [] then [] else Flat(runs[..|runs| - 1]) + runs[|runs| - 1]
  }

  /** Each run, cut off anywhere, starts from what the runs before it persisted. */
  ghost predicate History(chain: Chain, init: int, runs: seq<seq<Event>>) {
    runs == [] ||
    (History(chain, init, runs[..|runs| - 1]) &&
     Legal(chain, StartBlock(init, Cursor(None, Flat(runs[..|runs| - 1]))), runs[|runs| - 1]))
  }

  /** A further run from the persisted cursor, stopped after any of its events, makes a longer
      history. */
  lemma StoppedRunExtendsHistory(chain: Chain, init: int, runs: seq<seq<Event>>, t: seq<Event>, n: nat)
    requires History(chain, init, runs) && n <= |t|
    requires Legal(chain, StartBlock(init, Cursor(None, Flat(runs))), t)
    ensures History(chain, init, runs + [t[..n]]) && Flat(runs + [t[..n]]) == Flat(runs) + t[..n]
  {
    LegalPrefix(chain, StartBlock(init, Cursor(None, Flat(runs))), t, n);
    assert (runs + [t[..n]])[..|runs|] == runs;
  }

  /** A restarted run visits the persisted block again before any other, the first run the configured
      one. */
  lemma RestartRevisits(chain: Chain, init: int, runs: seq<seq<Event>>, t: seq<Event>)
    requires History(chain, init, runs + [t]) && t != []
    ensures t[0] == Visit(match Cursor(None, Flat(runs)) case None => init case Some(b) => b)
  {
    assert (runs + [t])[..|runs|] == runs && (runs + [t])[|runs|] == t;
    var start := StartBlock(init, Cursor(None, Flat(runs)));
    LegalPrefix(chain, start, t, 1);
    assert t[..1][..0] == [] && t[..1][0] == t[0];
    assert Track(chain, start, t[..1]) == Move(chain, start, Outside, t[0]);
  }

  // ---------------------------------------------------------------- coverage

  /** The visited blocks are exactly init..High, and the cursor is one of them. */
  ghost predicate Covered(init: int, log: seq<Event>) {
    && (forall b :: Visited(log, b) <==> init <= b <= High(init, log))
    && (Cursor(None, log).Some? ==> init <= Cursor(None, log).value <= High(init, log))
  }

  /** The block a run stands at, or will visit first. */
  function Here(start: int, p: Position): int {
    if p.At? then p.block else start
  }

  ghost predicate RunCovered(init: int, log: seq<Event>, start: int, p: Position) {
    && Covered(init, log)
    && init <= start <= Here(start, p) <= High(init, log) + 1
    && (p.At? ==> p.block <= High(init, log))
    && (Cursor(None, log).Some? ==> Cursor(None, log).value <= Here(start, p))
  }

  lemma AppendEffects(init: int, log: seq<Event>, e: Event)
    ensures Cursor(None, log + [e]) == if e.Save? && e.write.Applied() then Some(e.block) else Cursor(None, log)
    ensures High(init, log + [e]) == if e.Visit? && e.block > High(init, log) then e.block else High(init, log)
    ensures forall b :: Visited(log + [e], b) <==> Visited(log, b) || e == Visit(b)
  {
    assert (log + [e])[..|log|] == log;
  }

  lemma EventKeepsCoverage(chain: Chain, init: int, log: seq<Event>, start: int, p: Position, e: Event)
    requires RunCovered(init, log, start, p) && Move(chain, start, p, e).Some?
    ensures RunCovered(init, log + [e], start, Move(chain, start, p, e).value)
    ensures Cursor(None, log).Some? ==> Cursor(None, log + [e]).Some? && Cursor(None, log + [e]).value >= Cursor(None, log).value
  {
    hide Cursor, High, Visited;
    AppendEffects(init, log, e);
  }

  lemma {:induction false} RunKeepsCoverage(chain: Chain, init: int, log: seq<Event>, start: int, t: seq<Event>)
    requires Covered(init, log) && start == StartBlock(init, Cursor(None, log)) && Legal(chain, start, t)
    ensures RunCovered(init, log + t, start, Track(chain, start, t).value)
  {
    if t == [] {
      assert log + t == log;
    } else {
      var front, last := t[..|t| - 1], t[|t| - 1];
      RunKeepsCoverage(chain, init, log, start, front);
      EventKeepsCoverage(chain, init, log + front, start, Track(chain, start, front).value, last);
      assert log + t == (log + front) + [last];
    }
  }

  lemma {:induction false} HistoryCovered(chain: Chain, init: int, runs: seq<seq<Event>>)
    requires History(chain, init, runs)
    ensures Covered(init, Flat(runs))
  {
    if runs != [] {
      var before := Flat(runs[..|runs| - 1]);
      HistoryCovered(chain, init, runs[..|runs| - 1]);
      RunKeepsCoverage(chain, init, before, StartBlock(init, Cursor(None, before)), runs[|runs| - 1]);
    }
  }

  /** Across any number of runs, each stopped at an arbitrary point and restarted from the persisted
      cursor, the visited blocks form one interval from the initial block without a gap, and the
      cursor never passes a visited block. */
  lemma VisitsFormOneInterval(chain: Chain, init: int, runs: seq<seq<Event>>, b: int)
    requires History(chain, init, runs)
    ensures var log := Flat(runs);
            && (Visited(log, b) <==> init <= b <= High(init, log))
            && (Cursor(None, log) == Some(b) ==> Visited(log, b))
  {
    HistoryCovered(chain, init, runs);
  }

  lemma {:induction false} CursorGrowsInRun(chain: Chain, init: int, log: seq<Event>, start: int, t: seq<Event>)
    requires Covered(init, log) && start == StartBlock(init, Cursor(None, log)) && Legal(chain, start, t)
    ensures Cursor(None, log).Some? ==> Cursor(None, log + t).Some? && Cursor(None, log + t).value >= Cursor(None, log).value
  {
    if t == [] {
      assert log + t == log;
    } else {
      var front, last := t[..|t| - 1], t[|t| - 1];
      CursorGrowsInRun(chain, init, log, start, front);
      RunKeepsCoverage(chain, init, log, start, front);
      EventKeepsCoverage(chain, init, log + front, start, Track(chain, start, front).value, last);
      assert log + t == (log + front) + [last];
    }
  }

  /** Once written the cursor never disappears and never moves backwards, from any run to any
      later one. */
  lemma {:induction false} CursorNeverMovesBack(chain: Chain, init: int, runs: seq<seq<Event>>, n: nat)
    requires History(chain, init, runs) && n <= |runs|
    requires Cursor(None, Flat(runs[..n])).Some?
    ensures Cursor(None, Flat(runs)).Some?
    ensures Cursor(None, Flat(runs)).value >= Cursor(None, Flat(runs[..n])).value
    decreases |runs|
  {
    if n == |runs| {
      assert runs[..n] == runs;
    } else {
      var front := runs[..|runs| - 1];
      assert front[..n] == runs[..n];
      CursorNeverMovesBack(chain, init, front, n);
      HistoryCovered(chain, init, front);
      CursorGrowsInRun(chain, init, Flat(front), StartBlock(init, Cursor(None, Flat(front))), runs[|runs| - 1]);
    }
  }

  // ---------------------------------------------------------------- which blocks are handled

  /** The redemption has its turn. */
  predicate Treats(e: Event, b: int, j: nat) {
    (e.Update? || e.Drop?) && e.block == b && e.index == j
  }

  predicate TreatedIn(t: seq<Event>, b: int, j: nat) {
    exists i :: 0 <= i < |t| && Treats(t[i], b, j)
  }

  /** The redemption is written with its own status, and the write takes effect. An update that the
      status rules refuse counts as applied: it has nothing to write. */
  predicate Applies(e: Event, b: int, j: nat) {
    e.Update? && e.block == b && e.index == j && e.known && e.write.Applied()
  }

  predicate AppliedIn(t: seq<Event>, b: int, j: nat) {
    exists i :: 0 <= i < |t| && Applies(t[i], b, j)
  }

  /** Every redemption of the block was applied. */
  predicate Handled(chain: Chain, t: seq<Event>, b: int) {
    forall j: nat :: j < |chain(b)| ==> AppliedIn(t, b, j)
  }

  predicate Treated(chain: Chain, t: seq<Event>, b: int) {
    forall j: nat :: j < |chain(b)| ==> TreatedIn(t, b, j)
  }

  lemma TreatedExtends(t: seq<Event>, e: Event, b: int, j: nat)
    ensures TreatedIn(t + [e], b, j) <==> TreatedIn(t, b, j) || Treats(e, b, j)
  {
    var u := t + [e];
    assert u[|t|] == e && forall i :: 0 <= i < |t| ==> u[i] == t[i];
  }

  lemma NothingApplied(b: int, j: nat)
    ensures !AppliedIn([], b, j)
  {
  }

  lemma AppliedExtends(t: seq<Event>, e: Event, b: int, j: nat)
    ensures AppliedIn(t + [e], b, j) <==> AppliedIn(t, b, j) || Applies(e, b, j)
  {
    var u := t + [e];
    assert u[|t|] == e && forall i :: 0 <= i < |t| ==> u[i] == t[i];
  }

  lemma AppliedInParts(t: seq<Event>, u: seq<Event>, b: int, j: nat)
    ensures AppliedIn(t + u, b, j) <==> AppliedIn(t, b, j) || AppliedIn(u, b, j)
  {
    var v := t + u;
    assert forall i :: 0 <= i < |t| ==> v[i] == t[i];
    assert forall i :: 0 <= i < |u| ==> v[|t| + i] == u[i];
    if i :| 0 <= i < |v| && Applies(v[i], b, j) {
      if i >= |t| {
        assert u[i - |t|] == v[i];
      }
    }
  }

  /** Redemptions have a turn only in opened blocks; all those of a block that was opened and is not the
      current one had theirs; those of the current one up to the next one. */
  lemma {:induction false} OpenedIsTreated(chain: Chain, start: int, t: seq<Event>)
    requires Legal(chain, start, t)
    ensures var p := Track(chain, start, t).value;
            && (forall b, j: nat :: TreatedIn(t, b, j) ==> Open(b) in t)
            && (forall b :: Open(b) in t && !(p.At? && b == p.block) ==> Treated(chain, t, b))
            && (p.At? && p.next == -1 && Open(p.block) in t ==> Treated(chain, t, p.block))
            && (p.At? ==> forall j: nat :: j < p.next ==> TreatedIn(t, p.block, j))
            && (p.At? && p.next >= 0 ==> Open(p.block) in t)
            && (p.At? ==> p.next <= |chain(p.block)|)
  {
    if t != [] {
      var front, e := t[..|t| - 1], t[|t| - 1];
      assert t == front + [e];
      OpenedIsTreated(chain, start, front);
      forall b, j: nat
        ensures TreatedIn(t, b, j) <==> TreatedIn(front, b, j) || Treats(e, b, j)
      {
        TreatedExtends(front, e, b, j);
      }
    }
  }

  /** Once a run has moved on, every redemption of a block had its turn exactly when the block has none or
      its transactions were obtained in some visit. The cursor passes the block either way, and a turn
      can end in a dropped redemption or a rejected write. */
  lemma TreatedIffOpened(chain: Chain, start: int, t: seq<Event>, b: int)
    requires Legal(chain, start, t) && Track(chain, start, t).value.At? && b < Track(chain, start, t).value.block
    ensures Treated(chain, t, b) <==> chain(b) == [] || Open(b) in t
  {
    OpenedIsTreated(chain, start, t);
    if Treated(chain, t, b) && chain(b) != [] {
      assert TreatedIn(t, b, 0);
    }
  }

  // ---------------------------------------------------------------- lost for good

  lemma {:induction false} RunStaysAhead(chain: Chain, start: int, t: seq<Event>)
    requires Legal(chain, start, t)
    ensures forall e :: e in t ==> e.block >= start
    ensures Track(chain, start, t).value.At? ==> Track(chain, start, t).value.block >= start
  {
    if t != [] {
      assert t == t[..|t| - 1] + [t[|t| - 1]];
      RunStaysAhead(chain, start, t[..|t| - 1]);
    }
  }

  /** Once a run is over whose cursor is past a block, no later run changes which of the block's
      redemptions were applied. */
  lemma {:induction false} PassedIsDecided(chain: Chain, init: int, runs: seq<seq<Event>>, n: nat, b: int, j: nat)
    requires History(chain, init, runs) && n <= |runs|
    requires Cursor(None, Flat(runs[..n])).Some? && b < Cursor(None, Flat(runs[..n])).value
    ensures AppliedIn(Flat(runs), b, j) <==> AppliedIn(Flat(runs[..n]), b, j)
    decreases |runs|
  {
    if n == |runs| {
      assert runs[..n] == runs;
    } else {
      var front, last := runs[..|runs| - 1], runs[|runs| - 1];
      assert front[..n] == runs[..n];
      PassedIsDecided(chain, init, front, n, b, j);
      CursorNeverMovesBack(chain, init, front, n);
      RunStaysAhead(chain, StartBlock(init, Cursor(None, Flat(front))), last);
      AppliedInParts(Flat(front), last, b, j);
    }
  }

  /** What can go wrong in the turn of the first redemption of block 0. */
  predicate Loses(e: Event) {
    e == Drop(0, 0) || (e.Update? && e.block == 0 && e.index == 0 && (!e.known || e.write.Rejected?))
  }

  /** A run over two blocks in which that happens. */
  function LosingRun(e: Event): seq<Event> {
    [Visit(0), Open(0), e, Save(0, Acked), Visit(1), Open(1), Save(1, Acked)]
  }

  /** The redemption is lost for good: its block was obtained, the run is one the watchers make, and
      no continuation of any length applies it. */
  lemma LostForGood(chain: Chain, e: Event, runs: seq<seq<Event>>)
    requires |chain(0)| == 1 && chain(1) == [] && Loses(e)
    requires History(chain, 0, runs) && runs != [] && runs[0] == LosingRun(e)
    ensures History(chain, 0, [LosingRun(e)]) && !AppliedIn(Flat(runs), 0, 0)
  {
    var t := LosingRun(e);
    assert runs[..1] == [t] && [t][..0] == [];
    assert Flat([t]) == [] + t && [] + t == t;
    LosingRunIsLegal(chain, e);
    assert History(chain, 0, []);
    PassedIsDecided(chain, 0, runs, 1, 0, 0);
  }

  lemma LosingRunIsLegal(chain: Chain, e: Event)
    requires |chain(0)| == 1 && chain(1) == [] && Loses(e)
    ensures Legal(chain, 0, LosingRun(e)) && Cursor(None, LosingRun(e)) == Some(1) && !AppliedIn(LosingRun(e), 0, 0)
  {
    var t := LosingRun(e);
    assert t[..7] == t && t[..1][..0] == [] && t[..2][..1] == t[..1] && t[..3][..2] == t[..2] && t[..4][..3] == t[..3];
    assert t[..5][..4] == t[..4] && t[..6][..5] == t[..5] && t[..7][..6] == t[..6];
    assert Track(chain, 0, t[..1]) == Some(At(0, -1, false));
    assert Track(chain, 0, t[..2]) == Some(At(0, 0, false));
    assert Track(chain, 0, t[..3]) == Some(At(0, 1, false));
    assert Track(chain, 0, t[..4]) == Some(At(0, 1, false));
    assert Track(chain, 0, t[..5]) == Some(At(1, -1, false));
    assert Track(chain, 0, t[..6]) == Some(At(1, 0, false));
    assert Track(chain, 0, t) == Some(At(1, 0, false));
  }
}

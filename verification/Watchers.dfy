/** The scan loops of the four contract watchers as objects. Each method is proved to produce events
    that BlockScan accepts and visits that Rounds describes. */
module Watchers {
  import opened Wrappers
  import opened Text
  import opened Pagination
  import opened Writes
  import opened Redemption
  import opened Replay
  import opened BlockScan
  import opened Visits
  import Rounds

  /** Block numbers are stored as signed 64-bit integers. Below this bound neither they nor the
      number of pages, which two of the loops convert, change sign. */
  const MAX_BLOCK := INT64_BOUND - 1

  type Height = x: int | 0 <= x < MAX_BLOCK

  /** The two collections, the answers of the world, and the record of what happened. */
  class Environment {
    const oracle: Oracle
    ghost const txs0: GlobalTxs
    var watcherBlock: Option<int>
    var globalTransactions: GlobalTxs
    var clock: nat
    ghost var past: seq<Event>      // events of earlier runs
    ghost var session: seq<Event>   // events of this run
    ghost var start: int

    constructor (oracle: Oracle, txs: GlobalTxs)
      ensures Valid() && past == [] && session == [] && watcherBlock == None && globalTransactions == txs
      ensures this.oracle == oracle
    {
      this.oracle := oracle;
      txs0 := txs;
      watcherBlock, globalTransactions, clock := None, txs, 0;
      past, session, start := [], [], 0;
      new;
      assert past + session == [];
    }

    /** The stores hold what the recorded events make of them. */
    ghost predicate Valid()
      reads this
    {
      && clock == |past| + |session|
      && Legal(oracle.chain, start, session)
      && watcherBlock == Cursor(None, past + session)
      && globalTransactions == Redemption.Run(txs0, UpdatesOf(oracle.chain, past + session))
    }

    ghost function Position(): Position
      reads this
      requires Valid()
    {
      Track(oracle.chain, start, session).value
    }

    ghost method Log(e: Event)
      requires Valid() && Move(oracle.chain, start, Position(), e).Some?
      modifies this`session
      ensures session == old(session) + [e] && Legal(oracle.chain, start, session)
      ensures Track(oracle.chain, start, session) == Move(oracle.chain, start, old(Position()), e)
      ensures Cursor(None, past + session) == if e.Save? && e.write.Applied() then Some(e.block) else old(watcherBlock)
      ensures UpdatesOf(oracle.chain, past + session) ==
              if e.Update? then old(UpdatesOf(oracle.chain, past + session)) + [Step(UpdateOf(oracle.chain, e), e.lookup, e.write)]
              else old(UpdatesOf(oracle.chain, past + session))
    {
      var before := past + session;
      session := session + [e];
      assert session[..|session| - 1] == old(session);
      assert past + session == before + [e];
      assert (before + [e])[..|before|] == before;
    }

    /** Storage.GetCurrentBlock. */
    method GetCurrentBlock(defaultBlock: int, ok: bool) returns (r: Result<int>)
      ensures r == if ok then Ok(StartBlock(defaultBlock, watcherBlock)) else Err("cannot get current block")
      ensures r.Ok? <==> ok
      ensures r.Ok? ==> (watcherBlock.Some? ==> r.value == watcherBlock.value) && (watcherBlock.None? ==> r.value == defaultBlock)
    {
      if !ok {
        return Err("cannot get current block");
      }
      return Ok(if watcherBlock.Some? then watcherBlock.value else defaultBlock);
    }

    /** A new run begins; the previous one may have stopped anywhere. */
    ghost method Begin(start: int)
      requires Valid()
      modifies this`past, this`session, this`start
      ensures Valid() && past == old(past + session) && session == [] && this.start == start
    {
      past, session := past + session, [];
      this.start := start;
      assert past + session == past;
    }

    method Reach(b: int)
      requires Valid() && Move(oracle.chain, start, Position(), Visit(b)).Some?
      modifies this
      ensures Valid() && past == old(past) && start == old(start)
      ensures Track(oracle.chain, start, session) == Move(oracle.chain, start, old(Position()), Visit(b))
      ensures watcherBlock == old(watcherBlock)
      ensures session == old(session) + [Visit(b)] && clock == old(clock) + 1
    {
      Log(Visit(b));
      clock := clock + 1;
    }

    /** Storage.UpdateWatcherBlock. */
    method UpdateWatcherBlock(b: int) returns (ok: bool)
      requires Valid() && Move(oracle.chain, start, Position(), Save(b, Acked)).Some?
      modifies this
      ensures Valid() && past == old(past) && start == old(start)
      ensures Position() == old(Position())
      ensures watcherBlock == (if oracle.write(old(clock)).Applied() then Some(b) else old(watcherBlock))
      ensures ok == oracle.write(old(clock)).Acked?
      ensures session == old(session) + [Save(b, oracle.write(old(clock)))] && clock == old(clock) + 1
    {
      var w := oracle.write(clock);
      Log(Save(b, w));
      if w.Applied() {
        watcherBlock := Some(b);
      }
      clock := clock + 1;
      ok := w.Acked?;
    }

    /** updateGlobalTransaction for one update. */
    method WriteGlobalTransaction(tx: TransactionUpdate, found: bool, w: Write)
      modifies this`globalTransactions
      ensures globalTransactions == Redemption.Apply(old(globalTransactions), Step(tx, found, w))
    {
      var (shouldUpdate, error) := CheckTxShouldBeUpdated(tx, Redemption.Lookup(globalTransactions, tx.id, found));
      if shouldUpdate && w.Applied() {
        globalTransactions := globalTransactions[tx.id := Redemption.Upserted(globalTransactions, tx)];
      }
    }

    /** The turn of one redemption: its requests, and updateGlobalTransaction unless they failed. */
    method ProcessTransaction(b: int, j: nat)
      requires Valid() && Turn(oracle.chain, Position(), b, j).Some?
      modifies this
      ensures Valid() && past == old(past) && start == old(start)
      ensures Track(oracle.chain, start, session) == Turn(oracle.chain, old(Position()), b, j)
      ensures watcherBlock == old(watcherBlock)
      ensures session == old(session) + [oracle.TurnAt(b, j, old(clock))] && clock == old(clock) + 1
      ensures var r := oracle.requests(old(clock));
              var dropped := if oracle.kind.Evm? then r.Dropped? else !oracle.kind.Terra? && !r.Resolved?;
              var update := if oracle.kind.Evm? && !r.Resolved? then Degraded(oracle.chain(b)[j]) else oracle.chain(b)[j];
              globalTransactions ==
              if dropped then old(globalTransactions)
              else Redemption.Apply(old(globalTransactions), Step(update, oracle.lookup(old(clock)), oracle.write(old(clock))))
    {
      hide Redemption.Apply, Redemption.Run, UpdatesOf, Cursor;
      var resolution := oracle.ResolutionAt(clock);
      if resolution.Dropped? {
        Log(Drop(b, j));
      } else {
        var tx := if resolution.Resolved? then oracle.chain(b)[j] else Degraded(oracle.chain(b)[j]);
        var found, w := oracle.lookup(clock), oracle.write(clock);
        RunExtends(txs0, UpdatesOf(oracle.chain, past + session), Step(tx, found, w));
        Log(Update(b, j, resolution.Resolved?, found, w));
        WriteGlobalTransaction(tx, found, w);
      }
      clock := clock + 1;
    }

    /** The block's transactions arrive, whole or their first page. */
    method OpenBlock(b: int)
      requires Valid() && Move(oracle.chain, start, Position(), Open(b)).Some?
      modifies this
      ensures Valid() && past == old(past) && start == old(start)
      ensures Position() == old(Position()).(next := 0) && watcherBlock == old(watcherBlock)
      ensures session == old(session) + [Open(b)] && clock == old(clock) + 1
    {
      Log(Open(b));
      clock := clock + 1;
    }

    /** Some of a block's transactions, one after the other. */
    method ProcessTransactions(b: int, lo: nat, hi: nat)
      requires Valid() && Position().At? && Position().block == b && Position().next == lo <= hi <= |oracle.chain(b)|
      modifies this
      ensures Valid() && past == old(past) && start == old(start)
      ensures Position() == old(Position()).(next := hi) && watcherBlock == old(watcherBlock)
      ensures session == old(session) + oracle.TurnsAt(b, lo, hi, old(clock)) && clock == old(clock) + (hi - lo)
    {
      hide Cursor, UpdatesOf, Redemption.Run;
      var j := lo;
      while j < hi
        invariant lo <= j <= hi && Valid()
        invariant past == old(past) && start == old(start)
        invariant Position() == old(Position()).(next := j) && watcherBlock == old(watcherBlock)
        invariant session == old(session) + oracle.TurnsAt(b, lo, j, old(clock)) && clock == old(clock) + (j - lo)
      {
        ProcessTransaction(b, j);
        j := j + 1;
      }
    }

    /** A whole block's transactions. */
    method ProcessBlock(b: int)
      requires Valid() && Move(oracle.chain, start, Position(), Open(b)).Some?
      modifies this
      ensures Valid() && past == old(past) && start == old(start)
      ensures Position() == old(Position()).(next := |oracle.chain(b)|) && watcherBlock == old(watcherBlock)
      ensures session == old(session) + oracle.BlockAt(b, old(clock)) && clock == old(clock) + |oracle.chain(b)| + 1
    {
      hide Cursor, UpdatesOf, Redemption.Run, Oracle.TurnsAt;
      OpenBlock(b);
      ProcessTransactions(b, 0, |oracle.chain(b)|);
    }

    /** Since some events and time these blocks were visited. */
    ghost predicate Saw(before: seq<Event>, begun: nat, bs: seq<int>, save: bool)
      reads this
    {
      oracle.Follows(before, begun, bs, save, session, clock)
    }

    /** A block loop may continue with this block. */
    ghost predicate ReadyFor(b: int)
      reads this
    {
      Valid() && Move(oracle.chain, start, Position(), Visit(b)).Some?
    }

    /** A block was visited and left in a state from which the loop goes on. */
    ghost predicate Finished(b: int)
      reads this
    {
      Valid() && Position().At? && Position().block == b && Between(oracle.chain, Position())
    }

    /** One attempt for a block, the cursor being written inside. */
    method AttemptSavingInside(b: int, updateWatcherBlock: bool, asked: nat, n: nat) returns (done: bool)
      requires Finished(b) && n < EVM_MAX_RETRIES
      modifies this
      ensures Finished(b) && past == old(past) && start == old(start)
      ensures Position().next == if oracle.fetch(asked)(n).Obtained? then |oracle.chain(b)| else old(Position().next)
      ensures oracle.fetch(asked)(n).Again? ==> !done
      ensures oracle.fetch(asked)(n).GivenUp? ==> done
      ensures session + (if done then [] else oracle.AttemptsAt(b, updateWatcherBlock, asked, n + 1, clock)) ==
              old(session) + oracle.AttemptsAt(b, updateWatcherBlock, asked, n, old(clock))
      ensures !updateWatcherBlock ==> watcherBlock == old(watcherBlock)
    {
      hide Cursor, UpdatesOf, Redemption.Run, Oracle.BlockAt, Oracle.TurnsAt, Oracle.AttemptsAt, Legal;
      oracle.AttemptUnfolds(b, updateWatcherBlock, asked, n, clock, session);
      match oracle.fetch(asked)(n) {
      case Again =>
        done := false;
      case GivenUp =>
        done := true;
      case Obtained =>
        ProcessBlock(b);
        done := true;
        if updateWatcherBlock {
          done := UpdateWatcherBlock(b);
        }
      }
    }

    /** One block of the EVM and Aptos watchers: repeated while the node asks to, the cursor being
        written inside each attempt. The block's updates are attempted exactly when the first decisive
        answer brings its transactions. */
    method VisitSavingInside(b: int, updateWatcherBlock: bool)
      requires ReadyFor(b) && (oracle.kind.Evm? || oracle.kind.Aptos?)
      modifies this
      ensures Finished(b) && past == old(past) && start == old(start)
      ensures Saw(old(session), old(clock), [b], updateWatcherBlock)
      ensures Position().next == if Decisive(oracle.fetch(old(clock)), EVM_MAX_RETRIES, 0).Obtained? then |oracle.chain(b)| else -1
      ensures !updateWatcherBlock ==> watcherBlock == old(watcherBlock)
    {
      hide Cursor, UpdatesOf, Redemption.Run, Oracle.AttemptsAt, Legal;
      var time := clock;
      ghost var decisive := Decisive(oracle.fetch(time), EVM_MAX_RETRIES, 0);
      ghost var all := old(session) + oracle.VisitAt(b, updateWatcherBlock, time);
      oracle.FollowsOne(session, time, b, updateWatcherBlock);
      Reach(b);
      assert session + oracle.AttemptsAt(b, updateWatcherBlock, time, 0, clock) == all;
      var n, done := 0, false;
      while !done && n < EVM_MAX_RETRIES
        invariant n <= EVM_MAX_RETRIES && Finished(b) && past == old(past) && start == old(start)
        invariant session + (if done then [] else oracle.AttemptsAt(b, updateWatcherBlock, time, n, clock)) == all
        invariant Position().next == -1 && !done ==> Decisive(oracle.fetch(time), EVM_MAX_RETRIES, n) == decisive
        invariant Position().next == -1 && done ==> !decisive.Obtained?
        invariant Position().next != -1 ==> Position().next == |oracle.chain(b)| && decisive.Obtained?
        invariant !updateWatcherBlock ==> watcherBlock == old(watcherBlock)
        decreases EVM_MAX_RETRIES - n
      {
        done := AttemptSavingInside(b, updateWatcherBlock, time, n);
        n := n + 1;
      }
      oracle.NoAttemptsLeft(b, updateWatcherBlock, time, clock);
    }

    /** The attempts for a block of the Solana watcher. */
    method AttemptAfter(b: int, asked: nat) returns (ghost obtained: bool)
      requires Finished(b) && Position().next == -1
      modifies this
      ensures Finished(b) && past == old(past) && start == old(start)
      ensures obtained == Decisive(oracle.fetch(asked), SOLANA_MAX_RETRIES, 0).Obtained? && watcherBlock == old(watcherBlock)
      ensures Position().next == if obtained then |oracle.chain(b)| else -1
      ensures session == old(session) + (if obtained then oracle.BlockAt(b, old(clock)) else [])
      ensures clock == old(clock) + (if obtained then |oracle.chain(b)| + 1 else 0)
    {
      hide Cursor, UpdatesOf, Redemption.Run, Oracle.BlockAt, Oracle.TurnsAt, Legal;
      ghost var decisive := Decisive(oracle.fetch(asked), SOLANA_MAX_RETRIES, 0);
      var n, done := 0, false;
      obtained := false;
      while !done && n < SOLANA_MAX_RETRIES
        invariant n <= SOLANA_MAX_RETRIES && Finished(b) && past == old(past) && start == old(start)
        invariant watcherBlock == old(watcherBlock)
        invariant !done ==> Decisive(oracle.fetch(asked), SOLANA_MAX_RETRIES, n) == decisive
        invariant done ==> obtained == decisive.Obtained?
        invariant obtained ==> done
        invariant Position().next == if obtained then |oracle.chain(b)| else -1
        invariant session == old(session) + (if obtained then oracle.BlockAt(b, old(clock)) else [])
        invariant clock == old(clock) + (if obtained then |oracle.chain(b)| + 1 else 0)
        decreases SOLANA_MAX_RETRIES - n
      {
        match oracle.fetch(asked)(n) {
        case Again =>
        case GivenUp =>
          done := true;
        case Obtained =>
          ProcessBlock(b);
          done, obtained := true, true;
        }
        n := n + 1;
      }
    }

    /** One block of the Solana watcher: the cursor is written after the attempts, whatever came of
        them. */
    method VisitSavingAfter(b: int, updateWatcherBlock: bool)
      requires ReadyFor(b) && oracle.kind.Solana?
      modifies this
      ensures Finished(b) && past == old(past) && start == old(start)
      ensures Saw(old(session), old(clock), [b], updateWatcherBlock)
      ensures Position().next == if Decisive(oracle.fetch(old(clock)), SOLANA_MAX_RETRIES, 0).Obtained? then |oracle.chain(b)| else -1
      ensures !updateWatcherBlock ==> watcherBlock == old(watcherBlock)
    {
      hide Cursor, UpdatesOf, Redemption.Run, Oracle.BlockAt, Oracle.VisitAt, Decisive, Legal;
      var time := clock;
      ghost var before := session;
      oracle.SolanaVisitUnfolds(before, b, updateWatcherBlock, time);
      Reach(b);
      ghost var obtained := AttemptAfter(b, time);
      if updateWatcherBlock {
        var _ := UpdateWatcherBlock(b);
      }
      oracle.FollowsOne(before, time, b, updateWatcherBlock);
      assert session == before + oracle.VisitAt(b, updateWatcherBlock, time);
    }
  }

  /** A run stands before its first visit, or right after visiting currentBlock. */
  ghost predicate Standing(env: Environment, first: int, currentBlock: int)
    reads env
  {
    && env.Valid() && env.start == first
    && if env.Position().Outside? then currentBlock == first else env.Finished(currentBlock)
  }

  lemma StandingIsReady(env: Environment, first: int, currentBlock: int)
    requires Standing(env, first, currentBlock)
    ensures env.ReadyFor(currentBlock)
  {
  }

  lemma FinishedIsStanding(env: Environment, b: int)
    requires env.Finished(b)
    ensures Standing(env, env.start, b) && env.ReadyFor(b + 1) && env.Valid()
  {
  }

  lemma RangeEnds(lo: int, hi: int)
    requires lo <= hi
    ensures Range(lo, hi) == Range(lo, hi - 1) + [hi]
    ensures Range(lo, lo - 1) == []
  {
  }

  lemma SawNothing(env: Environment, save: bool)
    ensures env.Saw(env.session, env.clock, [], save)
  {
    env.oracle.FollowsNothing(env.session, env.clock, save);
  }

  lemma SawMore(env: Environment, before: seq<Event>, begun: nat, xs: seq<int>, save: bool, between: seq<Event>, mid: nat, ys: seq<int>)
    requires env.oracle.Follows(before, begun, xs, save, between, mid) && env.Saw(between, mid, ys, save)
    ensures env.Saw(before, begun, xs + ys, save)
  {
    env.oracle.FollowsJoins(before, begun, xs, save, between, mid, ys, env.session, env.clock);
  }

  lemma SawVisits(env: Environment, begun: nat, bs: seq<int>, save: bool)
    requires env.Saw([], begun, bs, save)
    ensures VisitsIn(env.session) == bs && env.session == env.oracle.VisitsAt(bs, save, begun)
  {
    env.oracle.FollowsVisits(bs, save, begun, env.session, env.clock);
  }

  /** Pages whose nominal ends fit 64 bits. */
  predicate Fits(last: uint64, p: uint64) {
    p > 0 && last + p < UINT64_BOUND
  }

  /** Such pages cover the range. */
  lemma RangeIsPaged(current: uint64, last: uint64, p: uint64)
    requires Fits(last, p) && current <= last
    ensures var n := (last - current) / p;
            && GetTotalBlocks(last, current, p) == n + 1 <= last + 1
            && Pages(current, last, p, n + 1) == Range(current, last)
  {
    PageIndexBound(last - current, p, 0);
    PagesCover(current, last, p);
    TotalIs(current, last, p);
    QuotientBound(last - current, p);
  }

  lemma PageAtOffset(current: uint64, last: uint64, p: uint64, i: uint64, x: nat)
    requires Fits(last, p) && x == i * p && current + x <= last
    ensures GetPage(current, i, p, last) == (current + x, if current + x + p - 1 > last then last else current + x + p - 1)
  {
    hide PageAt;
    WrapSmall(x);
    WrapSmall(current + x);
    PageAtIs(current + x, p, last);
  }

  lemma PageNumbers(d: nat, p: nat, i: nat)
    requires p > 0 && i <= d / p
    ensures i * p <= d && (i + 1) * p == i * p + p
    ensures i < d / p ==> i * p + p <= d
    ensures i == d / p ==> d < i * p + p
    ensures d / p <= d
  {
    QuotientBound(d, p);
    PageIndexBound(d, p, i);
    NextPageStart(p, i);
  }

  /** Each page is nonempty and begins where the one before ended. */
  lemma PagesConnect(current: uint64, last: uint64, p: uint64, i: uint64)
    requires Fits(last, p) && current <= last && i <= (last - current) / p
    ensures var (lo, hi) := GetPage(current, i, p, last);
            && current <= lo <= hi <= last
            && (i == 0 ==> lo == current)
            && (i == (last - current) / p ==> hi == last)
            && (i < (last - current) / p ==> i + 1 < UINT64_BOUND && GetPage(current, i + 1, p, last).0 == hi + 1)
  {
    hide GetPage;
    PageNumbers(last - current, p, i);
    PageAtOffset(current, last, p, i, i * p);
    if i < (last - current) / p {
      PageAtOffset(current, last, p, i + 1, i * p + p);
    }
  }

  lemma PagesGrow(current: uint64, last: uint64, p: uint64, i: uint64)
    requires i < UINT64_BOUND - 1
    ensures Pages(current, last, p, 0) == []
    ensures var (lo, hi) := GetPage(current, i, p, last);
            Pages(current, last, p, i + 1) == Pages(current, last, p, i) + Range(lo, hi)
  {
  }

  class EvmStandardWatcher {
    const env: Environment
    const maxBlocks: uint64
    const initialBlock: Height

    constructor (env: Environment, maxBlocks: uint64, initialBlock: Height)
      requires 0 < maxBlocks < 256
      ensures this.env == env && this.maxBlocks == maxBlocks && this.initialBlock == initialBlock
    {
      this.env, this.maxBlocks, this.initialBlock := env, maxBlocks, initialBlock;
    }

    method ProcessBlock(fromBlock: uint64, toBlock: uint64, updateWatcherBlock: bool)
      requires fromBlock <= toBlock < UINT64_BOUND - 1 && env.ReadyFor(fromBlock) && env.oracle.kind.Evm?
      modifies env
      ensures env.Finished(toBlock) && env.past == old(env.past) && env.start == old(env.start)
      ensures env.Saw(old(env.session), old(env.clock), Range(fromBlock, toBlock), updateWatcherBlock)
      ensures !updateWatcherBlock ==> env.watcherBlock == old(env.watcherBlock)
    {
      hide Environment.Valid, Environment.Finished, Environment.ReadyFor, Oracle.Follows, Range;
      RangeEnds(fromBlock, toBlock);
      SawNothing(env, updateWatcherBlock);
      var block := fromBlock;
      while block <= toBlock
        invariant fromBlock <= block <= toBlock + 1 && env.past == old(env.past) && env.start == old(env.start)
        invariant if block <= toBlock then env.ReadyFor(block) else env.Finished(toBlock)
        invariant env.Saw(old(env.session), old(env.clock), Range(fromBlock, block - 1), updateWatcherBlock)
        invariant !updateWatcherBlock ==> env.watcherBlock == old(env.watcherBlock)
        decreases toBlock + 1 - block
      {
        ghost var s, c := env.session, env.clock;
        env.VisitSavingInside(block, updateWatcherBlock);
        SawMore(env, old(env.session), old(env.clock), Range(fromBlock, block - 1), updateWatcherBlock, s, c, [block]);
        FinishedIsStanding(env, block);
        RangeEnds(fromBlock, block);
        block := Wrap(block + 1);
      }
    }

    /** The page loop of one round. */
    method ProcessPages(currentBlock: uint64, lastBlock: uint64, pageSize: uint64, updateWatcherBlock: bool)
      requires currentBlock <= lastBlock && Fits(lastBlock, pageSize) && env.ReadyFor(currentBlock) && env.oracle.kind.Evm?
      modifies env
      ensures env.Finished(lastBlock) && env.past == old(env.past) && env.start == old(env.start)
      ensures env.Saw(old(env.session), old(env.clock), Range(currentBlock, lastBlock), updateWatcherBlock)
      ensures !updateWatcherBlock ==> env.watcherBlock == old(env.watcherBlock)
    {
      hide Environment.Valid, Environment.Finished, Environment.ReadyFor, Oracle.Follows, Range, GetPage, GetTotalBlocks, Pages;
      RangeIsPaged(currentBlock, lastBlock, pageSize);
      PagesGrow(currentBlock, lastBlock, pageSize, 0);
      PagesConnect(currentBlock, lastBlock, pageSize, 0);
      SawNothing(env, updateWatcherBlock);
      var totalBlocks := GetTotalBlocks(lastBlock, currentBlock, pageSize);
      var i := 0;
      while i < totalBlocks
        invariant 0 <= i <= totalBlocks && env.past == old(env.past) && env.start == old(env.start)
        invariant !updateWatcherBlock ==> env.watcherBlock == old(env.watcherBlock)
        invariant env.Saw(old(env.session), old(env.clock), Pages(currentBlock, lastBlock, pageSize, i), updateWatcherBlock)
        invariant if i < totalBlocks then env.ReadyFor(GetPage(currentBlock, i, pageSize, lastBlock).0) else env.Finished(lastBlock)
      {
        PagesConnect(currentBlock, lastBlock, pageSize, i);
        PagesGrow(currentBlock, lastBlock, pageSize, i);
        var (fromBlock, toBlock) := GetPage(currentBlock, i, pageSize, lastBlock);
        ghost var s, c := env.session, env.clock;
        ProcessBlock(fromBlock, toBlock, updateWatcherBlock);
        SawMore(env, old(env.session), old(env.clock), Pages(currentBlock, lastBlock, pageSize, i), updateWatcherBlock, s, c, Range(fromBlock, toBlock));
        FinishedIsStanding(env, toBlock);
        i := i + 1;
      }
    }

    /** Backfill visits every block of the range once, in order, and leaves the cursor alone unless
        asked to persist it. */
    method Backfill(fromBlock: uint64, toBlock: uint64, pageSize: uint64, persistBlock: bool)
      requires env.Valid() && fromBlock <= toBlock && Fits(toBlock, pageSize) && env.oracle.kind.Evm?
      requires persistBlock ==> toBlock < MAX_BLOCK
      modifies env
      ensures env.Finished(toBlock) && env.past == old(env.past + env.session)
      ensures VisitsIn(env.session) == Range(fromBlock, toBlock)
      ensures env.session == env.oracle.VisitsAt(Range(fromBlock, toBlock), persistBlock, old(env.clock))
      ensures !persistBlock ==> env.watcherBlock == old(env.watcherBlock)
    {
      env.Begin(fromBlock);
      RunBegins(env, []);
      StandingIsReady(env, fromBlock, fromBlock);
      ProcessPages(fromBlock, toBlock, pageSize, persistBlock);
      env.oracle.FollowsVisits(Range(fromBlock, toBlock), persistBlock, old(env.clock), env.session, env.clock);
    }

    /** One iteration of the polling loop. */
    method Poll(currentBlock: Height, lastBlock: Height, ghost first: int) returns (next: Height)
      requires Standing(env, first, currentBlock) && 0 < maxBlocks < 256 && env.oracle.kind.Evm?
      modifies env
      ensures Standing(env, first, next) && env.past == old(env.past)
      ensures next == if lastBlock > currentBlock then lastBlock else currentBlock
      ensures env.Saw(old(env.session), old(env.clock), if currentBlock < lastBlock then Range(currentBlock, lastBlock) else [], true)
    {
      hide Environment.Finished, Environment.ReadyFor, Environment.Valid, Oracle.Follows, Range;
      next := currentBlock;
      SawNothing(env, true);
      if currentBlock < lastBlock {
        StandingIsReady(env, first, currentBlock);
        ProcessPages(currentBlock, lastBlock, maxBlocks, true);
        FinishedIsStanding(env, lastBlock);
      }
      if lastBlock > currentBlock {
        next := lastBlock;
      }
    }

    /** The polling loop until it is closed, one iteration per reported head. */
    method Start(heads: seq<Height>, readOk: bool) returns (ok: bool)
      requires env.Valid() && 0 < maxBlocks < 256 && env.oracle.kind.Evm?
      requires 0 <= StartBlock(initialBlock, env.watcherBlock) < MAX_BLOCK
      modifies env
      ensures ok == readOk && env.Valid()
      ensures !ok ==> env.session == old(env.session) && env.watcherBlock == old(env.watcherBlock)
      ensures ok ==> env.past == old(env.past + env.session) && StartsWhereLeft(env, initialBlock)
      ensures ok ==> VisitsIn(env.session) == Rounds.Visits(env.start, heads)
      ensures ok ==> env.session == env.oracle.VisitsAt(Rounds.Visits(env.start, heads), true, old(env.clock))
    {
      hide Standing, Environment.Valid, Oracle.Follows, Range, Rounds.Visits, Rounds.Current, Cursor;
      var r := env.GetCurrentBlock(initialBlock, readOk);
      if r.Err? {
        return false;
      }
      var currentBlock: Height := r.value;
      ghost var first := currentBlock;
      env.Begin(first);
      BeginsWhereLeft(env, initialBlock);
      RunBegins(env, heads);
      SawNothing(env, true);
      var n := 0;
      while n < |heads|
        invariant 0 <= n <= |heads| && env.past == old(env.past + env.session)
        invariant Standing(env, first, currentBlock) && currentBlock == Rounds.Current(first, heads[..n])
        invariant env.Saw([], old(env.clock), Rounds.Visits(first, heads[..n]), true)
      {
        RoundExtends(first, heads, n);
        ghost var s, c, round := env.session, env.clock, if currentBlock < heads[n] then Range(currentBlock, heads[n]) else [];
        currentBlock := Poll(currentBlock, heads[n], first);
        SawMore(env, [], old(env.clock), Rounds.Visits(first, heads[..n]), true, s, c, round);
        n := n + 1;
      }
      assert heads[..n] == heads;
      StandingIsValid(env, first, currentBlock);
      SawVisits(env, old(env.clock), Rounds.Visits(first, heads), true);
      ok := true;
    }
  }

  /** The Aptos and Solana watchers. Their polling loops are the same text with the paging written
      out and a signed page counter; they differ in the treatment of one block. */
  class InlinedPagingWatcher {
    const env: Environment
    const sizeBlocks: uint64
    const initialBlock: Height

    constructor (env: Environment, sizeBlocks: uint64, initialBlock: Height)
      requires 0 < sizeBlocks < 256
      ensures this.env == env && this.sizeBlocks == sizeBlocks && this.initialBlock == initialBlock
    {
      this.env, this.sizeBlocks, this.initialBlock := env, sizeBlocks, initialBlock;
    }

    predicate IsInlined() {
      env.oracle.kind.Aptos? || env.oracle.kind.Solana?
    }

    method ProcessBlock(fromBlock: uint64, toBlock: uint64, updateWatcherBlock: bool)
      requires fromBlock <= toBlock < UINT64_BOUND - 1 && env.ReadyFor(fromBlock) && IsInlined()
      modifies env
      ensures env.Finished(toBlock) && env.past == old(env.past) && env.start == old(env.start)
      ensures env.Saw(old(env.session), old(env.clock), Range(fromBlock, toBlock), updateWatcherBlock)
      ensures !updateWatcherBlock ==> env.watcherBlock == old(env.watcherBlock)
    {
      hide Environment.Valid, Environment.Finished, Environment.ReadyFor, Oracle.Follows, Range;
      RangeEnds(fromBlock, toBlock);
      SawNothing(env, updateWatcherBlock);
      var block := fromBlock;
      while block <= toBlock
        invariant fromBlock <= block <= toBlock + 1 && env.past == old(env.past) && env.start == old(env.start)
        invariant if block <= toBlock then env.ReadyFor(block) else env.Finished(toBlock)
        invariant env.Saw(old(env.session), old(env.clock), Range(fromBlock, block - 1), updateWatcherBlock)
        invariant !updateWatcherBlock ==> env.watcherBlock == old(env.watcherBlock)
        decreases toBlock + 1 - block
      {
        ghost var s, c := env.session, env.clock;
        if env.oracle.kind.Aptos? {
          env.VisitSavingInside(block, updateWatcherBlock);
        } else {
          env.VisitSavingAfter(block, updateWatcherBlock);
        }
        SawMore(env, old(env.session), old(env.clock), Range(fromBlock, block - 1), updateWatcherBlock, s, c, [block]);
        FinishedIsStanding(env, block);
        RangeEnds(fromBlock, block);
        block := Wrap(block + 1);
      }
    }

    /** The page arithmetic written out in these loops is the shared one. */
    method PageBounds(currentBlock: uint64, i: uint64, lastBlock: uint64) returns (fromBlock: uint64, toBlock: uint64)
      ensures (fromBlock, toBlock) == GetPage(currentBlock, i, sizeBlocks, lastBlock)
    {
      hide Wrap;
      fromBlock := Wrap(currentBlock + Wrap(i * sizeBlocks));
      toBlock := Wrap(Wrap(fromBlock + sizeBlocks) - 1);
      if toBlock > lastBlock {
        toBlock := lastBlock;
      }
    }

    /** The number of pages, converted to a signed integer. */
    method CountPages(currentBlock: Height, lastBlock: Height) returns (pages: int)
      requires currentBlock <= lastBlock && 0 < sizeBlocks < 256
      ensures pages == GetTotalBlocks(lastBlock, currentBlock, sizeBlocks) && pages < UINT64_BOUND
    {
      var totalBlocks := Wrap(Wrap(lastBlock - currentBlock) / sizeBlocks + 1);
      pages := AsInt(totalBlocks);
      TotalIs(currentBlock, lastBlock, sizeBlocks);
      QuotientBound(lastBlock - currentBlock, sizeBlocks);
    }

    /** The page loop, counting pages with a signed integer. */
    method ProcessPages(currentBlock: Height, lastBlock: Height)
      requires currentBlock <= lastBlock && 0 < sizeBlocks < 256 && env.ReadyFor(currentBlock) && IsInlined()
      modifies env
      ensures env.Finished(lastBlock) && env.past == old(env.past) && env.start == old(env.start)
      ensures env.Saw(old(env.session), old(env.clock), Range(currentBlock, lastBlock), true)
    {
      hide Environment.Valid, Environment.Finished, Environment.ReadyFor, Oracle.Follows, Range, GetPage, GetTotalBlocks, Pages;
      RangeIsPaged(currentBlock, lastBlock, sizeBlocks);
      PagesGrow(currentBlock, lastBlock, sizeBlocks, 0);
      PagesConnect(currentBlock, lastBlock, sizeBlocks, 0);
      SawNothing(env, true);
      var pages := CountPages(currentBlock, lastBlock);
      var i := 0;
      while i < pages
        invariant 0 <= i <= pages && env.past == old(env.past) && env.start == old(env.start)
        invariant env.Saw(old(env.session), old(env.clock), Pages(currentBlock, lastBlock, sizeBlocks, i), true)
        invariant if i < pages then env.ReadyFor(GetPage(currentBlock, i, sizeBlocks, lastBlock).0) else env.Finished(lastBlock)
      {
        PagesConnect(currentBlock, lastBlock, sizeBlocks, i);
        PagesGrow(currentBlock, lastBlock, sizeBlocks, i);
        var fromBlock, toBlock := PageBounds(currentBlock, i, lastBlock);
        ghost var s, c := env.session, env.clock;
        ProcessBlock(fromBlock, toBlock, true);
        SawMore(env, old(env.session), old(env.clock), Pages(currentBlock, lastBlock, sizeBlocks, i), true, s, c, Range(fromBlock, toBlock));
        FinishedIsStanding(env, toBlock);
        i := i + 1;
      }
    }

    /** One iteration of the polling loop. */
    method Poll(currentBlock: Height, lastBlock: Height, ghost first: int) returns (next: Height)
      requires Standing(env, first, currentBlock) && 0 < sizeBlocks < 256 && IsInlined()
      modifies env
      ensures Standing(env, first, next) && env.past == old(env.past)
      ensures next == if lastBlock > currentBlock then lastBlock else currentBlock
      ensures env.Saw(old(env.session), old(env.clock), if currentBlock < lastBlock then Range(currentBlock, lastBlock) else [], true)
    {
      hide Environment.Finished, Environment.ReadyFor, Environment.Valid, Oracle.Follows, Range;
      next := currentBlock;
      SawNothing(env, true);
      if currentBlock < lastBlock {
        StandingIsReady(env, first, currentBlock);
        ProcessPages(currentBlock, lastBlock);
        FinishedIsStanding(env, lastBlock);
      }
      if lastBlock > currentBlock {
        next := lastBlock;
      }
    }

    /** The polling loop until it is closed, one iteration per reported head. */
    method Start(heads: seq<Height>, readOk: bool) returns (ok: bool)
      requires env.Valid() && 0 < sizeBlocks < 256 && IsInlined()
      requires 0 <= StartBlock(initialBlock, env.watcherBlock) < MAX_BLOCK
      modifies env
      ensures ok == readOk && env.Valid()
      ensures !ok ==> env.session == old(env.session) && env.watcherBlock == old(env.watcherBlock)
      ensures ok ==> env.past == old(env.past + env.session) && StartsWhereLeft(env, initialBlock)
      ensures ok ==> VisitsIn(env.session) == Rounds.Visits(env.start, heads)
      ensures ok ==> env.session == env.oracle.VisitsAt(Rounds.Visits(env.start, heads), true, old(env.clock))
    {
      hide Standing, Environment.Valid, Oracle.Follows, Range, Rounds.Visits, Rounds.Current, Cursor;
      var r := env.GetCurrentBlock(initialBlock, readOk);
      if r.Err? {
        return false;
      }
      var currentBlock: Height := r.value;
      ghost var first := currentBlock;
      env.Begin(first);
      BeginsWhereLeft(env, initialBlock);
      RunBegins(env, heads);
      SawNothing(env, true);
      var n := 0;
      while n < |heads|
        invariant 0 <= n <= |heads| && env.past == old(env.past + env.session)
        invariant Standing(env, first, currentBlock) && currentBlock == Rounds.Current(first, heads[..n])
        invariant env.Saw([], old(env.clock), Rounds.Visits(first, heads[..n]), true)
      {
        RoundExtends(first, heads, n);
        ghost var s, c, round := env.session, env.clock, if currentBlock < heads[n] then Range(currentBlock, heads[n]) else [];
        currentBlock := Poll(currentBlock, heads[n], first);
        SawMore(env, [], old(env.clock), Rounds.Visits(first, heads[..n]), true, s, c, round);
        n := n + 1;
      }
      assert heads[..n] == heads;
      StandingIsValid(env, first, currentBlock);
      SawVisits(env, old(env.clock), Rounds.Visits(first, heads), true);
      ok := true;
    }

    /** The page loop of Backfill. */
    method ProcessPagesOf(fromBlock: uint64, toBlock: uint64, pageSize: uint64, persistBlock: bool)
      requires env.ReadyFor(fromBlock) && fromBlock <= toBlock && Fits(toBlock, pageSize) && IsInlined()
      modifies env
      ensures env.Finished(toBlock) && env.past == old(env.past) && env.start == old(env.start)
      ensures env.Saw(old(env.session), old(env.clock), Range(fromBlock, toBlock), persistBlock)
      ensures !persistBlock ==> env.watcherBlock == old(env.watcherBlock)
    {
      hide Environment.Valid, Environment.Finished, Environment.ReadyFor, Oracle.Follows, Range, GetPage, GetTotalBlocks, Pages;
      RangeIsPaged(fromBlock, toBlock, pageSize);
      PagesGrow(fromBlock, toBlock, pageSize, 0);
      PagesConnect(fromBlock, toBlock, pageSize, 0);
      SawNothing(env, persistBlock);
      var totalBlocks := GetTotalBlocks(toBlock, fromBlock, pageSize);
      var i := 0;
      while i < totalBlocks
        invariant 0 <= i <= totalBlocks && env.past == old(env.past) && env.start == old(env.start)
        invariant !persistBlock ==> env.watcherBlock == old(env.watcherBlock)
        invariant env.Saw(old(env.session), old(env.clock), Pages(fromBlock, toBlock, pageSize, i), persistBlock)
        invariant if i < totalBlocks then env.ReadyFor(GetPage(fromBlock, i, pageSize, toBlock).0) else env.Finished(toBlock)
      {
        PagesConnect(fromBlock, toBlock, pageSize, i);
        PagesGrow(fromBlock, toBlock, pageSize, i);
        var (first, last) := GetPage(fromBlock, i, pageSize, toBlock);
        ghost var s, c := env.session, env.clock;
        ProcessBlock(first, last, persistBlock);
        SawMore(env, old(env.session), old(env.clock), Pages(fromBlock, toBlock, pageSize, i), persistBlock, s, c, Range(first, last));
        FinishedIsStanding(env, last);
        i := i + 1;
      }
    }

    /** Backfill pages with the shared functions. */
    method Backfill(fromBlock: uint64, toBlock: uint64, pageSize: uint64, persistBlock: bool)
      requires env.Valid() && fromBlock <= toBlock && Fits(toBlock, pageSize) && IsInlined()
      requires persistBlock ==> toBlock < MAX_BLOCK
      modifies env
      ensures env.Finished(toBlock) && env.past == old(env.past + env.session)
      ensures VisitsIn(env.session) == Range(fromBlock, toBlock)
      ensures env.session == env.oracle.VisitsAt(Range(fromBlock, toBlock), persistBlock, old(env.clock))
      ensures !persistBlock ==> env.watcherBlock == old(env.watcherBlock)
    {
      env.Begin(fromBlock);
      RunBegins(env, []);
      StandingIsReady(env, fromBlock, fromBlock);
      ProcessPagesOf(fromBlock, toBlock, pageSize, persistBlock);
      env.oracle.FollowsVisits(Range(fromBlock, toBlock), persistBlock, old(env.clock), env.session, env.clock);
    }
  }

  /** Conversion of an unsigned to a signed 64-bit integer. */
  function AsInt(n: uint64): int {
    if n < INT64_BOUND then n else n - UINT64_BOUND
  }

  /** The transactions of consecutive pages. */
  function Joined(pages: seq<seq<TransactionUpdate>>): seq<TransactionUpdate> {
    if pages == [] then [] else Joined(pages[..|pages| - 1]) + pages[|pages| - 1]
  }

  lemma JoinedNothing(pages: seq<seq<TransactionUpdate>>)
    ensures Joined(pages[..0]) == []
  {
  }

  lemma {:induction false} JoinedPrefix(pages: seq<seq<TransactionUpdate>>, n: nat)
    requires n < |pages|
    ensures |Joined(pages[..n])| + |pages[n]| == |Joined(pages[..n + 1])| <= |Joined(pages)|
    decreases |pages|
  {
    assert pages[..n + 1][..n] == pages[..n];
    var front := pages[..|pages| - 1];
    if n + 1 == |pages| {
      assert pages[..n + 1] == pages;
    } else {
      JoinedPrefix(front, n);
      assert front[..n] == pages[..n] && front[..n + 1] == pages[..n + 1];
    }
  }

  /** The Terra watcher: polling without pages of blocks, but the node answers for one block in
      pages of transactions. */
  class TerraWatcher {
    const env: Environment
    const initialBlock: Height
    const pages: int -> seq<seq<TransactionUpdate>>
    const failures: nat -> nat   // how many requests fail before the one made at a time succeeds

    constructor (env: Environment, initialBlock: Height, pages: int -> seq<seq<TransactionUpdate>>, failures: nat -> nat)
      ensures this.env == env && this.initialBlock == initialBlock && this.pages == pages && this.failures == failures
    {
      this.env, this.initialBlock, this.pages, this.failures := env, initialBlock, pages, failures;
    }

    /** The node's pages hold the block's transactions. */
    ghost predicate Paged(b: int) {
      pages(b) != [] && Joined(pages(b)) == env.oracle.chain(b)
    }

    /** The events of a block's pages so far, holding so many updates, begun at a time. */
    function PagesAt(b: int, begun: bool, done: nat, time: nat): seq<Event> {
      if begun then [Open(b)] + env.oracle.TurnsAt(b, 0, done, time + 1) else []
    }

    /** So many updates of the block were processed after some events, begun at a time. */
    ghost predicate Fetched(b: int, begun: bool, done: nat, before: seq<Event>, time: nat)
      reads env
    {
      && env.Valid() && env.Position().At? && env.Position().block == b
      && env.Position().next == (if begun then done else -1)
      && env.clock == time + (if begun then done + 1 else 0)
      && env.session == before + PagesAt(b, begun, done, time)
    }

    lemma PagesAppend(b: int, done: nat, size: nat, before: seq<Event>, time: nat)
      ensures before + PagesAt(b, true, done, time) + env.oracle.TurnsAt(b, done, done + size, time + 1 + done) ==
              before + PagesAt(b, true, done + size, time)
      ensures before + PagesAt(b, false, 0, time) + [Open(b)] == before + PagesAt(b, true, 0, time)
    {
      var first, next := env.oracle.TurnsAt(b, 0, done, time + 1), env.oracle.TurnsAt(b, done, done + size, time + 1 + done);
      env.oracle.TurnsJoin(b, done, done + size, time + 1);
      assert before + ([Open(b)] + first) + next == before + ([Open(b)] + (first + next));
    }

    method BeginBlock(b: int)
      requires env.ReadyFor(b)
      modifies env
      ensures Fetched(b, false, 0, old(env.session) + [Visit(b)], old(env.clock) + 1)
      ensures env.past == old(env.past) && env.start == old(env.start) && env.watcherBlock == old(env.watcherBlock)
    {
      hide Cursor, UpdatesOf, Redemption.Run;
      env.Reach(b);
      assert env.session + PagesAt(b, false, 0, env.clock) == env.session;
    }

    method OpenFirstPage(b: int, ghost before: seq<Event>, ghost time: nat)
      requires Fetched(b, false, 0, before, time)
      modifies env
      ensures Fetched(b, true, 0, before, time) && env.past == old(env.past) && env.start == old(env.start)
      ensures env.watcherBlock == old(env.watcherBlock)
    {
      hide Cursor, UpdatesOf, Redemption.Run, PagesAt;
      PagesAppend(b, 0, 0, before, time);
      env.OpenBlock(b);
    }

    method ProcessPage(b: int, done: nat, size: nat, ghost before: seq<Event>, ghost time: nat)
      requires Fetched(b, true, done, before, time) && done + size <= |env.oracle.chain(b)|
      modifies env
      ensures Fetched(b, true, done + size, before, time) && env.past == old(env.past) && env.start == old(env.start)
      ensures env.watcherBlock == old(env.watcherBlock)
    {
      hide Cursor, UpdatesOf, Redemption.Run, PagesAt, Oracle.TurnsAt, Legal;
      PagesAppend(b, done, size, before, time);
      env.ProcessTransactions(b, done, done + size);
    }

    /** Requests are repeated at the same offset until one succeeds, so every update of the block is
        attempted once, in order, over all pages. */
    method ProcessBlock(b: int)
      requires env.ReadyFor(b) && Paged(b)
      modifies env
      ensures env.Finished(b) && env.past == old(env.past) && env.start == old(env.start)
      ensures env.Position().next == |env.oracle.chain(b)| && env.watcherBlock == old(env.watcherBlock)
      ensures env.session == old(env.session) + [Visit(b)] + env.oracle.BlockAt(b, old(env.clock) + 1)
      ensures env.clock == old(env.clock) + |env.oracle.chain(b)| + 2
    {
      hide Environment.Valid, Environment.ReadyFor, Environment.Finished, Oracle.BlockAt, Fetched, Joined;
      ghost var before, time := env.session + [Visit(b)], env.clock + 1;
      BeginBlock(b);
      JoinedNothing(pages(b));
      var offset, hasPage, failing := 0, true, failures(env.clock);
      var done: nat := 0;
      while hasPage
        invariant offset <= |pages(b)| && hasPage == (offset < |pages(b)|)
        invariant Fetched(b, offset > 0, done, before, time) && env.past == old(env.past) && env.start == old(env.start)
        invariant env.watcherBlock == old(env.watcherBlock)
        invariant done == |Joined(pages(b)[..offset])| && (offset == 0 ==> done == 0)
        decreases |pages(b)| - offset, failing
      {
        if failing > 0 {
          failing := failing - 1;
          continue;
        }
        if offset == 0 {
          OpenFirstPage(b, before, time);
        }
        JoinedPrefix(pages(b), offset);
        var size := |pages(b)[offset]|;
        ProcessPage(b, done, size, before, time);
        offset, done := offset + 1, done + size;
        hasPage, failing := offset < |pages(b)|, failures(env.clock);
      }
      assert pages(b)[..offset] == pages(b);
      AllFetched(b, before, time);
    }

    lemma AllFetched(b: int, before: seq<Event>, time: nat)
      requires Fetched(b, true, |env.oracle.chain(b)|, before, time)
      ensures env.Finished(b) && env.Valid() && env.Position().next == |env.oracle.chain(b)|
      ensures env.session == before + env.oracle.BlockAt(b, time) && env.clock == time + |env.oracle.chain(b)| + 1
    {
    }

    /** One block and then the cursor; a lost cursor write is ignored. */
    method VisitBlock(b: int, updateWatcherBlock: bool)
      requires env.ReadyFor(b) && Paged(b) && env.oracle.kind.Terra?
      modifies env
      ensures env.Finished(b) && env.past == old(env.past) && env.start == old(env.start)
      ensures env.Saw(old(env.session), old(env.clock), [b], updateWatcherBlock)
      ensures !updateWatcherBlock ==> env.watcherBlock == old(env.watcherBlock)
    {
      hide Cursor, UpdatesOf, Redemption.Run, Oracle.BlockAt, Legal, Oracle.VisitsAt;
      ghost var before, time := env.session, env.clock;
      ProcessBlock(b);
      if updateWatcherBlock {
        var _ := env.UpdateWatcherBlock(b);
      }
      env.oracle.FollowsOne(before, time, b, updateWatcherBlock);
      ghost var deal := env.oracle.BlockAt(b, time + 1) + env.oracle.SaveAt(b, updateWatcherBlock, time + 2 + |env.oracle.chain(b)|);
      assert env.session == before + ([Visit(b)] + deal);
    }

    /** The block loop. */
    method ProcessBlocks(fromBlock: int, toBlock: int, updateWatcherBlock: bool)
      requires fromBlock <= toBlock && env.ReadyFor(fromBlock) && env.oracle.kind.Terra? && forall b :: Paged(b)
      modifies env
      ensures env.Finished(toBlock) && env.past == old(env.past) && env.start == old(env.start)
      ensures env.Saw(old(env.session), old(env.clock), Range(fromBlock, toBlock), updateWatcherBlock)
      ensures !updateWatcherBlock ==> env.watcherBlock == old(env.watcherBlock)
    {
      hide Environment.Valid, Environment.ReadyFor, Oracle.Follows, Range, Paged;
      RangeEnds(fromBlock, toBlock);
      SawNothing(env, updateWatcherBlock);
      var block: int := fromBlock;
      while block <= toBlock
        invariant fromBlock <= block <= toBlock + 1 && env.past == old(env.past) && env.start == old(env.start)
        invariant if block <= toBlock then env.ReadyFor(block) else env.Finished(toBlock)
        invariant env.Saw(old(env.session), old(env.clock), Range(fromBlock, block - 1), updateWatcherBlock)
        invariant !updateWatcherBlock ==> env.watcherBlock == old(env.watcherBlock)
        decreases toBlock + 1 - block
      {
        assert Paged(block);
        ghost var s, c := env.session, env.clock;
        VisitBlock(block, updateWatcherBlock);
        SawMore(env, old(env.session), old(env.clock), Range(fromBlock, block - 1), updateWatcherBlock, s, c, [block]);
        FinishedIsStanding(env, block);
        RangeEnds(fromBlock, block);
        block := block + 1;
      }
    }

    /** The page loop of Backfill. */
    method ProcessPagesOf(fromBlock: uint64, toBlock: uint64, pageSize: uint64, persistBlock: bool)
      requires env.ReadyFor(fromBlock) && fromBlock <= toBlock && Fits(toBlock, pageSize) && env.oracle.kind.Terra? && forall b :: Paged(b)
      modifies env
      ensures env.Finished(toBlock) && env.past == old(env.past) && env.start == old(env.start)
      ensures env.Saw(old(env.session), old(env.clock), Range(fromBlock, toBlock), persistBlock)
      ensures !persistBlock ==> env.watcherBlock == old(env.watcherBlock)
    {
      hide Environment.Valid, Environment.Finished, Environment.ReadyFor, Oracle.Follows, Range, GetPage, GetTotalBlocks, Pages, Paged;
      RangeIsPaged(fromBlock, toBlock, pageSize);
      PagesGrow(fromBlock, toBlock, pageSize, 0);
      PagesConnect(fromBlock, toBlock, pageSize, 0);
      SawNothing(env, persistBlock);
      var totalBlocks := GetTotalBlocks(toBlock, fromBlock, pageSize);
      var i := 0;
      while i < totalBlocks
        invariant 0 <= i <= totalBlocks && env.past == old(env.past) && env.start == old(env.start)
        invariant !persistBlock ==> env.watcherBlock == old(env.watcherBlock)
        invariant env.Saw(old(env.session), old(env.clock), Pages(fromBlock, toBlock, pageSize, i), persistBlock)
        invariant if i < totalBlocks then env.ReadyFor(GetPage(fromBlock, i, pageSize, toBlock).0) else env.Finished(toBlock)
      {
        PagesConnect(fromBlock, toBlock, pageSize, i);
        PagesGrow(fromBlock, toBlock, pageSize, i);
        var (first, last) := GetPage(fromBlock, i, pageSize, toBlock);
        ghost var s, c := env.session, env.clock;
        ProcessBlocks(first, last, persistBlock);
        SawMore(env, old(env.session), old(env.clock), Pages(fromBlock, toBlock, pageSize, i), persistBlock, s, c, Range(first, last));
        FinishedIsStanding(env, last);
        i := i + 1;
      }
    }

    /** Backfill pages the range although polling does not. */
    method Backfill(fromBlock: uint64, toBlock: uint64, pageSize: uint64, persistBlock: bool)
      requires env.Valid() && fromBlock <= toBlock < MAX_BLOCK && Fits(toBlock, pageSize) && env.oracle.kind.Terra? && forall b :: Paged(b)
      modifies env
      ensures env.Finished(toBlock) && env.past == old(env.past + env.session)
      ensures VisitsIn(env.session) == Range(fromBlock, toBlock)
      ensures env.session == env.oracle.VisitsAt(Range(fromBlock, toBlock), persistBlock, old(env.clock))
      ensures !persistBlock ==> env.watcherBlock == old(env.watcherBlock)
    {
      env.Begin(fromBlock);
      RunBegins(env, []);
      StandingIsReady(env, fromBlock, fromBlock);
      ProcessPagesOf(fromBlock, toBlock, pageSize, persistBlock);
      env.oracle.FollowsVisits(Range(fromBlock, toBlock), persistBlock, old(env.clock), env.session, env.clock);
    }

    /** One iteration of the polling loop. */
    method Poll(currentBlock: Height, lastBlock: Height, ghost first: int) returns (next: Height)
      requires Standing(env, first, currentBlock) && env.oracle.kind.Terra? && forall b :: Paged(b)
      modifies env
      ensures Standing(env, first, next) && env.past == old(env.past)
      ensures next == if lastBlock > currentBlock then lastBlock else currentBlock
      ensures env.Saw(old(env.session), old(env.clock), if currentBlock < lastBlock then Range(currentBlock, lastBlock) else [], true)
    {
      hide Environment.Finished, Environment.ReadyFor, Environment.Valid, Oracle.Follows, Range;
      next := currentBlock;
      SawNothing(env, true);
      if currentBlock < lastBlock {
        StandingIsReady(env, first, currentBlock);
        ProcessBlocks(currentBlock, lastBlock, true);
        FinishedIsStanding(env, lastBlock);
      }
      if lastBlock > currentBlock {
        next := lastBlock;
      }
    }

    /** The polling loop until it is closed, one iteration per reported head. */
    method Start(heads: seq<Height>, readOk: bool) returns (ok: bool)
      requires env.Valid() && env.oracle.kind.Terra? && forall b :: Paged(b)
      requires 0 <= StartBlock(initialBlock, env.watcherBlock) < MAX_BLOCK
      modifies env
      ensures ok == readOk && env.Valid()
      ensures !ok ==> env.session == old(env.session) && env.watcherBlock == old(env.watcherBlock)
      ensures ok ==> env.past == old(env.past + env.session) && StartsWhereLeft(env, initialBlock)
      ensures ok ==> VisitsIn(env.session) == Rounds.Visits(env.start, heads)
      ensures ok ==> env.session == env.oracle.VisitsAt(Rounds.Visits(env.start, heads), true, old(env.clock))
    {
      hide Standing, Environment.Valid, Oracle.Follows, Range, Rounds.Visits, Rounds.Current, Cursor;
      var r := env.GetCurrentBlock(initialBlock, readOk);
      if r.Err? {
        return false;
      }
      var currentBlock: Height := r.value;
      ghost var first := currentBlock;
      env.Begin(first);
      BeginsWhereLeft(env, initialBlock);
      RunBegins(env, heads);
      SawNothing(env, true);
      var n := 0;
      while n < |heads|
        invariant 0 <= n <= |heads| && env.past == old(env.past + env.session)
        invariant Standing(env, first, currentBlock) && currentBlock == Rounds.Current(first, heads[..n])
        invariant env.Saw([], old(env.clock), Rounds.Visits(first, heads[..n]), true)
      {
        RoundExtends(first, heads, n);
        ghost var s, c, round := env.session, env.clock, if currentBlock < heads[n] then Range(currentBlock, heads[n]) else [];
        currentBlock := Poll(currentBlock, heads[n], first);
        SawMore(env, [], old(env.clock), Rounds.Visits(first, heads[..n]), true, s, c, round);
        n := n + 1;
      }
      assert heads[..n] == heads;
      StandingIsValid(env, first, currentBlock);
      SawVisits(env, old(env.clock), Rounds.Visits(first, heads), true);
      ok := true;
    }
  }

  /** The run in progress started at the cursor the earlier runs left, or at the configured block. */
  ghost predicate StartsWhereLeft(env: Environment, init: int)
    reads env
  {
    env.start == StartBlock(init, Cursor(None, env.past))
  }

  /** Every run of a polling loop, stopped after any of its events, joins the history that the
      theorems of BlockScan speak about. */
  lemma SessionJoinsHistory(env: Environment, init: int, runs: seq<seq<Event>>, n: nat)
    requires env.Valid() && StartsWhereLeft(env, init) && n <= |env.session|
    requires History(env.oracle.chain, init, runs) && Flat(runs) == env.past
    ensures History(env.oracle.chain, init, runs + [env.session[..n]])
    ensures Flat(runs + [env.session[..n]]) == env.past + env.session[..n]
  {
    StoppedRunExtendsHistory(env.oracle.chain, init, runs, env.session, n);
  }

  lemma BeginsWhereLeft(env: Environment, init: int)
    requires env.Valid() && env.session == [] && env.start == StartBlock(init, env.watcherBlock)
    ensures StartsWhereLeft(env, init)
  {
    assert env.past + [] == env.past;
  }

  lemma RunBegins(env: Environment, heads: seq<int>)
    requires env.Valid() && env.session == []
    ensures Standing(env, env.start, env.start)
    ensures Rounds.Visits(env.start, heads[..0]) == [] && Rounds.Current(env.start, heads[..0]) == env.start
  {
  }

  lemma StandingIsValid(env: Environment, first: int, currentBlock: int)
    requires Standing(env, first, currentBlock)
    ensures env.Valid() && env.start == first
  {
  }

  lemma RoundExtends(first: int, heads: seq<int>, n: nat)
    requires n < |heads|
    ensures var current := Rounds.Current(first, heads[..n]);
            && Rounds.Current(first, heads[..n + 1]) == (if heads[n] > current then heads[n] else current)
            && Rounds.Visits(first, heads[..n + 1]) ==
               Rounds.Visits(first, heads[..n]) + (if current < heads[n] then Range(current, heads[n]) else [])
  {
    assert heads[..n + 1][..n] == heads[..n];
  }
}

/** What the contract watchers do with one block, as methods on the chain and the store, and when that
    applies the block's redemptions. */
module Visits {
  import opened Writes
  import opened Redemption
  import opened BlockScan

  datatype WatcherKind = Evm | Aptos | Solana | Terra

  /** Answer to a request for a block: its transactions, an error after which the request is
      repeated, or an answer that ends the attempts without transactions. */
  datatype Answer = Obtained | Again | GivenUp

  /** What the requests for one redemption come to, after its block was obtained: everything about it, a
      failure that drops it, or all but its status. */
  datatype Resolution = Resolved | Dropped | StatusMissed

  const EVM_MAX_RETRIES := 10
  const SOLANA_MAX_RETRIES := 3

  /** The first decisive answer within the remaining attempts. */
  function Decisive(answers: nat -> Answer, attempts: nat, n: nat): Answer
    requires n <= attempts
    decreases attempts - n
  {
    if n == attempts then Again
    else if answers(n).Again? then Decisive(answers, attempts, n + 1)
    else answers(n)
  }

  /** A watcher's chain and what the node and the stores answer. Answers and write outcomes are arbitrary
      functions of the time, counted in events. */
  datatype Oracle = Oracle(
    kind: WatcherKind,
    chain: Chain,
    fetch: nat -> (nat -> Answer),
    requests: nat -> Resolution,
    lookup: nat -> bool,
    write: nat -> Write)
  {
    /** Only the EVM watcher goes on without a transaction's status, and the Terra watcher makes no
        requests for single transactions. */
    function ResolutionAt(time: nat): Resolution {
      match kind
      case Evm => requests(time)
      case Terra => Resolved
      case _ => if requests(time).Resolved? then Resolved else Dropped
    }

    function TurnAt(b: int, j: nat, time: nat): Event {
      var resolution := ResolutionAt(time);
      if resolution.Dropped? then Drop(b, j) else Update(b, j, resolution.Resolved?, lookup(time), write(time))
    }

    /** The turns of redemptions lo to hi - 1 of a block, begun at a time. */
    function TurnsAt(b: int, lo: nat, hi: nat, time: nat): (t: seq<Event>)
      requires lo <= hi
      ensures |t| == hi - lo
    {
      if lo == hi then [] else TurnsAt(b, lo, hi - 1, time) + [TurnAt(b, hi - 1, time + (hi - 1 - lo))]
    }

    /** An obtained block, begun at a time. */
    function BlockAt(b: int, time: nat): (t: seq<Event>)
      ensures |t| == |chain(b)| + 1
    {
      [Open(b)] + TurnsAt(b, 0, |chain(b)|, time + 1)
    }

    /** Attempts n and later for one block, the cursor being written inside each, asked at one time and
        begun at another. */
    function AttemptsAt(b: int, save: bool, asked: nat, n: nat, time: nat): seq<Event>
      requires n <= EVM_MAX_RETRIES
      decreases EVM_MAX_RETRIES - n
    {
      if n == EVM_MAX_RETRIES then []
      else
        match fetch(asked)(n)
        case Again => AttemptsAt(b, save, asked, n + 1, time)
        case GivenUp => []
        case Obtained =>
          var saved := time + |chain(b)| + 1;
          if !save then BlockAt(b, time)
          else if write(saved).Acked? then BlockAt(b, time) + [Save(b, write(saved))]
          else BlockAt(b, time) + [Save(b, write(saved))] + AttemptsAt(b, save, asked, n + 1, saved + 1)
    }

    function SaveAt(b: int, save: bool, time: nat): seq<Event> {
      if save then [Save(b, write(time))] else []
    }

    /** What one visit does after reaching the block: EVM and Aptos write the cursor inside each attempt;
        Solana after its attempts, whatever came of them; Terra after repeating requests until the block
        is complete. */
    function DealAt(b: int, save: bool, asked: nat): seq<Event> {
      match kind
      case Solana =>
        var block := if Decisive(fetch(asked), SOLANA_MAX_RETRIES, 0).Obtained? then BlockAt(b, asked + 1) else [];
        block + SaveAt(b, save, asked + 1 + |block|)
      case Terra => BlockAt(b, asked + 1) + SaveAt(b, save, asked + 2 + |chain(b)|)
      case _ => AttemptsAt(b, save, asked, 0, asked + 1)
    }

    function VisitAt(b: int, save: bool, time: nat): seq<Event> {
      [Visit(b)] + DealAt(b, save, time)
    }

    /** Visits of blocks, one after the other. */
    function VisitsAt(bs: seq<int>, save: bool, time: nat): seq<Event> {
      if bs == [] then []
      else
        var front := VisitsAt(bs[..|bs| - 1], save, time);
        front + VisitAt(bs[|bs| - 1], save, time + |front|)
    }

    // -------------------------------------------------------------- when a redemption is applied

    /** A redemption that has its turn at a time is applied: its requests succeed, unless the watcher
        makes none, and its write takes effect. */
    predicate AppliesAt(time: nat) {
      (kind.Terra? || requests(time).Resolved?) && write(time).Applied()
    }

    /** Some attempt obtains the block and redemption j is applied in it: an attempt is followed by
        another one only when the cursor write after it was not acknowledged. */
    predicate AttemptsApply(b: int, save: bool, asked: nat, n: nat, time: nat, j: nat)
      requires n <= EVM_MAX_RETRIES
      decreases EVM_MAX_RETRIES - n
    {
      n < EVM_MAX_RETRIES &&
      match fetch(asked)(n)
      case Again => AttemptsApply(b, save, asked, n + 1, time, j)
      case GivenUp => false
      case Obtained =>
        var saved := time + |chain(b)| + 1;
        AppliesAt(time + 1 + j) ||
        (save && !write(saved).Acked? && AttemptsApply(b, save, asked, n + 1, saved + 1, j))
    }

    /** The visit obtains the block, the requests for redemption j succeed and its write takes effect. */
    predicate VisitApplies(b: int, save: bool, time: nat, j: nat) {
      match kind
      case Solana => Decisive(fetch(time), SOLANA_MAX_RETRIES, 0).Obtained? && AppliesAt(time + 2 + j)
      case Terra => AppliesAt(time + 2 + j)
      case _ => AttemptsApply(b, save, time, 0, time + 1, j)
    }

    lemma {:induction false} TurnsApplyIff(b: int, lo: nat, hi: nat, time: nat, j: nat)
      requires lo <= hi
      ensures AppliedIn(TurnsAt(b, lo, hi, time), b, j) <==> lo <= j < hi && AppliesAt(time + j - lo)
    {
      if lo < hi {
        TurnsApplyIff(b, lo, hi - 1, time, j);
        AppliedExtends(TurnsAt(b, lo, hi - 1, time), TurnAt(b, hi - 1, time + (hi - 1 - lo)), b, j);
      }
    }

    lemma {:induction false} TurnsJoin(b: int, mid: nat, hi: nat, time: nat)
      requires mid <= hi
      ensures TurnsAt(b, 0, mid, time) + TurnsAt(b, mid, hi, time + mid) == TurnsAt(b, 0, hi, time)
      decreases hi
    {
      if mid < hi {
        TurnsJoin(b, mid, hi - 1, time);
      } else {
        assert TurnsAt(b, 0, mid, time) + [] == TurnsAt(b, 0, mid, time);
      }
    }

    lemma BlockAppliesIff(b: int, time: nat, j: nat)
      ensures AppliedIn(BlockAt(b, time), b, j) <==> j < |chain(b)| && AppliesAt(time + 1 + j)
    {
      TurnsApplyIff(b, 0, |chain(b)|, time + 1, j);
      AppliedInParts([Open(b)], TurnsAt(b, 0, |chain(b)|, time + 1), b, j);
    }

    lemma {:induction false} AttemptsApplyIff(b: int, save: bool, asked: nat, n: nat, time: nat, j: nat)
      requires n <= EVM_MAX_RETRIES && j < |chain(b)|
      ensures AppliedIn(AttemptsAt(b, save, asked, n, time), b, j) <==> AttemptsApply(b, save, asked, n, time, j)
      decreases EVM_MAX_RETRIES - n
    {
      hide AppliedIn, BlockAt, TurnsAt;
      NothingApplied(b, j);
      if n < EVM_MAX_RETRIES {
        match fetch(asked)(n) {
        case Again =>
          AttemptsApplyIff(b, save, asked, n + 1, time, j);
        case GivenUp =>
        case Obtained =>
          var saved := time + |chain(b)| + 1;
          BlockAppliesIff(b, time, j);
          AppliedExtends(BlockAt(b, time), Save(b, write(saved)), b, j);
          AttemptsApplyIff(b, save, asked, n + 1, saved + 1, j);
          AppliedInParts(BlockAt(b, time) + [Save(b, write(saved))], AttemptsAt(b, save, asked, n + 1, saved + 1), b, j);
        }
      }
    }

    lemma DealAppliesIff(b: int, save: bool, time: nat, j: nat)
      requires j < |chain(b)|
      ensures AppliedIn(DealAt(b, save, time), b, j) <==> VisitApplies(b, save, time, j)
    {
      NothingApplied(b, j);
      hide AppliedIn, BlockAt, SaveAt, Decisive;
      match kind {
      case Solana =>
        var block := if Decisive(fetch(time), SOLANA_MAX_RETRIES, 0).Obtained? then BlockAt(b, time + 1) else [];
        BlockAppliesIff(b, time + 1, j);
        SaveAppliesNothing(b, save, time + 1 + |block|, b, j);
        AppliedInParts(block, SaveAt(b, save, time + 1 + |block|), b, j);
      case Terra =>
        BlockAppliesIff(b, time + 1, j);
        SaveAppliesNothing(b, save, time + 2 + |chain(b)|, b, j);
        AppliedInParts(BlockAt(b, time + 1), SaveAt(b, save, time + 2 + |chain(b)|), b, j);
      case _ =>
        AttemptsApplyIff(b, save, time, 0, time + 1, j);
      }
    }

    /** A visit applies a redemption exactly when it obtains the block, the requests for the redemption
        succeed and its write takes effect. */
    lemma VisitAppliesIff(b: int, save: bool, time: nat, j: nat)
      requires j < |chain(b)|
      ensures AppliedIn(VisitAt(b, save, time), b, j) <==> VisitApplies(b, save, time, j)
    {
      hide AppliedIn, DealAt, VisitApplies;
      DealAppliesIff(b, save, time, j);
      OneEventApplies(Visit(b), b, j);
      AppliedInParts([Visit(b)], DealAt(b, save, time), b, j);
    }

    lemma OneEventApplies(e: Event, b: int, j: nat)
      ensures AppliedIn([e], b, j) <==> Applies(e, b, j)
    {
      AppliedExtends([], e, b, j);
      assert [] + [e] == [e];
    }

    lemma SaveAppliesNothing(c: int, save: bool, time: nat, b: int, j: nat)
      ensures !AppliedIn(SaveAt(c, save, time), b, j)
    {
    }

    // -------------------------------------------------------------- what each answer leads to

    /** What the answers of a time make of an event. A turn drops the redemption on EVM exactly when its
        requests failed for good, on Aptos and Solana when they did not succeed, and on Terra never; it
        writes the status unknown only on EVM and exactly when the status was missed. */
    predicate AnsweredAt(e: Event, time: nat) {
      match e
      case Drop(_, _) =>
        if kind.Evm? then requests(time).Dropped? else !kind.Terra? && !requests(time).Resolved?
      case Update(_, _, known, found, w) =>
        && found == lookup(time) && w == write(time)
        && (if kind.Evm? then !requests(time).Dropped? && (known <==> requests(time).Resolved?)
            else known && (kind.Terra? || requests(time).Resolved?))
      case Save(_, w) => w == write(time)
      case _ => true
    }

    /** The events, the first one at a time, are what the answers of their times make of them. */
    ghost predicate Answered(t: seq<Event>, time: nat) {
      forall i :: 0 <= i < |t| ==> AnsweredAt(t[i], time + i)
    }

    lemma AnsweredJoins(t: seq<Event>, u: seq<Event>, time: nat)
      requires Answered(t, time) && Answered(u, time + |t|)
      ensures Answered(t + u, time)
    {
      forall i | 0 <= i < |t + u|
        ensures AnsweredAt((t + u)[i], time + i)
      {
        if i >= |t| {
          assert AnsweredAt(u[i - |t|], time + |t| + (i - |t|));
        }
      }
    }

    lemma OneAnswered(e: Event, time: nat)
      requires AnsweredAt(e, time)
      ensures Answered([e], time) && Answered([], time)
    {
    }

    lemma TurnAnswered(b: int, j: nat, time: nat)
      ensures AnsweredAt(TurnAt(b, j, time), time) && Treats(TurnAt(b, j, time), b, j)
    {
    }

    lemma {:induction false} TurnsAnswered(b: int, lo: nat, hi: nat, time: nat)
      requires lo <= hi
      ensures Answered(TurnsAt(b, lo, hi, time), time)
    {
      if lo < hi {
        TurnsAnswered(b, lo, hi - 1, time);
        TurnAnswered(b, hi - 1, time + (hi - 1 - lo));
        OneAnswered(TurnAt(b, hi - 1, time + (hi - 1 - lo)), time + (hi - 1 - lo));
        hide Answered;
        AnsweredJoins(TurnsAt(b, lo, hi - 1, time), [TurnAt(b, hi - 1, time + (hi - 1 - lo))], time);
      }
    }

    lemma BlockAnswered(b: int, time: nat)
      ensures Answered(BlockAt(b, time), time)
    {
      TurnsAnswered(b, 0, |chain(b)|, time + 1);
      OneAnswered(Open(b), time);
      hide Answered;
      AnsweredJoins([Open(b)], TurnsAt(b, 0, |chain(b)|, time + 1), time);
    }

    lemma {:induction false} AttemptsAnswered(b: int, save: bool, asked: nat, n: nat, time: nat)
      requires n <= EVM_MAX_RETRIES
      ensures Answered(AttemptsAt(b, save, asked, n, time), time)
      decreases EVM_MAX_RETRIES - n
    {
      NothingAnswered(time);
      hide Answered, AnsweredAt, BlockAt;
      if n < EVM_MAX_RETRIES {
        match fetch(asked)(n) {
        case Again =>
          AttemptsAnswered(b, save, asked, n + 1, time);
        case GivenUp =>
        case Obtained =>
          var saved := time + |chain(b)| + 1;
          BlockAnswered(b, time);
          SaveAnswered(b, true, saved);
          AnsweredJoins(BlockAt(b, time), [Save(b, write(saved))], time);
          AttemptsAnswered(b, save, asked, n + 1, saved + 1);
          AnsweredJoins(BlockAt(b, time) + [Save(b, write(saved))], AttemptsAt(b, save, asked, n + 1, saved + 1), time);
        }
      }
    }

    lemma SaveAnswered(b: int, save: bool, time: nat)
      ensures Answered(SaveAt(b, save, time), time)
    {
      OneAnswered(Save(b, write(time)), time);
    }

    lemma DealAnswered(b: int, save: bool, asked: nat)
      ensures Answered(DealAt(b, save, asked), asked + 1)
    {
      hide Answered, BlockAt, SaveAt, AttemptsAt, Decisive;
      match kind {
      case Solana =>
        SaveAnswered(b, save, asked + 1);
        NothingAnswered(asked + 1);
        BlockAnswered(b, asked + 1);
        var block := if Decisive(fetch(asked), SOLANA_MAX_RETRIES, 0).Obtained? then BlockAt(b, asked + 1) else [];
        SaveAnswered(b, save, asked + 1 + |block|);
        AnsweredJoins(block, SaveAt(b, save, asked + 1 + |block|), asked + 1);
      case Terra =>
        BlockAnswered(b, asked + 1);
        SaveAnswered(b, save, asked + 2 + |chain(b)|);
        AnsweredJoins(BlockAt(b, asked + 1), SaveAt(b, save, asked + 2 + |chain(b)|), asked + 1);
      case _ =>
        AttemptsAnswered(b, save, asked, 0, asked + 1);
      }
    }

    lemma NothingAnswered(time: nat)
      ensures Answered([], time)
    {
    }

    lemma VisitAnswered(b: int, save: bool, time: nat)
      ensures Answered(VisitAt(b, save, time), time)
    {
      OneAnswered(Visit(b), time);
      hide Answered, DealAt;
      DealAnswered(b, save, time);
      AnsweredJoins([Visit(b)], DealAt(b, save, time), time);
    }

    /** Every event of any sequence of visits is what the answers of its time call for: which redemptions
        are dropped, which lose their status, and what the lookups and writes met. */
    lemma {:induction false} VisitsAnswered(bs: seq<int>, save: bool, time: nat)
      ensures Answered(VisitsAt(bs, save, time), time)
    {
      NothingAnswered(time);
      hide Answered, VisitAt;
      if bs != [] {
        var front, last := bs[..|bs| - 1], bs[|bs| - 1];
        assert bs == front + [last];
        VisitsUnfold(front, last, save, time);
        hide VisitsAt;
        VisitsAnswered(front, save, time);
        VisitAnswered(last, save, time + |VisitsAt(front, save, time)|);
        AnsweredJoins(VisitsAt(front, save, time), VisitAt(last, save, time + |VisitsAt(front, save, time)|), time);
      }
    }

    /** The turn at a place of a session, for each watcher: dropped or written, with or without its
        status. */
    lemma TurnsFollowRequests(bs: seq<int>, save: bool, time: nat, i: nat)
      requires i < |VisitsAt(bs, save, time)|
      ensures var e, r := VisitsAt(bs, save, time)[i], requests(time + i);
              e.Drop? || e.Update? ==>
                && (kind.Evm? ==> (e.Drop? <==> r.Dropped?) && (e.Update? ==> (e.known <==> r.Resolved?)))
                && (kind.Aptos? || kind.Solana? ==> (e.Drop? <==> !r.Resolved?) && (e.Update? ==> e.known))
                && (kind.Terra? ==> e.Update? && e.known)
                && (e.Update? ==> e.lookup == lookup(time + i) && e.write == write(time + i))
    {
      VisitsAnswered(bs, save, time);
      hide VisitsAt;
      assert AnsweredAt(VisitsAt(bs, save, time)[i], time + i);
    }

    // -------------------------------------------------------------- when the cursor is written

    /** One of the first attempts obtains the block and all before it are to be repeated. */
    ghost predicate ObtainedWithin(asked: nat, limit: nat) {
      exists n: nat :: n < limit && ObtainedAt(asked, n)
    }

    ghost predicate ObtainedAt(asked: nat, n: nat) {
      fetch(asked)(n).Obtained? && forall k: nat :: k < n ==> fetch(asked)(k).Again?
    }

    lemma {:induction false} DecisiveObtainedIff(asked: nat, limit: nat, n: nat)
      requires n <= limit && forall k: nat :: k < n ==> fetch(asked)(k).Again?
      ensures Decisive(fetch(asked), limit, n).Obtained? <==> ObtainedWithin(asked, limit)
      decreases limit - n
    {
      if n == limit {
        assert forall k: nat :: ObtainedAt(asked, k) ==> k >= n;
      } else if fetch(asked)(n).Again? {
        DecisiveObtainedIff(asked, limit, n + 1);
      } else {
        assert fetch(asked)(n).Obtained? ==> ObtainedAt(asked, n);
        assert forall k: nat :: ObtainedAt(asked, k) ==> k == n;
      }
    }

    ghost predicate SavesIn(t: seq<Event>) {
      exists e :: e in t && e.Save?
    }

    lemma {:induction false} TurnsOnlyTreat(b: int, lo: nat, hi: nat, time: nat)
      requires lo <= hi
      ensures forall e :: e in TurnsAt(b, lo, hi, time) ==> e.Update? || e.Drop?
    {
      if lo < hi {
        TurnsOnlyTreat(b, lo, hi - 1, time);
      }
    }

    lemma BlockOpensOnce(b: int, time: nat)
      ensures Open(b) in BlockAt(b, time) && !SavesIn(BlockAt(b, time)) && OpensIn(BlockAt(b, time)) == 1
    {
      TurnsOnlyTreat(b, 0, |chain(b)|, time + 1);
      OpensNothing(TurnsAt(b, 0, |chain(b)|, time + 1));
      OpensJoins([Open(b)], TurnsAt(b, 0, |chain(b)|, time + 1));
      assert BlockAt(b, time)[0] == Open(b);
      assert [Open(b)][..0] == [];
    }

    /** How often a block's transactions were obtained. */
    function OpensIn(t: seq<Event>): nat {
      if t == [] then 0 else OpensIn(t[..|t| - 1]) + (if t[|t| - 1].Open? then 1 else 0)
    }

    lemma {:induction false} OpensJoins(t: seq<Event>, u: seq<Event>)
      ensures OpensIn(t + u) == OpensIn(t) + OpensIn(u)
    {
      if u == [] {
        assert t + u == t;
      } else {
        OpensJoins(t, u[..|u| - 1]);
        assert (t + u)[..|t + u| - 1] == t + u[..|u| - 1];
      }
    }

    lemma {:induction false} OpensNothing(t: seq<Event>)
      requires forall e :: e in t ==> !e.Open?
      ensures OpensIn(t) == 0
    {
      if t != [] {
        OpensNothing(t[..|t| - 1]);
      }
    }

    lemma {:induction false} AttemptsWriteCursorIff(b: int, save: bool, asked: nat, n: nat, time: nat)
      requires n <= EVM_MAX_RETRIES && forall k: nat :: k < n ==> fetch(asked)(k).Again?
      ensures SavesIn(AttemptsAt(b, save, asked, n, time)) <==> save && ObtainedWithin(asked, 10)
      ensures Open(b) in AttemptsAt(b, save, asked, n, time) <==> ObtainedWithin(asked, 10)
      decreases EVM_MAX_RETRIES - n
    {
      if n == EVM_MAX_RETRIES {
        assert forall k: nat :: ObtainedAt(asked, k) ==> k >= n;
      } else {
        hide BlockAt;
        match fetch(asked)(n) {
        case Again =>
          AttemptsWriteCursorIff(b, save, asked, n + 1, time);
        case GivenUp =>
          assert forall k: nat :: ObtainedAt(asked, k) ==> k > n || k == n;
        case Obtained =>
          BlockOpensOnce(b, time);
          assert ObtainedAt(asked, n);
          var saved := time + |chain(b)| + 1;
          assert save ==> Save(b, write(saved)) in AttemptsAt(b, save, asked, n, time);
        }
      }
    }

    /** When a visit obtains its block and when it writes the cursor: EVM and Aptos write it exactly when
        one of ten attempts obtains the block; Solana always, although it may give up after three
        attempts; Terra always and with the block complete. */
    lemma VisitWritesCursorIff(b: int, save: bool, time: nat)
      ensures SavesIn(VisitAt(b, save, time)) <==> save && (kind.Solana? || kind.Terra? || ObtainedWithin(time, 10))
      ensures Open(b) in VisitAt(b, save, time) <==> kind.Terra? || ObtainedWithin(time, if kind.Solana? then 3 else 10)
    {
      DecisiveObtainedIff(time, SOLANA_MAX_RETRIES, 0);
      AttemptsWriteCursorIff(b, save, time, 0, time + 1);
      BlockOpensOnce(b, time + 1);
      hide BlockAt, AttemptsAt, Decisive, ObtainedWithin;
      var t := DealAt(b, save, time);
      assert VisitAt(b, save, time) == [Visit(b)] + t;
      if save && (kind.Solana? || kind.Terra?) {
        assert t[|t| - 1].Save? && t[|t| - 1] in VisitAt(b, save, time);
      }
    }

    /** The answers that bring the block before one gives up, from attempt n to the tenth. */
    function ObtainedFrom(asked: nat, n: nat): nat
      decreases 10 - n
    {
      if n >= 10 || fetch(asked)(n).GivenUp? then 0
      else (if fetch(asked)(n).Obtained? then 1 else 0) + ObtainedFrom(asked, n + 1)
    }

    ghost predicate OnlyLastAcknowledged(t: seq<Event>) {
      forall i :: 0 <= i < |t| && t[i].Save? && t[i].write.Acked? ==> i == |t| - 1
    }

    ghost predicate NoneAcknowledged(t: seq<Event>) {
      forall e :: e in t && e.Save? ==> !e.write.Acked?
    }

    lemma OneMoreAttempt(block: seq<Event>, e: Event, rest: seq<Event>)
      requires !SavesIn(block) && OpensIn(block) == 1 && e.Save? && OnlyLastAcknowledged(rest)
      ensures OnlyLastAcknowledged(block + [e]) && (!e.write.Acked? ==> OnlyLastAcknowledged(block + [e] + rest))
      ensures NoneAcknowledged(block + [e] + rest) ==> NoneAcknowledged(rest)
      ensures NoneAcknowledged(block + [e]) ==> !e.write.Acked?
      ensures OpensIn(block + [e] + rest) == 1 + OpensIn(rest)
    {
      OpensNothing([e]);
      OpensJoins(block, [e]);
      OpensJoins(block + [e], rest);
      hide OpensIn;
      var t := block + [e] + rest;
      assert forall i :: 0 <= i < |block| ==> t[i] == block[i] && block[i] in block;
      assert forall i :: 0 <= i < |rest| ==> t[|block| + 1 + i] == rest[i];
      assert (block + [e])[|block|] == e;
    }

    /** On EVM and Aptos an acknowledged cursor write ends the attempts; while none is acknowledged the
        block is obtained and processed again for every further answer that brings it. */
    lemma {:induction false} AttemptsEndAtAcknowledgement(b: int, asked: nat, n: nat, time: nat)
      requires n <= EVM_MAX_RETRIES
      ensures var t := AttemptsAt(b, true, asked, n, time);
              OnlyLastAcknowledged(t) && (NoneAcknowledged(t) ==> OpensIn(t) == ObtainedFrom(asked, n))
      decreases EVM_MAX_RETRIES - n
    {
      hide BlockAt, OpensIn, OnlyLastAcknowledged, NoneAcknowledged;
      NothingAcknowledged();
      if n < EVM_MAX_RETRIES {
        match fetch(asked)(n) {
        case Again =>
          AttemptsEndAtAcknowledgement(b, asked, n + 1, time);
        case GivenUp =>
        case Obtained =>
          var saved := time + |chain(b)| + 1;
          BlockOpensOnce(b, time);
          AttemptsEndAtAcknowledgement(b, asked, n + 1, saved + 1);
          OneMoreAttempt(BlockAt(b, time), Save(b, write(saved)), AttemptsAt(b, true, asked, n + 1, saved + 1));
        }
      }
    }

    lemma NothingAcknowledged()
      ensures OnlyLastAcknowledged([]) && OpensIn([]) == 0
    {
    }

    // -------------------------------------------------------------- visits of other blocks

    /** Every event deals with the block, which no event reaches anew. */
    ghost predicate Within(t: seq<Event>, b: int) {
      forall e :: e in t ==> e.block == b && !e.Visit?
    }

    lemma WithinJoins(t: seq<Event>, u: seq<Event>, b: int)
      requires Within(t, b) && Within(u, b)
      ensures Within(t + u, b)
    {
    }

    lemma {:induction false} TurnsWithin(b: int, lo: nat, hi: nat, time: nat)
      requires lo <= hi
      ensures Within(TurnsAt(b, lo, hi, time), b)
    {
      if lo < hi {
        TurnsWithin(b, lo, hi - 1, time);
      }
    }

    lemma BlockWithin(b: int, time: nat)
      ensures Within(BlockAt(b, time), b)
    {
      TurnsWithin(b, 0, |chain(b)|, time + 1);
    }

    lemma SavesWithin(b: int)
      ensures Within([], b) && forall w: Write :: Within([Save(b, w)], b)
    {
    }

    lemma {:induction false} AttemptsWithin(b: int, save: bool, asked: nat, n: nat, time: nat)
      requires n <= EVM_MAX_RETRIES
      ensures Within(AttemptsAt(b, save, asked, n, time), b)
      decreases EVM_MAX_RETRIES - n
    {
      SavesWithin(b);
      hide BlockAt, Within;
      if n < EVM_MAX_RETRIES {
        match fetch(asked)(n) {
        case Again =>
          AttemptsWithin(b, save, asked, n + 1, time);
        case GivenUp =>
        case Obtained =>
          var saved := time + |chain(b)| + 1;
          BlockWithin(b, time);
          AttemptsWithin(b, save, asked, n + 1, saved + 1);
          WithinJoins(BlockAt(b, time), [Save(b, write(saved))], b);
          WithinJoins(BlockAt(b, time) + [Save(b, write(saved))], AttemptsAt(b, save, asked, n + 1, saved + 1), b);
        }
      }
    }

    lemma DealWithin(b: int, save: bool, time: nat)
      ensures Within(DealAt(b, save, time), b)
    {
      hide BlockAt, AttemptsAt, Decisive;
      BlockWithin(b, time + 1);
      AttemptsWithin(b, save, time, 0, time + 1);
    }

    /** The time at which visit k of several begins. */
    function VisitTime(bs: seq<int>, save: bool, time: nat, k: nat): nat
      requires k <= |bs|
    {
      time + |VisitsAt(bs[..k], save, time)|
    }

    /** Visit k is a visit of the block and applies the redemption. */
    predicate AppliesInVisit(bs: seq<int>, save: bool, time: nat, k: nat, b: int, j: nat) {
      k < |bs| && bs[k] == b && VisitApplies(b, save, VisitTime(bs, save, time, k), j)
    }

    ghost predicate AppliesInSomeVisit(bs: seq<int>, save: bool, time: nat, b: int, j: nat) {
      exists k: nat :: AppliesInVisit(bs, save, time, k, b, j)
    }

    lemma LastVisitApplies(bs: seq<int>, save: bool, time: nat, b: int, j: nat)
      requires bs != []
      ensures AppliesInSomeVisit(bs, save, time, b, j) <==>
                || AppliesInSomeVisit(bs[..|bs| - 1], save, time, b, j)
                || AppliesInVisit(bs, save, time, |bs| - 1, b, j)
    {
      hide VisitsAt, VisitApplies;
      var front := bs[..|bs| - 1];
      forall k: nat | k < |front|
        ensures AppliesInVisit(bs, save, time, k, b, j) <==> AppliesInVisit(front, save, time, k, b, j)
      {
        assert bs[..k] == front[..k];
      }
    }

    lemma {:induction false} VisitsApplyIff(bs: seq<int>, save: bool, time: nat, b: int, j: nat)
      requires j < |chain(b)|
      ensures AppliedIn(VisitsAt(bs, save, time), b, j) <==> AppliesInSomeVisit(bs, save, time, b, j)
    {
      hide AppliedIn, VisitAt, VisitApplies;
      NothingApplied(b, j);
      if bs != [] {
        hide AppliesInSomeVisit;
        var front, last, begun := bs[..|bs| - 1], bs[|bs| - 1], VisitTime(bs, save, time, |bs| - 1);
        VisitsApplyIff(front, save, time, b, j);
        AppliedInParts(VisitsAt(front, save, time), VisitAt(last, save, begun), b, j);
        LastVisitApplies(bs, save, time, b, j);
        if last == b {
          VisitAppliesIff(b, save, begun, j);
        } else {
          OtherVisitApplies(last, save, begun, b, j);
        }
      }
    }

    lemma OtherVisitApplies(c: int, save: bool, time: nat, b: int, j: nat)
      requires c != b
      ensures !AppliedIn(VisitAt(c, save, time), b, j)
    {
      hide DealAt;
      DealWithin(c, save, time);
    }

    /** A whole run: a block is handled exactly when for each of its redemptions some visit of the block
        obtained it, got answers for the redemption and wrote it with effect. */
    lemma HandledIff(bs: seq<int>, save: bool, time: nat, b: int)
      ensures Handled(chain, VisitsAt(bs, save, time), b) <==>
                forall j: nat :: j < |chain(b)| ==> AppliesInSomeVisit(bs, save, time, b, j)
    {
      hide VisitsAt, AppliedIn, AppliesInSomeVisit;
      forall j: nat | j < |chain(b)|
        ensures AppliedIn(VisitsAt(bs, save, time), b, j) <==> AppliesInSomeVisit(bs, save, time, b, j)
      {
        VisitsApplyIff(bs, save, time, b, j);
      }
    }

    // -------------------------------------------------------------- runs of visits

    /** Events and time after visiting blocks, given those before. */
    ghost predicate Follows(before: seq<Event>, begun: nat, bs: seq<int>, save: bool, after: seq<Event>, time: nat) {
      after == before + VisitsAt(bs, save, begun) && time == begun + |VisitsAt(bs, save, begun)|
    }

    lemma VisitsUnfold(bs: seq<int>, b: int, save: bool, time: nat)
      ensures VisitsAt([], save, time) == []
      ensures var front := VisitsAt(bs, save, time); VisitsAt(bs + [b], save, time) == front + VisitAt(b, save, time + |front|)
    {
      hide VisitAt;
      assert (bs + [b])[..|bs|] == bs;
    }

    lemma {:induction false} VisitsJoin(xs: seq<int>, ys: seq<int>, save: bool, time: nat)
      ensures VisitsAt(xs + ys, save, time) == VisitsAt(xs, save, time) + VisitsAt(ys, save, time + |VisitsAt(xs, save, time)|)
      decreases ys
    {
      hide VisitsAt, VisitAt;
      var mid := time + |VisitsAt(xs, save, time)|;
      if ys == [] {
        VisitsUnfold([], 0, save, mid);
        assert xs + ys == xs;
      } else {
        var front, last := ys[..|ys| - 1], ys[|ys| - 1];
        VisitsJoin(xs, front, save, time);
        VisitsUnfold(xs + front, last, save, time);
        VisitsUnfold(front, last, save, mid);
        assert (xs + front) + [last] == xs + ys && front + [last] == ys;
      }
    }

    lemma FollowsJoins(before: seq<Event>, begun: nat, xs: seq<int>, save: bool, between: seq<Event>, mid: nat,
                       ys: seq<int>, after: seq<Event>, time: nat)
      requires Follows(before, begun, xs, save, between, mid) && Follows(between, mid, ys, save, after, time)
      ensures Follows(before, begun, xs + ys, save, after, time)
    {
      hide VisitsAt;
      VisitsJoin(xs, ys, save, begun);
    }

    lemma FollowsNothing(before: seq<Event>, begun: nat, save: bool)
      ensures Follows(before, begun, [], save, before, begun)
    {
    }

    lemma FollowsOne(before: seq<Event>, begun: nat, b: int, save: bool)
      ensures Follows(before, begun, [b], save, before + VisitAt(b, save, begun), begun + |VisitAt(b, save, begun)|)
    {
      hide VisitsAt, VisitAt;
      VisitsUnfold([], b, save, begun);
      assert [] + [b] == [b];
      assert [] + VisitAt(b, save, begun) == VisitAt(b, save, begun);
    }

    lemma {:induction false} VisitsInJoins(t: seq<Event>, u: seq<Event>)
      ensures VisitsIn(t + u) == VisitsIn(t) + VisitsIn(u)
    {
      if u == [] {
        assert t + u == t;
      } else {
        VisitsInJoins(t, u[..|u| - 1]);
        assert (t + u)[..|t + u| - 1] == t + u[..|u| - 1];
      }
    }

    lemma {:induction false} WithinVisitsNothing(t: seq<Event>, b: int)
      requires Within(t, b)
      ensures VisitsIn(t) == []
    {
      if t != [] {
        WithinVisitsNothing(t[..|t| - 1], b);
      }
    }

    lemma VisitVisitsOne(b: int, save: bool, time: nat)
      ensures VisitsIn(VisitAt(b, save, time)) == [b]
    {
      hide DealAt;
      DealWithin(b, save, time);
      WithinVisitsNothing(DealAt(b, save, time), b);
      VisitsInJoins([Visit(b)], DealAt(b, save, time));
      assert [Visit(b)][..0] == [];
    }

    /** Visits visit the blocks they are visits of. */
    lemma {:induction false} VisitsVisit(bs: seq<int>, save: bool, time: nat)
      ensures VisitsIn(VisitsAt(bs, save, time)) == bs
    {
      hide VisitsAt, VisitAt;
      VisitsUnfold([], 0, save, time);
      if bs == [] {
        assert VisitsIn([]) == [];
      } else {
        hide VisitsIn;
        var front, last := bs[..|bs| - 1], bs[|bs| - 1];
        var t := VisitsAt(front, save, time);
        VisitsVisit(front, save, time);
        VisitVisitsOne(last, save, time + |t|);
        VisitsInJoins(t, VisitAt(last, save, time + |t|));
        VisitsUnfold(front, last, save, time);
        assert front + [last] == bs;
      }
    }

    lemma FollowsVisits(bs: seq<int>, save: bool, begun: nat, after: seq<Event>, time: nat)
      requires Follows([], begun, bs, save, after, time)
      ensures VisitsIn(after) == bs && after == VisitsAt(bs, save, begun)
    {
      assert [] + VisitsAt(bs, save, begun) == VisitsAt(bs, save, begun);
      VisitsVisit(bs, save, begun);
    }

    /** Attempts n and later, after some events, as attempt n comes out. */
    lemma AttemptUnfolds(b: int, save: bool, asked: nat, n: nat, time: nat, before: seq<Event>)
      requires n < EVM_MAX_RETRIES
      ensures var all, saved, rest := before + AttemptsAt(b, save, asked, n, time), time + |chain(b)| + 1, n + 1;
              && (fetch(asked)(n).Again? ==> all == before + AttemptsAt(b, save, asked, rest, time))
              && (fetch(asked)(n).GivenUp? ==> all == before + [])
              && (fetch(asked)(n).Obtained? && !save ==> all == before + BlockAt(b, time) + [])
              && (fetch(asked)(n).Obtained? && save ==>
                    all == before + BlockAt(b, time) + [Save(b, write(saved))] +
                           (if write(saved).Acked? then [] else AttemptsAt(b, save, asked, rest, saved + 1)))
    {
      hide BlockAt;
      var saved := time + |chain(b)| + 1;
      JoinAssociates(before, BlockAt(b, time), [Save(b, write(saved))], AttemptsAt(b, save, asked, n + 1, saved + 1));
      JoinAssociates(before, BlockAt(b, time), [Save(b, write(saved))], []);
    }

    lemma JoinAssociates(s: seq<Event>, t: seq<Event>, u: seq<Event>, v: seq<Event>)
      ensures s + (t + u + v) == s + t + u + v && s + (t + u) == s + t + u && t + u + [] == t + u && s + t + [] == s + t
    {
    }

    /** One visit of the Solana watcher, after some events. */
    lemma SolanaVisitUnfolds(before: seq<Event>, b: int, save: bool, time: nat)
      requires kind.Solana?
      ensures var block := if Decisive(fetch(time), SOLANA_MAX_RETRIES, 0).Obtained? then BlockAt(b, time + 1) else [];
              && before + VisitAt(b, save, time) == before + [Visit(b)] + block + SaveAt(b, save, time + 1 + |block|)
              && |VisitAt(b, save, time)| == 1 + |block| + |SaveAt(b, save, time + 1 + |block|)|
    {
      hide BlockAt, Decisive, SaveAt;
      var block := if Decisive(fetch(time), SOLANA_MAX_RETRIES, 0).Obtained? then BlockAt(b, time + 1) else [];
      NestedJoins(before, [Visit(b)], block, SaveAt(b, save, time + 1 + |block|));
    }

    lemma NestedJoins(s: seq<Event>, t: seq<Event>, u: seq<Event>, v: seq<Event>)
      ensures s + (t + (u + v)) == s + t + u + v
    {
    }

    lemma NoAttemptsLeft(b: int, save: bool, asked: nat, time: nat)
      ensures AttemptsAt(b, save, asked, EVM_MAX_RETRIES, time) == []
    {
    }
  }
}

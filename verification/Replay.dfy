/** Replaying redemption updates after restarts (contract-watcher/watcher/watcher.go driven by the block
    loops): when does applying them again, in some order and with repetitions, store what applying
    each once in order stores? */
module Replay {
  import opened Wrappers
  import opened Writes
  import opened Redemption

  /** The update at a position was written; known tells whether with its own status, or with the status
      "unknown" because the transaction's status could not be obtained. */
  datatype Landing = Landing(position: nat, known: bool)

  predicate Below(ls: seq<Landing>, n: nat) {
    forall i :: 0 <= i < |ls| ==> ls[i].position < n
  }

  /** An update whose status could not be obtained. */
  function Degraded(u: TransactionUpdate): TransactionUpdate {
    TransactionUpdate(u.id, u.destination.(status := UNKNOWN))
  }

  /** Only transactions that have one of the three statuses can have it missed. */
  ghost predicate Fitting(us: seq<TransactionUpdate>, ls: seq<Landing>)
    requires Below(ls, |us|)
  {
    forall i :: 0 <= i < |ls| ==> ls[i].known || Rank(us[ls[i].position].destination.status) > 0
  }

  function Written(us: seq<TransactionUpdate>, l: Landing): TransactionUpdate
    requires l.position < |us|
  {
    if l.known then us[l.position] else Degraded(us[l.position])
  }

  /** The landings, all lookups and writes succeeding. */
  function Applying(us: seq<TransactionUpdate>, ls: seq<Landing>): (steps: seq<Step>)
    requires Below(ls, |us|)
    ensures |steps| == |ls|
  {
    seq(|ls|, i requires 0 <= i < |ls| => Step(Written(us, ls[i]), true, Acked))
  }

  function InOrder(us: seq<TransactionUpdate>): (steps: seq<Step>)
    ensures |steps| == |us|
  {
    seq(|us|, i requires 0 <= i < |us| => Step(us[i], true, Acked))
  }

  // ---------------------------------------------------------------- the condition

  /** Place k holds the last landing of its position, among all landings or the known ones. */
  ghost predicate Final(ls: seq<Landing>, k: nat, all: bool) {
    && k < |ls| && (all || ls[k].known)
    && forall j :: k < j < |ls| && (all || ls[j].known) ==> ls[j].position != ls[k].position
  }

  ghost predicate KnownAt(ls: seq<Landing>, k: nat, p: nat) {
    k < |ls| && ls[k] == Landing(p, true)
  }

  ghost predicate Occurs(ls: seq<Landing>, p: nat) {
    exists k: nat :: KnownAt(ls, k, p)
  }

  ghost predicate Covers(ls: seq<Landing>, n: nat) {
    forall p: nat :: p < n ==> Occurs(ls, p)
  }

  /** The last landings are in increasing order of position. */
  ghost predicate Ordered(ls: seq<Landing>, all: bool) {
    forall k: nat, l: nat :: k < l && Final(ls, k, all) && Final(ls, l, all) ==> ls[k].position < ls[l].position
  }

  /** Every position below n has a known landing, and the last landings are in increasing order, both
      among the known ones and among all. */
  ghost predicate Settles(ls: seq<Landing>, n: nat) {
    Covers(ls, n) && Ordered(ls, false) && Ordered(ls, true)
  }

  // ---------------------------------------------------------------- what is stored

  /** No destination yet, or one of the three statuses. */
  ghost predicate Sound(txs: GlobalTxs, id: string) {
    Destination(txs, id).None? || StoredRank(txs, id) > 0
  }

  /** The landings store what applying the updates once in order stores. */
  ghost predicate StoresSame(txs: GlobalTxs, us: seq<TransactionUpdate>, ls: seq<Landing>, id: string)
    requires Below(ls, |us|)
  {
    Destination(Run(txs, Applying(us, ls)), id) == Destination(Run(txs, InOrder(us)), id)
  }

  ghost predicate StoresSameAlways(ls: seq<Landing>, n: nat)
    requires Below(ls, n)
  {
    forall us: seq<TransactionUpdate>, txs: GlobalTxs, id: string ::
      |us| == n && Fitting(us, ls) && Sound(txs, id) ==> StoresSame(txs, us, ls, id)
  }

  lemma {:induction false} LastLanding(ls: seq<Landing>, i: nat, all: bool) returns (k: nat)
    requires i < |ls| && (all || ls[i].known)
    ensures i <= k && Final(ls, k, all) && ls[k].position == ls[i].position
    decreases |ls| - i
  {
    if j :| i < j < |ls| && (all || ls[j].known) && ls[j].position == ls[i].position {
      k := LastLanding(ls, j, all);
    } else {
      k := i;
    }
  }

  lemma RankOfDegraded(u: TransactionUpdate)
    ensures Rank(Degraded(u).destination.status) == 1
    ensures Rank(u.destination.status) == 1 ==> Degraded(u) == u
  {
    assert |FAILED| == 6 && |UNKNOWN| == 7 && |CONFIRMED| == 9;
  }

  /** A landing on the winner's document never beats the winner's last landing. */
  lemma LandingIsBeaten(us: seq<TransactionUpdate>, ls: seq<Landing>, id: string, w: nat, k: nat, j: nat)
    requires Below(ls, |us|) && Fitting(us, ls) && IsWinner(InOrder(us), w, id) && Candidate(Applying(us, ls), j, id)
    requires var all := Rank(us[w].destination.status) == 1;
             Ordered(ls, all) && Final(ls, k, all) && ls[k].position == w
    ensures Rank(Written(us, ls[j]).destination.status) <= Rank(us[w].destination.status)
    ensures Rank(Written(us, ls[j]).destination.status) == Rank(us[w].destination.status) ==> j <= k
  {
    var p, all := ls[j].position, Rank(us[w].destination.status) == 1;
    RankOfDegraded(us[p]);
    assert Candidate(InOrder(us), p, id);
    if Rank(Written(us, ls[j]).destination.status) == Rank(us[w].destination.status) {
      assert all || ls[j].known;
      var l := LastLanding(ls, j, all);
      assert k < l ==> w < p;
    }
  }

  /** Replay keeps winners. */
  lemma ReplayKeepsWinner(us: seq<TransactionUpdate>, ls: seq<Landing>, id: string, w: nat) returns (k: nat)
    requires Below(ls, |us|) && Fitting(us, ls) && Settles(ls, |us|) && IsWinner(InOrder(us), w, id)
    ensures IsWinner(Applying(us, ls), k, id) && Written(us, ls[k]) == us[w]
  {
    var all := Rank(us[w].destination.status) == 1;
    assert Occurs(ls, w);
    var i: nat :| KnownAt(ls, i, w);
    k := LastLanding(ls, i, all);
    RankOfDegraded(us[w]);
    forall j: nat | Candidate(Applying(us, ls), j, id)
      ensures Rank(Written(us, ls[j]).destination.status) <= Rank(us[w].destination.status)
      ensures Rank(Written(us, ls[j]).destination.status) == Rank(us[w].destination.status) ==> j <= k
    {
      LandingIsBeaten(us, ls, id, w, k, j);
    }
  }

  lemma LandedIsUpdate(us: seq<TransactionUpdate>, ls: seq<Landing>, id: string, j: nat)
    requires Below(ls, |us|) && Fitting(us, ls) && Candidate(Applying(us, ls), j, id)
    ensures Candidate(InOrder(us), ls[j].position, id)
  {
  }

  /** Replay on a document without a destination. */
  lemma ReplayFromNothing(txs: GlobalTxs, us: seq<TransactionUpdate>, ls: seq<Landing>, id: string)
    requires Below(ls, |us|) && Fitting(us, ls) && Settles(ls, |us|) && Destination(txs, id).None?
    ensures StoresSame(txs, us, ls, id)
  {
    hide Run, Destination, Rank, Written, Settles;
    var steps, clean := Applying(us, ls), InOrder(us);
    StoredIsWinner(txs, steps, id);
    StoredIsWinner(txs, clean, id);
    var d, e := Destination(Run(txs, steps), id), Destination(Run(txs, clean), id);
    if d.Some? {
      var j: nat :| IsWinner(steps, j, id) && steps[j].tx.destination == d.value;
      LandedIsUpdate(us, ls, id, j);
    }
    if e.Some? {
      var w: nat :| IsWinner(clean, w, id) && clean[w].tx.destination == e.value;
      var k := ReplayKeepsWinner(us, ls, id, w);
      assert Candidate(steps, k, id);
      var j: nat :| IsWinner(steps, j, id) && steps[j].tx.destination == d.value;
      WinnerUnique(steps, j, k, id);
    }
  }

  // ---------------------------------------------------------------- documents that have a destination

  /** The landings after an update was put in front of the list and landed first. */
  function Behind(ls: seq<Landing>): (ms: seq<Landing>)
    ensures |ms| == |ls| + 1 && ms[0] == Landing(0, true)
    ensures forall i :: 0 <= i < |ls| ==> ms[i + 1] == Landing(ls[i].position + 1, ls[i].known)
  {
    [Landing(0, true)] + seq(|ls|, i requires 0 <= i < |ls| => Landing(ls[i].position + 1, ls[i].known))
  }

  lemma BehindIs(ls: seq<Landing>, k: nat)
    requires k < |Behind(ls)|
    ensures Behind(ls)[k] == if k == 0 then Landing(0, true) else Landing(ls[k - 1].position + 1, ls[k - 1].known)
  {
    assert k > 0 ==> Behind(ls)[k - 1 + 1] == Landing(ls[k - 1].position + 1, ls[k - 1].known);
  }

  lemma FinalBehind(ls: seq<Landing>, k: nat, all: bool)
    requires 0 < k && Final(Behind(ls), k, all)
    ensures Final(ls, k - 1, all)
  {
    BehindIs(ls, k);
    forall j | k - 1 < j < |ls| && (all || ls[j].known)
      ensures ls[j].position != ls[k - 1].position
    {
      BehindIs(ls, j + 1);
    }
  }

  lemma BehindIsBelow(ls: seq<Landing>, n: nat)
    requires Below(ls, n)
    ensures Below(Behind(ls), n + 1)
  {
    forall i | 0 <= i < |Behind(ls)|
      ensures Behind(ls)[i].position < n + 1
    {
      BehindIs(ls, i);
    }
  }

  lemma BehindCovers(ls: seq<Landing>, n: nat)
    requires Covers(ls, n)
    ensures Covers(Behind(ls), n + 1)
  {
    forall p: nat | p < n + 1
      ensures Occurs(Behind(ls), p)
    {
      if p == 0 {
        BehindIs(ls, 0);
        assert KnownAt(Behind(ls), 0, 0);
      } else {
        assert Occurs(ls, p - 1);
        var i: nat :| KnownAt(ls, i, p - 1);
        BehindIs(ls, i + 1);
        assert KnownAt(Behind(ls), i + 1, p);
      }
    }
  }

  lemma BehindKeepsOrder(ls: seq<Landing>, all: bool)
    requires Ordered(ls, all)
    ensures Ordered(Behind(ls), all)
  {
    hide Behind;
    forall k: nat, l: nat | k < l && Final(Behind(ls), k, all) && Final(Behind(ls), l, all)
      ensures Behind(ls)[k].position < Behind(ls)[l].position
    {
      BehindIs(ls, k);
      BehindIs(ls, l);
      FinalBehind(ls, l, all);
      if k > 0 {
        FinalBehind(ls, k, all);
      }
    }
  }

  lemma WrittenBehind(u: TransactionUpdate, us: seq<TransactionUpdate>, ls: seq<Landing>, i: nat)
    requires Below(ls, |us|) && i < |Behind(ls)|
    ensures Behind(ls)[i].position < |[u] + us|
    ensures Written([u] + us, Behind(ls)[i]) == if i == 0 then u else Written(us, ls[i - 1])
  {
    BehindIs(ls, i);
  }

  lemma ApplyingBehind(u: TransactionUpdate, us: seq<TransactionUpdate>, ls: seq<Landing>)
    requires Below(ls, |us|) && Below(Behind(ls), |[u] + us|)
    ensures Applying([u] + us, Behind(ls)) == [Step(u, true, Acked)] + Applying(us, ls)
    ensures InOrder([u] + us) == [Step(u, true, Acked)] + InOrder(us)
  {
    hide Behind, Written;
    forall i | 0 <= i < |Behind(ls)|
      ensures Written([u] + us, Behind(ls)[i]) == if i == 0 then u else Written(us, ls[i - 1])
    {
      WrittenBehind(u, us, ls, i);
    }
  }

  lemma FittingBehind(u: TransactionUpdate, us: seq<TransactionUpdate>, ls: seq<Landing>)
    requires Below(ls, |us|) && Below(Behind(ls), |[u] + us|) && Fitting(us, ls)
    ensures Fitting([u] + us, Behind(ls))
  {
    forall i | 0 <= i < |Behind(ls)|
      ensures Behind(ls)[i].known || Rank(([u] + us)[Behind(ls)[i].position].destination.status) > 0
    {
      BehindIs(ls, i);
    }
  }

  lemma BehindSettles(ls: seq<Landing>, n: nat)
    requires Below(ls, n) && Settles(ls, n)
    ensures Below(Behind(ls), n + 1) && Settles(Behind(ls), n + 1)
  {
    hide Covers, Ordered, Behind;
    BehindIsBelow(ls, n);
    BehindCovers(ls, n);
    BehindKeepsOrder(ls, false);
    BehindKeepsOrder(ls, true);
  }

  lemma AllReliable(us: seq<TransactionUpdate>, ls: seq<Landing>)
    requires Below(ls, |us|)
    ensures Reliable(Applying(us, ls)) && Reliable(InOrder(us))
  {
  }

  /** Landings that settle store exactly what applying the updates once in order stores. */
  lemma ReplayStoresSame(txs: GlobalTxs, us: seq<TransactionUpdate>, ls: seq<Landing>, id: string)
    requires Below(ls, |us|) && Fitting(us, ls) && Settles(ls, |us|) && Sound(txs, id)
    ensures StoresSame(txs, us, ls, id)
  {
    if Destination(txs, id).None? {
      ReplayFromNothing(txs, us, ls, id);
    } else {
      hide Run, Below, Settles, Fitting, Applying, InOrder, Behind, Destination, StoredRank, Reliable;
      var u := TransactionUpdate(id, Destination(txs, id).value);
      BehindSettles(ls, |us|);
      ApplyingBehind(u, us, ls);
      FittingBehind(u, us, ls);
      AllReliable(us, ls);
      StoredActsFirst(txs, Applying(us, ls), id, Step(u, true, Acked));
      StoredActsFirst(txs, InOrder(us), id, Step(u, true, Acked));
      ReplayFromNothing(txs - {id}, [u] + us, Behind(ls), id);
    }
  }

  // ---------------------------------------------------------------- necessity

  /** n updates, of which the ones at p and q carry different transactions of one VAA. */
  function Two(n: nat, p: nat, q: nat, status: string): (us: seq<TransactionUpdate>)
    ensures |us| == n && forall i: nat :: i < n ==> us[i] == OneOfTwo(p, q, status, i)
  {
    seq(n, i requires 0 <= i < n => OneOfTwo(p, q, status, i))
  }

  function OneOfTwo(p: nat, q: nat, status: string, i: nat): TransactionUpdate {
    TransactionUpdate(if i == p || i == q then "" else "other",
                      DestinationTx(0, status, "", if i == q then "second" else "first", "", "", ""))
  }

  lemma StatusRanks()
    ensures Rank(CONFIRMED) == 3 && Rank(FAILED) == 2 && Rank(UNKNOWN) == 1
  {
    assert |FAILED| == 6 && |UNKNOWN| == 7 && |CONFIRMED| == 9;
  }

  lemma CandidatesOfTwo(n: nat, p: nat, q: nat, status: string, ls: seq<Landing>)
    requires Below(ls, n) && Rank(status) > 0
    ensures Fitting(Two(n, p, q, status), ls)
    ensures forall i: nat :: Candidate(InOrder(Two(n, p, q, status)), i, "") <==> i < n && (i == p || i == q)
    ensures forall i: nat :: Candidate(Applying(Two(n, p, q, status), ls), i, "") <==>
              i < |ls| && (ls[i].position == p || ls[i].position == q)
    ensures forall i: nat :: i < |ls| ==>
              Rank(Applying(Two(n, p, q, status), ls)[i].tx.destination.status) == if ls[i].known then Rank(status) else 1
  {
    hide Rank;
    StatusRanks();
    assert "other" != "" by { assert |"other"| == 5; }
  }

  lemma MissingLandingShows(ls: seq<Landing>, n: nat, p: nat)
    requires Below(ls, n) && p < n && !Occurs(ls, p)
    ensures Fitting(Two(n, p, p, CONFIRMED), ls) && !StoresSame(map[], Two(n, p, p, CONFIRMED), ls, "")
  {
    var us := Two(n, p, p, CONFIRMED);
    StatusRanks();
    CandidatesOfTwo(n, p, p, CONFIRMED, ls);
    hide Rank;
    assert IsWinner(InOrder(us), p, "");
    WinnerIsStored(InOrder(us), p, "");
    StoredIsWinner(map[], Applying(us, ls), "");
    var d := Destination(Run(map[], Applying(us, ls)), "");
    if d.Some? {
      var j: nat :| IsWinner(Applying(us, ls), j, "") && Applying(us, ls)[j].tx.destination == d.value;
      assert ls[j].position == p && !KnownAt(ls, j, p);
    }
  }

  lemma SwappedLandingsShow(ls: seq<Landing>, n: nat, k: nat, l: nat, all: bool)
    requires Below(ls, n) && k < l && Final(ls, k, all) && Final(ls, l, all) && ls[k].position >= ls[l].position
    ensures var us := Two(n, ls[l].position, ls[k].position, if all then UNKNOWN else CONFIRMED);
            Fitting(us, ls) && !StoresSame(map[], us, ls, "")
  {
    var p, q, status := ls[l].position, ls[k].position, if all then UNKNOWN else CONFIRMED;
    var us := Two(n, p, q, status);
    assert p < q;
    StatusRanks();
    CandidatesOfTwo(n, p, q, status, ls);
    hide Rank, Candidate, Run;
    assert IsWinner(InOrder(us), q, "");
    assert IsWinner(Applying(us, ls), l, "");
    WinnerIsStored(InOrder(us), q, "");
    WinnerIsStored(Applying(us, ls), l, "");
    assert us[p].destination.txHash != us[q].destination.txHash by {
      assert |"first"| == 5 && |"second"| == 6;
    }
  }

  /** Updates that tell landings that do not settle from one pass. */
  lemma Unsettling(ls: seq<Landing>, n: nat) returns (us: seq<TransactionUpdate>)
    requires Below(ls, n) && !Settles(ls, n)
    ensures |us| == n && Fitting(us, ls) && !StoresSame(map[], us, ls, "")
  {
    if p: nat :| p < n && !Occurs(ls, p) {
      us := Two(n, p, p, CONFIRMED);
      MissingLandingShows(ls, n, p);
    } else {
      var all := Ordered(ls, false);
      var k: nat, l: nat :| k < l && Final(ls, k, all) && Final(ls, l, all) && !(ls[k].position < ls[l].position);
      us := Two(n, ls[l].position, ls[k].position, if all then UNKNOWN else CONFIRMED);
      SwappedLandingsShow(ls, n, k, l, all);
    }
  }

  /** Replay is exact: landings store what one pass stores, whatever the updates are and whatever valid
      destinations were there, if and only if they settle. */
  lemma ReplayStoresSameIff(ls: seq<Landing>, n: nat)
    requires Below(ls, n)
    ensures StoresSameAlways(ls, n) <==> Settles(ls, n)
  {
    if Settles(ls, n) {
      forall us: seq<TransactionUpdate>, txs: GlobalTxs, id: string | |us| == n && Fitting(us, ls) && Sound(txs, id)
        ensures StoresSame(txs, us, ls, id)
      {
        ReplayStoresSame(txs, us, ls, id);
      }
    } else {
      var us := Unsettling(ls, n);
      assert Sound(map[], "");
      assert !StoresSame(map[], us, ls, "");
    }
  }

  // ---------------------------------------------------------------- climbing

  /** Known landings that begin at the first position and never skip ahead: each is at most one past
      its predecessor. Restarts jump back. */
  ghost predicate Climbs(ls: seq<Landing>) {
    && (forall i :: 0 <= i < |ls| ==> ls[i].known)
    && (ls != [] ==> ls[0].position == 0)
    && (forall i :: 0 <= i < |ls| - 1 ==> ls[i + 1].position <= ls[i].position + 1)
  }

  lemma {:induction false} Reaches(ls: seq<Landing>, i: nat, p: nat)
    requires Climbs(ls) && i < |ls| && ls[i].position <= p <= ls[|ls| - 1].position
    ensures exists k: nat :: i <= k && KnownAt(ls, k, p)
    decreases |ls| - i
  {
    if ls[i].position < p {
      Reaches(ls, i + 1, p);
    } else {
      assert KnownAt(ls, i, p);
    }
  }

  lemma ClimbIsOrdered(ls: seq<Landing>, n: nat, all: bool)
    requires Below(ls, n) && Climbs(ls) && (n > 0 ==> ls != [] && ls[|ls| - 1].position == n - 1)
    ensures Ordered(ls, all)
  {
    forall k: nat, l: nat | k < l && Final(ls, k, all) && Final(ls, l, all)
      ensures ls[k].position < ls[l].position
    {
      if ls[l].position <= ls[k].position {
        Reaches(ls, l, ls[k].position);
        assert false;
      }
    }
  }

  /** A climb that ends at the last position settles. */
  lemma ClimbsSettle(ls: seq<Landing>, n: nat)
    requires Below(ls, n) && Climbs(ls) && (n > 0 ==> ls != [] && ls[|ls| - 1].position == n - 1)
    ensures Settles(ls, n)
  {
    forall p: nat | p < n
      ensures Occurs(ls, p)
    {
      Reaches(ls, 0, p);
    }
    ClimbIsOrdered(ls, n, false);
    ClimbIsOrdered(ls, n, true);
  }

  /** Processing any suffix of the processed updates once more changes no stored destination. */
  lemma SuffixReplayChangesNothing(txs: GlobalTxs, us: seq<TransactionUpdate>, k: nat, id: string)
    requires k <= |us| && Sound(txs, id)
    ensures Destination(Run(txs, InOrder(us) + InOrder(us[k..])), id) == Destination(Run(txs, InOrder(us)), id)
  {
    var n := |us|;
    var ls: seq<Landing> := seq(2 * n - k, i requires 0 <= i < 2 * n - k => Landing(if i < n then i else i - n + k, true));
    assert Applying(us, ls) == InOrder(us) + InOrder(us[k..]);
    ClimbsSettle(ls, n);
    ReplayStoresSame(txs, us, ls, id);
  }
}

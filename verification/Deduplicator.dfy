/** Gossip messages are verified, deduplicated through an expiring cache that may lose entries, and
    handed to the handler of their lane (fly/processor/vaa_gossip_consumer.go,
    fly/deduplicator/deduplicator.go). */
module Deduplicator {
  import opened Vaas

  /** Keys and the times their entries expire. */
  type Cache = map<string, int>

  /** Result and end time of one handler call, and whether the cache kept the entry set after it. */
  datatype HandlerResult = HandlerResult(ok: bool, finished: int, kept: bool)

  datatype Outcome = Rejected | Skipped | Failed | Succeeded

  predicate Hit(cache: Cache, key: string, now: int) {
    key in cache && now < cache[key]
  }

  /** Apply: skip on a hit, otherwise call, and remember the key only after success. */
  function ApplyEffect(expiration: int, cache: Cache, key: string, now: int, call: HandlerResult): (Cache, Outcome) {
    if Hit(cache, key, now) then (cache, Skipped)
    else if !call.ok then (cache, Failed)
    else (if call.kept then cache[key := call.finished + expiration] else cache, Succeeded)
  }

  /** One Push, or a loss of arbitrary cache entries. */
  datatype Step =
    | Push(vaa: Vaa, verified: bool, now: int, call: HandlerResult)
    | Lose(keys: set<string>)

  datatype Entry = Entry(vaa: Vaa, verified: bool, outcome: Outcome, started: int, finished: int)

  datatype State = State(cache: Cache, log: seq<Entry>)

  function PushEffect(expiration: int, cache: Cache, v: Vaa, verified: bool, now: int, call: HandlerResult): (Cache, Outcome) {
    if !verified then (cache, Rejected) else ApplyEffect(expiration, cache, IdOf(v), now, call)
  }

  function Next(expiration: int, s: State, step: Step): State {
    match step
    case Push(v, verified, now, call) =>
      var (cache, outcome) := PushEffect(expiration, s.cache, v, verified, now, call);
      State(cache, s.log + [Entry(v, verified, outcome, now, call.finished)])
    case Lose(keys) => State(s.cache - keys, s.log)
  }

  function Run(expiration: int, s: State, steps: seq<Step>): State
    decreases |steps|
  {
    if steps == [] then s else Run(expiration, Next(expiration, s, steps[0]), steps[1..])
  }

  const INITIAL := State(map[], [])

  predicate SameVaaId(v: Vaa, w: Vaa) {
    v.emitterChain == w.emitterChain && v.emitterAddress == w.emitterAddress && v.sequence == w.sequence
  }

  lemma SameIdSameVaa(v: Vaa, w: Vaa)
    ensures IdOf(v) == IdOf(w) <==> SameVaaId(v, w)
  {
    if IdOf(v) == IdOf(w) {
      MessageIdInjective(v.emitterChain, v.emitterAddress, v.sequence, w.emitterChain, w.emitterAddress, w.sequence);
    }
  }

  /** An earlier handler call for the identifier succeeded. */
  ghost predicate SucceededBefore(log: seq<Entry>, n: nat, id: string) {
    exists j :: 0 <= j < n && j < |log| && log[j].outcome == Succeeded && IdOf(log[j].vaa) == id
  }

  // ---------------------------------------------------------------- safety under any loss

  ghost predicate Justified(s: State) {
    && (forall id :: id in s.cache ==> SucceededBefore(s.log, |s.log|, id))
    && (forall i :: 0 <= i < |s.log| && s.log[i].outcome == Skipped ==> SucceededBefore(s.log, i, IdOf(s.log[i].vaa)))
    && (forall i :: 0 <= i < |s.log| ==> (s.log[i].outcome == Rejected <==> !s.log[i].verified))
  }

  lemma SuccessPersists(log: seq<Entry>, e: Entry, n: nat, id: string)
    requires SucceededBefore(log, n, id) && n <= |log|
    ensures SucceededBefore(log + [e], n, id) && SucceededBefore(log + [e], |log| + 1, id)
  {
    var j :| 0 <= j < n && j < |log| && log[j].outcome == Succeeded && IdOf(log[j].vaa) == id;
    assert (log + [e])[j] == log[j];
  }

  lemma PushKeepsJustified(expiration: int, s: State, v: Vaa, verified: bool, now: int, call: HandlerResult)
    requires Justified(s)
    ensures Justified(Next(expiration, s, Push(v, verified, now, call)))
  {
    hide IdOf, SucceededBefore;
    var (cache, outcome) := PushEffect(expiration, s.cache, v, verified, now, call);
    var e := Entry(v, verified, outcome, now, call.finished);
    var log := s.log + [e];
    forall id | id in cache
      ensures SucceededBefore(log, |log|, id)
    {
      if id in s.cache {
        SuccessPersists(s.log, e, |s.log|, id);
      } else {
        LastSuccess(s.log, e);
      }
    }
    forall i | 0 <= i < |log| && log[i].outcome == Skipped
      ensures SucceededBefore(log, i, IdOf(log[i].vaa))
    {
      SuccessPersists(s.log, e, i, IdOf(log[i].vaa));
    }
  }

  lemma LastSuccess(log: seq<Entry>, e: Entry)
    requires e.outcome == Succeeded
    ensures SucceededBefore(log + [e], |log| + 1, IdOf(e.vaa))
  {
    assert (log + [e])[|log|] == e;
  }

  lemma {:induction false} AlwaysJustified(expiration: int, s: State, steps: seq<Step>)
    requires Justified(s)
    ensures Justified(Run(expiration, s, steps))
    decreases |steps|
  {
    if steps != [] {
      if steps[0].Push? {
        PushKeepsJustified(expiration, s, steps[0].vaa, steps[0].verified, steps[0].now, steps[0].call);
      }
      AlwaysJustified(expiration, Next(expiration, s, steps[0]), steps[1..]);
    }
  }

  /** Whatever the cache loses: a VAA is skipped only if the very same VAA was handled successfully
      before, so a failed call never suppresses a retry; and a handler is reached only by verified
      VAAs. */
  lemma SkipsOnlyHandled(expiration: int, steps: seq<Step>, i: nat)
    requires i < |Run(expiration, INITIAL, steps).log|
    ensures var log := Run(expiration, INITIAL, steps).log;
            && (log[i].outcome == Skipped ==>
                  exists j :: 0 <= j < i && log[j].outcome == Succeeded && SameVaaId(log[j].vaa, log[i].vaa))
            && (log[i].outcome in {Failed, Succeeded} ==> log[i].verified)
  {
    AlwaysJustified(expiration, INITIAL, steps);
    var log := Run(expiration, INITIAL, steps).log;
    if log[i].outcome == Skipped {
      var j :| 0 <= j < i && j < |log| && log[j].outcome == Succeeded && IdOf(log[j].vaa) == IdOf(log[i].vaa);
      SameIdSameVaa(log[j].vaa, log[i].vaa);
    }
  }

  // ---------------------------------------------------------------- a lossless cache

  predicate Lossless(steps: seq<Step>) {
    forall i :: 0 <= i < |steps| ==> steps[i].Push? && steps[i].call.kept && steps[i].now <= steps[i].call.finished
  }

  predicate SucceedTogether(e: Entry, f: Entry) {
    e.outcome == Succeeded && f.outcome == Succeeded && IdOf(e.vaa) == IdOf(f.vaa)
  }

  /** Every success still blocks its key until it expires, and successes of a key are at least one
      expiration apart. */
  ghost predicate Spaced(expiration: int, s: State) {
    && (forall i :: 0 <= i < |s.log| && s.log[i].outcome == Succeeded ==>
          IdOf(s.log[i].vaa) in s.cache && s.cache[IdOf(s.log[i].vaa)] >= s.log[i].finished + expiration)
    && (forall i, j :: 0 <= i < j < |s.log| && SucceedTogether(s.log[i], s.log[j]) ==>
          s.log[j].started >= s.log[i].finished + expiration)
  }

  lemma PushKeepsSpaced(expiration: int, s: State, step: Step)
    requires expiration >= 0 && Spaced(expiration, s) && Lossless([step])
    ensures Spaced(expiration, Next(expiration, s, step))
  {
    assert step == [step][0];
    hide IdOf;
    var t := Next(expiration, s, step);
    var id, last := IdOf(step.vaa), |s.log|;
    forall i | 0 <= i < |t.log| && t.log[i].outcome == Succeeded
      ensures IdOf(t.log[i].vaa) in t.cache && t.cache[IdOf(t.log[i].vaa)] >= t.log[i].finished + expiration
    {
      if i < last {
        assert t.log[i] == s.log[i];
        if IdOf(s.log[i].vaa) == id && t.log[last].outcome == Succeeded {
          assert step.now >= s.cache[id];
        }
      }
    }
    forall i, j | 0 <= i < j < |t.log| && SucceedTogether(t.log[i], t.log[j])
      ensures t.log[j].started >= t.log[i].finished + expiration
    {
      assert t.log[i] == s.log[i];
      if j < last {
        assert t.log[j] == s.log[j];
      }
    }
  }

  lemma {:induction false} AlwaysSpaced(expiration: int, s: State, steps: seq<Step>)
    requires expiration >= 0 && Spaced(expiration, s) && Lossless(steps)
    ensures Spaced(expiration, Run(expiration, s, steps))
    decreases |steps|
  {
    if steps != [] {
      PushKeepsSpaced(expiration, s, steps[0]);
      AlwaysSpaced(expiration, Next(expiration, s, steps[0]), steps[1..]);
    }
  }

  /** With a cache that loses nothing, two successful handler calls for the same VAA are at least one
      expiration apart. */
  lemma OneSuccessPerWindow(expiration: int, steps: seq<Step>, i: nat, j: nat)
    requires expiration >= 0 && Lossless(steps) && i < j < |Run(expiration, INITIAL, steps).log|
    requires var log := Run(expiration, INITIAL, steps).log;
             log[i].outcome == Succeeded && log[j].outcome == Succeeded && SameVaaId(log[i].vaa, log[j].vaa)
    ensures var log := Run(expiration, INITIAL, steps).log; log[j].started - log[i].finished >= expiration
  {
    AlwaysSpaced(expiration, INITIAL, steps);
    var log := Run(expiration, INITIAL, steps).log;
    SameIdSameVaa(log[i].vaa, log[j].vaa);
  }

  // ---------------------------------------------------------------- when a VAA is skipped

  /** Handler call j succeeded for the identifier and its entry outlives a time. */
  ghost predicate Covers(expiration: int, log: seq<Entry>, j: nat, id: string, time: int) {
    j < |log| && log[j].outcome == Succeeded && IdOf(log[j].vaa) == id && time < log[j].finished + expiration
  }

  ghost predicate CoveredBefore(expiration: int, log: seq<Entry>, n: nat, id: string, time: int) {
    exists j: nat :: j < n && Covers(expiration, log, j, id, time)
  }

  /** Entries and skips have successes that cover them. */
  ghost predicate Timely(expiration: int, s: State) {
    && (forall id, time :: id in s.cache && time < s.cache[id] ==> CoveredBefore(expiration, s.log, |s.log|, id, time))
    && (forall i :: 0 <= i < |s.log| && s.log[i].outcome == Skipped ==>
          CoveredBefore(expiration, s.log, i, IdOf(s.log[i].vaa), s.log[i].started))
  }

  lemma CoveragePersists(expiration: int, log: seq<Entry>, e: Entry, n: nat, id: string, time: int)
    requires CoveredBefore(expiration, log, n, id, time) && n <= |log|
    ensures CoveredBefore(expiration, log + [e], n, id, time) && CoveredBefore(expiration, log + [e], |log| + 1, id, time)
  {
    var j: nat :| j < n && Covers(expiration, log, j, id, time);
    assert (log + [e])[j] == log[j];
    assert Covers(expiration, log + [e], j, id, time);
  }

  lemma StepKeepsTimely(expiration: int, s: State, step: Step)
    requires Timely(expiration, s)
    ensures Timely(expiration, Next(expiration, s, step))
  {
    if step.Push? {
      hide IdOf, CoveredBefore;
      var t := Next(expiration, s, step);
      var n, e := |s.log|, t.log[|s.log|];
      assert t.log == s.log + [e];
      forall id, time | id in t.cache && time < t.cache[id]
        ensures CoveredBefore(expiration, t.log, |t.log|, id, time)
      {
        if id in s.cache && t.cache[id] == s.cache[id] {
          CoveragePersists(expiration, s.log, e, n, id, time);
        } else {
          LastCovers(expiration, s.log, e, time);
        }
      }
      forall i | 0 <= i < |t.log| && t.log[i].outcome == Skipped
        ensures CoveredBefore(expiration, t.log, i, IdOf(t.log[i].vaa), t.log[i].started)
      {
        CoveragePersists(expiration, s.log, e, i, IdOf(t.log[i].vaa), t.log[i].started);
      }
    }
  }

  lemma LastCovers(expiration: int, log: seq<Entry>, e: Entry, time: int)
    requires e.outcome == Succeeded && time < e.finished + expiration
    ensures CoveredBefore(expiration, log + [e], |log| + 1, IdOf(e.vaa), time)
  {
    assert Covers(expiration, log + [e], |log|, IdOf(e.vaa), time);
  }

  lemma {:induction false} AlwaysTimely(expiration: int, s: State, steps: seq<Step>)
    requires Timely(expiration, s)
    ensures Timely(expiration, Run(expiration, s, steps))
    decreases |steps|
  {
    if steps != [] {
      StepKeepsTimely(expiration, s, steps[0]);
      AlwaysTimely(expiration, Next(expiration, s, steps[0]), steps[1..]);
    }
  }

  /** Call j before call i succeeded for the same VAA less than one expiration before call i. */
  ghost predicate RecentSuccess(expiration: int, log: seq<Entry>, j: nat, i: nat) {
    && j < i < |log| && log[j].outcome == Succeeded && SameVaaId(log[j].vaa, log[i].vaa)
    && log[i].started < log[j].finished + expiration
  }

  /** Whatever the cache loses, a VAA is skipped only within one expiration of a success for it: an
      expired entry never suppresses a call. */
  lemma SkipsEndWithExpiration(expiration: int, steps: seq<Step>, i: nat)
    requires i < |Run(expiration, INITIAL, steps).log| && Run(expiration, INITIAL, steps).log[i].outcome == Skipped
    ensures exists j: nat :: RecentSuccess(expiration, Run(expiration, INITIAL, steps).log, j, i)
  {
    AlwaysTimely(expiration, INITIAL, steps);
    var log := Run(expiration, INITIAL, steps).log;
    var j: nat :| j < i && Covers(expiration, log, j, IdOf(log[i].vaa), log[i].started);
    SameIdSameVaa(log[j].vaa, log[i].vaa);
    assert RecentSuccess(expiration, log, j, i);
  }

  /** Without losses a verified VAA is handled unless a success for it is that recent. */
  ghost predicate Exact(expiration: int, s: State) {
    forall i: nat, j: nat :: RecentSuccess(expiration, s.log, j, i) && s.log[i].verified ==> s.log[i].outcome == Skipped
  }

  lemma PushKeepsExact(expiration: int, s: State, step: Step)
    requires expiration >= 0 && Spaced(expiration, s) && Exact(expiration, s) && Lossless([step])
    ensures Exact(expiration, Next(expiration, s, step))
  {
    assert step == [step][0];
    var t := Next(expiration, s, step);
    forall i: nat, j: nat | RecentSuccess(expiration, t.log, j, i) && t.log[i].verified
      ensures t.log[i].outcome == Skipped
    {
      assert t.log[j] == s.log[j];
      if i < |s.log| {
        assert RecentSuccess(expiration, s.log, j, i);
      } else {
        SameIdSameVaa(t.log[j].vaa, t.log[i].vaa);
        hide IdOf;
      }
    }
  }

  lemma {:induction false} AlwaysExact(expiration: int, s: State, steps: seq<Step>)
    requires expiration >= 0 && Spaced(expiration, s) && Exact(expiration, s) && Lossless(steps)
    ensures Exact(expiration, Run(expiration, s, steps))
    decreases |steps|
  {
    if steps != [] {
      PushKeepsSpaced(expiration, s, steps[0]);
      PushKeepsExact(expiration, s, steps[0]);
      AlwaysExact(expiration, Next(expiration, s, steps[0]), steps[1..]);
    }
  }

  /** With a cache that loses nothing a verified VAA is skipped if and only if a call for it succeeded
      less than one expiration ago. */
  lemma SkippedIffRecent(expiration: int, steps: seq<Step>, i: nat)
    requires expiration >= 0 && Lossless(steps) && i < |Run(expiration, INITIAL, steps).log|
    ensures var log := Run(expiration, INITIAL, steps).log;
            log[i].outcome == Skipped <==> log[i].verified && exists j: nat :: RecentSuccess(expiration, log, j, i)
  {
    AlwaysJustified(expiration, INITIAL, steps);
    AlwaysExact(expiration, INITIAL, steps);
    var log := Run(expiration, INITIAL, steps).log;
    if log[i].outcome == Skipped {
      SkipsEndWithExpiration(expiration, steps, i);
    }
  }

  // ---------------------------------------------------------------- the objects

  class DeduplicatorCache {
    const expiration: int
    var cache: Cache

    constructor (expiration: int)
      ensures this.expiration == expiration && cache == map[]
    {
      this.expiration := expiration;
      cache := map[];
    }

    /** Apply around a callback whose result the caller supplies; called tells whether it ran. */
    method Apply(key: string, now: int, call: HandlerResult) returns (called: bool, ok: bool)
      modifies this`cache
      ensures cache == ApplyEffect(expiration, old(cache), key, now, call).0
      ensures var outcome := ApplyEffect(expiration, old(cache), key, now, call).1;
              called == (outcome != Skipped) && ok == (outcome != Failed)
    {
      if key in cache && now < cache[key] {
        return false, true;
      }
      if !call.ok {
        return true, false;
      }
      if call.kept {
        cache := cache[key := call.finished + expiration];
      }
      return true, true;
    }
  }

  class VaaGossipConsumer {
    const deduplicator: DeduplicatorCache
    var pythCalls: seq<Vaa>      // calls of the PythNet handler
    var nonPythCalls: seq<Vaa>   // calls of the other handler

    constructor (deduplicator: DeduplicatorCache)
      ensures this.deduplicator == deduplicator && pythCalls == [] && nonPythCalls == []
    {
      this.deduplicator := deduplicator;
      pythCalls, nonPythCalls := [], [];
    }

    /** Verify, then deduplicate, then the handler of the VAA's lane. */
    method Push(v: Vaa, verified: bool, now: int, call: HandlerResult) returns (ok: bool)
      modifies this, deduplicator
      ensures var (cache, outcome) := PushEffect(deduplicator.expiration, old(deduplicator.cache), v, verified, now, call);
              var called := outcome in {Failed, Succeeded};
              && deduplicator.cache == cache && ok == (outcome in {Skipped, Succeeded})
              && pythCalls == old(pythCalls) + (if called && v.emitterChain == PYTHNET then [v] else [])
              && nonPythCalls == old(nonPythCalls) + (if called && v.emitterChain != PYTHNET then [v] else [])
    {
      if !verified {
        return false;
      }
      var called;
      called, ok := deduplicator.Apply(IdOf(v), now, call);
      if called {
        if v.emitterChain == PYTHNET {
          pythCalls := pythCalls + [v];
        } else {
          nonPythCalls := nonPythCalls + [v];
        }
      }
    }
  }
}

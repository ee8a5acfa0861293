/** The queue between gossip and storage as a stepped protocol: the fetching goroutine of
    fly/queue/vaa_sqs.go, the consuming goroutine of fly/processor/vaa_queue_consumer.go, the
    remote queue, the document store and the key store, with failures, redelivery and crashes
    between any two steps. */
module Pipeline {
  import opened Text
  import opened Vaas
  import opened Writes
  import opened VaaStore
  import opened LastSequence

  /** What a message carries: text that is no base64, bytes that are no VAA, or a VAA. */
  datatype Body = Undecodable | Garbage(raw: Bytes) | Signed(vaa: Vaa, raw: Bytes)

  datatype Message = Message(receipt: nat, body: Body)

  /** The fetching goroutine: calling GetMessages, filling the channel from a batch, holding one
      message that was added to the wait group but is not on the channel yet, or waiting. */
  datatype Fetcher = Fetching | Filling(rest: seq<Message>) | Sending(msg: Message, rest: seq<Message>) | Waiting

  datatype Stage = Received | Checked | Saved | Notified | Deleted | Failing

  datatype Worker = Idle | Holding(msg: Message, stage: Stage)

  datatype State = State(
    queue: set<Message>,    // remote: published and not deleted, delivered again at will
    deleted: set<Message>,  // remote: deleted by Done
    store: Store,           // remote: documents
    keys: Keys,             // remote: last sequences
    fetcher: Fetcher,
    wg: int,
    ch: seq<Message>,
    worker: Worker,
    sent: seq<Message>,     // sent on the channel by this process
    acked: seq<Message>)    // acknowledged, by Done or Failed, in this process

  /** Channel size and key prefix. */
  datatype Config = Config(size: nat, prefix: string)

  datatype Step =
    | Publish(msg: Message)
    | Fetch(batch: seq<Message>)
    | Take
    | Send
    | Barrier
    | Receive
    | Check(expired: bool)
    | Persist(env: Env)
    | Notify(write: Write)
    | Delete(write: Write)
    | Release
    | Crash
    | Background(change: VaaStore.Step)

  /** There is room on the channel; an unbuffered channel has room when the consumer waits. */
  predicate HasRoom(cfg: Config, s: State) {
    |s.ch| < cfg.size || (cfg.size == 0 && s.ch == [] && s.worker.Idle?)
  }

  predicate At(s: State, stage: Stage) {
    s.worker.Holding? && s.worker.stage == stage
  }

  predicate Enabled(cfg: Config, s: State, step: Step) {
    match step
    case Publish(m) => true
    case Fetch(batch) => s.fetcher.Fetching? && forall m :: m in batch ==> m in s.queue
    case Take => s.fetcher.Filling?
    case Send => s.fetcher.Sending? && HasRoom(cfg, s)
    case Barrier => s.fetcher.Waiting? && s.wg == 0
    case Receive => s.worker.Idle? && s.ch != []
    case Check(_) => At(s, Received)
    case Persist(_) => At(s, Checked) && s.worker.msg.body.Signed?
    case Notify(_) => At(s, Saved) && s.worker.msg.body.Signed?
    case Delete(_) => At(s, Notified)
    case Release => At(s, Deleted) || At(s, Failing)
    case Crash => true
    case Background(_) => true
  }

  /** One base64-decodable message is added to the wait group; others are skipped. */
  function TakeNext(s: State): State
    requires s.fetcher.Filling?
  {
    var rest := s.fetcher.rest;
    if rest == [] then s.(fetcher := Waiting)
    else if rest[0].body.Undecodable? then s.(fetcher := Filling(rest[1..]))
    else s.(fetcher := Sending(rest[0], rest[1..]), wg := s.wg + 1)
  }

  function Moved(s: State, ok: bool, stage: Stage): Worker
    requires s.worker.Holding?
  {
    Holding(s.worker.msg, if ok then stage else Failing)
  }

  /** The effect of an enabled step; a step that is not enabled changes nothing. */
  function Next(cfg: Config, s: State, step: Step): State {
    if !Enabled(cfg, s, step) then s else
    match step
    case Publish(m) => s.(queue := s.queue + {m})
    case Fetch(batch) => s.(fetcher := Filling(batch))
    case Take => TakeNext(s)
    case Send => s.(fetcher := Filling(s.fetcher.rest), ch := s.ch + [s.fetcher.msg], sent := s.sent + [s.fetcher.msg])
    case Barrier => s.(fetcher := Fetching)
    case Receive => s.(ch := s.ch[1..], worker := Holding(s.ch[0], Received))
    case Check(expired) => s.(worker := Moved(s, s.worker.msg.body.Signed? && !expired, Checked))
    case Persist(env) =>
      var (store', ok) := Save(s.store, s.worker.msg.body.vaa, s.worker.msg.body.raw, env);
      s.(store := store', worker := Moved(s, ok, Saved))
    case Notify(write) =>
      var (keys', ok) := NotifyEffect(s.keys, cfg.prefix, Call(s.worker.msg.body.vaa, write));
      s.(keys := keys', worker := Moved(s, ok, Notified))
    case Delete(write) =>
      var m := s.worker.msg;
      var s1 := if write.Applied() then s.(queue := s.queue - {m}, deleted := s.deleted + {m}) else s;
      s1.(worker := Holding(m, Deleted))
    case Release => s.(wg := s.wg - 1, worker := Idle, acked := s.acked + [s.worker.msg])
    case Crash => s.(fetcher := Fetching, wg := 0, ch := [], worker := Idle, sent := [], acked := [])
    case Background(change) => s.(store := Apply(s.store, change))
  }

  function Run(cfg: Config, s: State, steps: seq<Step>): State
    decreases |steps|
  {
    if steps == [] then s else Run(cfg, Next(cfg, s, steps[0]), steps[1..])
  }

  const INITIAL := State({}, {}, EMPTY, map[], Fetching, 0, [], Idle, [], [])

  // ---------------------------------------------------------------- batch barrier

  function InHand(w: Worker): seq<Message> {
    if w.Idle? then [] else [w.msg]
  }

  /** The wait group counts what was added and not yet acknowledged; the channel is first in,
      first out; nothing is pending when a batch is fetched. */
  ghost predicate Balanced(s: State) {
    && s.wg == |s.ch| + |InHand(s.worker)| + (if s.fetcher.Sending? then 1 else 0)
    && s.sent == s.acked + InHand(s.worker) + s.ch
    && (s.fetcher.Fetching? ==> s.wg == 0)
  }

  /** The steps of the fetching goroutine. */
  lemma FetcherKeepsBalance(cfg: Config, s: State, step: Step)
    requires Balanced(s) && Enabled(cfg, s, step)
    requires step.Fetch? || step.Take? || step.Send? || step.Barrier?
    ensures Balanced(Next(cfg, s, step))
  {
    hide Save, NotifyEffect, Apply;
    if step.Send? {
      assert s.acked + InHand(s.worker) + s.ch + [s.fetcher.msg] == s.acked + InHand(s.worker) + (s.ch + [s.fetcher.msg]);
    }
  }

  /** The steps of the consuming goroutine that take a message from the channel or let it go. */
  lemma WorkerKeepsBalance(cfg: Config, s: State, step: Step)
    requires Balanced(s) && Enabled(cfg, s, step)
    requires step.Receive? || step.Release?
    ensures Balanced(Next(cfg, s, step))
  {
    hide Save, NotifyEffect, Apply;
    if step.Receive? {
      assert s.ch == [s.ch[0]] + s.ch[1..];
    }
  }

  lemma StepKeepsBalance(cfg: Config, s: State, step: Step)
    requires Balanced(s)
    ensures Balanced(Next(cfg, s, step))
  {
    hide Save, NotifyEffect, Apply, TakeNext;
    if Enabled(cfg, s, step) {
      if step.Fetch? || step.Take? || step.Send? || step.Barrier? {
        FetcherKeepsBalance(cfg, s, step);
      } else if step.Receive? || step.Release? {
        WorkerKeepsBalance(cfg, s, step);
      }
    }
  }

  lemma {:induction false} AlwaysBalanced(cfg: Config, s: State, steps: seq<Step>)
    requires Balanced(s)
    ensures Balanced(Run(cfg, s, steps))
    decreases |steps|
  {
    if steps != [] {
      StepKeepsBalance(cfg, s, steps[0]);
      AlwaysBalanced(cfg, Next(cfg, s, steps[0]), steps[1..]);
    }
  }

  /** In every interleaving: the wait group is never negative and is zero exactly when every added
      message was acknowledged; messages are acknowledged in the order they were sent, each once;
      and a batch is only ever fetched when all messages sent before were acknowledged. */
  lemma BatchBarrier(cfg: Config, steps: seq<Step>, batch: seq<Message>)
    ensures var s := Run(cfg, INITIAL, steps);
            && s.wg >= 0
            && (s.wg == 0 <==> s.sent == s.acked && !s.fetcher.Sending?)
            && s.acked <= s.sent
            && (Enabled(cfg, s, Fetch(batch)) ==> s.sent == s.acked && s.ch == [] && s.worker.Idle?)
  {
    AlwaysBalanced(cfg, INITIAL, steps);
    var s := Run(cfg, INITIAL, steps);
    assert |s.sent| == |s.acked| + |InHand(s.worker)| + |s.ch|;
  }

  /** The batch a fetcher is working on. */
  function Remaining(f: Fetcher): nat {
    match f
    case Filling(rest) => |rest|
    case Sending(_, rest) => |rest| + 1
    case _ => 0
  }

  /** Batches of a run that are no larger than the channel. */
  predicate SmallBatches(cfg: Config, steps: seq<Step>) {
    forall i :: 0 <= i < |steps| && steps[i].Fetch? ==> |steps[i].batch| <= cfg.size
  }

  lemma {:induction false} ChannelNeverOverfull(cfg: Config, s: State, steps: seq<Step>)
    requires Balanced(s) && |s.ch| + Remaining(s.fetcher) <= cfg.size && SmallBatches(cfg, steps)
    ensures var t := Run(cfg, s, steps); |t.ch| + Remaining(t.fetcher) <= cfg.size
    decreases |steps|
  {
    if steps != [] {
      StepKeepsBalance(cfg, s, steps[0]);
      ChannelNeverOverfull(cfg, Next(cfg, s, steps[0]), steps[1..]);
    }
  }

  /** Because of the barrier the fetcher never blocks on the channel as long as batches are no
      larger than it, as with the default of ten for both. */
  lemma SendNeverBlocks(cfg: Config, steps: seq<Step>)
    requires SmallBatches(cfg, steps)
    ensures var s := Run(cfg, INITIAL, steps); s.fetcher.Sending? ==> Enabled(cfg, s, Send)
  {
    ChannelNeverOverfull(cfg, INITIAL, steps);
  }

  // ---------------------------------------------------------------- nothing published is lost

  function Published(steps: seq<Step>): set<Message> {
    if steps == [] then {} else (if steps[0].Publish? then {steps[0].msg} else {}) + Published(steps[1..])
  }

  /** The messages the process works on: those of the batch, on the channel and in hand. */
  function InProcess(s: State): seq<Message> {
    (match s.fetcher
     case Filling(rest) => rest
     case Sending(m, rest) => [m] + rest
     case _ => []) + s.ch + InHand(s.worker)
  }

  /** What the process works on came from the remote queue. */
  ghost predicate Sourced(s: State) {
    forall m :: m in InProcess(s) ==> m in s.queue + s.deleted
  }

  lemma StepKeepsSourced(cfg: Config, s: State, step: Step)
    requires Sourced(s)
    ensures forall m :: m in InProcess(Next(cfg, s, step)) ==> m in s.queue + s.deleted
  {
    hide Save, NotifyEffect, Apply;
    if Enabled(cfg, s, step) && step.Receive? {
      assert s.ch == [s.ch[0]] + s.ch[1..];
    }
  }

  lemma StepKeepsMessages(cfg: Config, s: State, step: Step)
    requires Sourced(s)
    ensures var t := Next(cfg, s, step);
            && Sourced(t)
            && t.queue + t.deleted == s.queue + s.deleted + (if step.Publish? then {step.msg} else {})
            && s.deleted <= t.deleted
            && forall m :: m in s.queue && m !in t.queue ==> step.Delete? && m in t.deleted
  {
    StepKeepsSourced(cfg, s, step);
    hide Save, NotifyEffect, Apply;
    if Enabled(cfg, s, step) && step.Delete? {
      var m := s.worker.msg;
      assert m in InProcess(s);
      hide InProcess;
      assert s.queue + s.deleted == (s.queue - {m}) + (s.deleted + {m});
    }
  }

  lemma {:induction false} RunKeepsMessages(cfg: Config, s: State, steps: seq<Step>)
    requires Sourced(s)
    ensures Sourced(Run(cfg, s, steps))
    ensures Run(cfg, s, steps).queue + Run(cfg, s, steps).deleted == s.queue + s.deleted + Published(steps)
    ensures s.deleted <= Run(cfg, s, steps).deleted
    decreases |steps|
  {
    hide Next, Sourced;
    if steps != [] {
      StepKeepsMessages(cfg, s, steps[0]);
      RunKeepsMessages(cfg, Next(cfg, s, steps[0]), steps[1..]);
    }
  }

  /** In every run, under failures, redelivery and crashes: messages in the remote queue and deleted
      ones are together exactly the published ones, and what is not deleted can be fetched whenever the
      fetching goroutine asks. */
  lemma NothingIsLost(cfg: Config, steps: seq<Step>, m: Message)
    ensures var s := Run(cfg, INITIAL, steps);
            && s.queue + s.deleted == Published(steps)
            && (m in Published(steps) && m !in s.deleted && s.fetcher.Fetching? ==> Enabled(cfg, s, Fetch([m])))
  {
    RunKeepsMessages(cfg, INITIAL, steps);
  }

  /** In every reachable state a message leaves the remote queue only in the deletion that Done makes of
      it, and a deleted message stays deleted. */
  lemma LeavesOnlyWhenDeleted(cfg: Config, steps: seq<Step>, step: Step, m: Message)
    ensures var s := Run(cfg, INITIAL, steps);
            var t := Next(cfg, s, step);
            && (m in s.queue && m !in t.queue ==> step.Delete? && At(s, Notified) && s.worker.msg == m && m in t.deleted)
            && (m in s.deleted ==> m in t.deleted)
  {
    RunKeepsMessages(cfg, INITIAL, steps);
    StepKeepsMessages(cfg, Run(cfg, INITIAL, steps), step);
    hide Run, Save, NotifyEffect, Apply, TakeNext;
  }

  // ---------------------------------------------------------------- stored, then notified, then deleted

  ghost predicate IsSaved(s: Store, v: Vaa) {
    v.emitterChain != PYTHNET ==> IdOf(v) in s.vaas
  }

  /** The emitter's last sequence is a printed number no smaller than the VAA's. */
  ghost predicate IsCovered(p: string, keys: Keys, v: Vaa) {
    exists n: nat :: n >= v.sequence && Holds(keys, SequenceKey(p, v.emitterChain, v.emitterAddress), n)
  }

  /** The emitter's last sequence, if any, is the sequence of a stored VAA of that emitter. */
  ghost predicate IsBacked(p: string, keys: Keys, s: Store, c: ChainId, a: Address) {
    SequenceKey(p, c, a) in keys ==>
      exists n: nat :: Holds(keys, SequenceKey(p, c, a), n) && (c != PYTHNET ==> MessageId(c, a, n) in s.vaas)
  }

  ghost predicate Backed(p: string, keys: Keys, s: Store) {
    forall c: ChainId, a: Address :: IsBacked(p, keys, s, c, a)
  }

  ghost predicate WorkerSafe(p: string, s: State) {
    s.worker.Holding? ==>
      var body, stage := s.worker.msg.body, s.worker.stage;
      && (stage in {Checked, Saved, Notified, Deleted} ==> body.Signed?)
      && (stage in {Saved, Notified, Deleted} ==> IsSaved(s.store, body.vaa))
      && (stage in {Notified, Deleted} ==> IsCovered(p, s.keys, body.vaa))
  }

  ghost predicate DeletedSafe(p: string, s: State) {
    forall m :: m in s.deleted ==> m.body.Signed? && IsSaved(s.store, m.body.vaa) && IsCovered(p, s.keys, m.body.vaa)
  }

  ghost predicate Safe(p: string, s: State) {
    Consistent(s.store) && Backed(p, s.keys, s.store) && WorkerSafe(p, s) && DeletedSafe(p, s)
  }

  lemma NotifyKeepsBacked(p: string, keys: Keys, s: Store, v: Vaa, write: Write)
    requires Backed(p, keys, s) && IsSaved(s, v)
    ensures Backed(p, NotifyEffect(keys, p, Call(v, write)).0, s)
  {
    var keys' := NotifyEffect(keys, p, Call(v, write)).0;
    forall c: ChainId, a: Address
      ensures IsBacked(p, keys', s, c, a)
    {
      assert IsBacked(p, keys, s, c, a);
      NotifyKeepsEmitterBacked(p, keys, s, v, write, c, a);
    }
  }

  lemma NotifyKeepsEmitterBacked(p: string, keys: Keys, s: Store, v: Vaa, write: Write, c: ChainId, a: Address)
    requires IsBacked(p, keys, s, c, a) && IsSaved(s, v)
    ensures IsBacked(p, NotifyEffect(keys, p, Call(v, write)).0, s, c, a)
  {
    var keys', key := NotifyEffect(keys, p, Call(v, write)).0, SequenceKey(p, c, a);
    if Hits(Call(v, write), c, a) {
      ScriptKeepsMaximum(keys, key, v.sequence);
      var n := v.sequence;
      if key in keys {
        var m: nat :| Holds(keys, key, m) && (c != PYTHNET ==> MessageId(c, a, m) in s.vaas);
        n := Max(m, v.sequence);
      }
      assert Holds(keys', key, n);
    } else {
      OtherCallKeepsKey(keys, p, Call(v, write), c, a);
      if key in keys' {
        var m: nat :| Holds(keys, key, m) && (c != PYTHNET ==> MessageId(c, a, m) in s.vaas);
        assert Holds(keys', key, m);
      }
    }
  }

  /** Notifications never lower a last sequence. */
  lemma NotifyKeepsCovered(p: string, keys: Keys, v: Vaa, write: Write, w: Vaa)
    requires IsCovered(p, keys, w)
    ensures IsCovered(p, NotifyEffect(keys, p, Call(v, write)).0, w)
  {
    var c, a := w.emitterChain, w.emitterAddress;
    var keys', key := NotifyEffect(keys, p, Call(v, write)).0, SequenceKey(p, c, a);
    var m: nat :| m >= w.sequence && Holds(keys, key, m);
    if Hits(Call(v, write), c, a) {
      ScriptKeepsMaximum(keys, key, v.sequence);
      assert Holds(keys', key, Max(m, v.sequence));
    } else {
      OtherCallKeepsKey(keys, p, Call(v, write), c, a);
      assert Holds(keys', key, m);
    }
  }

  /** A notification that reports success covers its own VAA. */
  lemma NotifySuccessCovers(p: string, keys: Keys, s: Store, v: Vaa, write: Write)
    requires Backed(p, keys, s) && NotifyEffect(keys, p, Call(v, write)).1
    ensures IsCovered(p, NotifyEffect(keys, p, Call(v, write)).0, v)
  {
    var c, a := v.emitterChain, v.emitterAddress;
    var keys', key := NotifyEffect(keys, p, Call(v, write)).0, SequenceKey(p, c, a);
    ScriptKeepsMaximum(keys, key, v.sequence);
    assert IsBacked(p, keys, s, c, a);
    if key in keys {
      var m: nat :| Holds(keys, key, m);
      assert Holds(keys', key, Max(m, v.sequence));
    } else {
      assert Holds(keys', key, v.sequence);
    }
  }

  lemma StoreStepKeepsSaved(s: Store, change: VaaStore.Step)
    ensures forall v :: IsSaved(s, v) ==> IsSaved(Apply(s, change), v)
    ensures forall id :: id in s.vaas ==> id in Apply(s, change).vaas
  {
  }

  lemma StoreStepKeepsBacked(p: string, keys: Keys, s: Store, change: VaaStore.Step)
    requires Backed(p, keys, s)
    ensures Backed(p, keys, Apply(s, change))
  {
    StoreStepKeepsSaved(s, change);
    forall c: ChainId, a: Address
      ensures IsBacked(p, keys, Apply(s, change), c, a)
    {
      assert IsBacked(p, keys, s, c, a);
    }
  }

  lemma ChangeKeepsSafe(cfg: Config, s: State, change: VaaStore.Step, t: State)
    requires Safe(cfg.prefix, s)
    requires t.store == Apply(s.store, change) && t.keys == s.keys && t.deleted == s.deleted
    requires t.worker == s.worker
    ensures Safe(cfg.prefix, t)
  {
    StepKeepsConsistent(s.store, change);
    StoreStepKeepsSaved(s.store, change);
    StoreStepKeepsBacked(cfg.prefix, s.keys, s.store, change);
  }

  lemma SaveStepKeepsSafe(cfg: Config, s: State, env: Env)
    requires Safe(cfg.prefix, s) && Enabled(cfg, s, Persist(env))
    ensures Safe(cfg.prefix, Next(cfg, s, Persist(env)))
  {
    var body := s.worker.msg.body;
    var s' := Next(cfg, s, Persist(env));
    var change := Upsert(body.vaa, body.raw, env);
    assert s'.store == Apply(s.store, change);
    ChangeKeepsSafe(cfg, s, change, s.(store := s'.store));
    if s'.worker.stage == Saved {
      SuccessMeansStored(s.store, body.vaa, body.raw, env);
    }
  }

  lemma NotifyStepKeepsSafe(cfg: Config, s: State, write: Write)
    requires Safe(cfg.prefix, s) && Enabled(cfg, s, Notify(write))
    ensures Safe(cfg.prefix, Next(cfg, s, Notify(write)))
  {
    var p, v := cfg.prefix, s.worker.msg.body.vaa;
    NotifyKeepsBacked(p, s.keys, s.store, v, write);
    forall m | m in s.deleted
      ensures IsCovered(p, NotifyEffect(s.keys, p, Call(v, write)).0, m.body.vaa)
    {
      NotifyKeepsCovered(p, s.keys, v, write, m.body.vaa);
    }
    if NotifyEffect(s.keys, p, Call(v, write)).1 {
      NotifySuccessCovers(p, s.keys, s.store, v, write);
    }
  }

  lemma DeleteStepKeepsSafe(cfg: Config, s: State, write: Write)
    requires Safe(cfg.prefix, s) && Enabled(cfg, s, Delete(write))
    ensures Safe(cfg.prefix, Next(cfg, s, Delete(write)))
  {
    assert forall m :: m in Next(cfg, s, Delete(write)).deleted ==> m in s.deleted || m == s.worker.msg;
  }

  lemma LocalStepKeepsSafe(cfg: Config, s: State, step: Step)
    requires Safe(cfg.prefix, s) && Enabled(cfg, s, step)
    requires !step.Persist? && !step.Notify? && !step.Delete? && !step.Background?
    ensures Safe(cfg.prefix, Next(cfg, s, step))
  {
    var s' := Next(cfg, s, step);
    assert s'.store == s.store && s'.keys == s.keys && s'.deleted == s.deleted;
  }

  lemma StepKeepsSafe(cfg: Config, s: State, step: Step)
    requires Safe(cfg.prefix, s)
    ensures Safe(cfg.prefix, Next(cfg, s, step))
  {
    if Enabled(cfg, s, step) {
      match step
      case Persist(env) => SaveStepKeepsSafe(cfg, s, env);
      case Notify(write) => NotifyStepKeepsSafe(cfg, s, write);
      case Delete(write) => DeleteStepKeepsSafe(cfg, s, write);
      case Background(change) => ChangeKeepsSafe(cfg, s, change, Next(cfg, s, step));
      case _ => LocalStepKeepsSafe(cfg, s, step);
    }
  }

  lemma {:induction false} AlwaysSafe(cfg: Config, s: State, steps: seq<Step>)
    requires Safe(cfg.prefix, s)
    ensures Safe(cfg.prefix, Run(cfg, s, steps))
    decreases |steps|
  {
    if steps != [] {
      StepKeepsSafe(cfg, s, steps[0]);
      AlwaysSafe(cfg, Next(cfg, s, steps[0]), steps[1..]);
    }
  }

  /** In every reachable state, under any mix of bad payloads, expiry, store and notifier failures,
      lost acknowledgements, redelivery and crashes: a deleted message carried a VAA that is stored
      and whose emitter's last sequence is at least its own. */
  lemma DeletedOnlyAfterStoredAndNotified(cfg: Config, steps: seq<Step>, m: Message)
    requires m in Run(cfg, INITIAL, steps).deleted
    ensures m.body.Signed?
    ensures var s, v := Run(cfg, INITIAL, steps), m.body.vaa;
            && (v.emitterChain != PYTHNET ==> IdOf(v) in s.store.vaas && s.store.vaas[IdOf(v)].vaa.sequence == v.sequence)
            && exists n: nat :: n >= v.sequence && Holds(s.keys, SequenceKey(cfg.prefix, v.emitterChain, v.emitterAddress), n)
  {
    AlwaysSafe(cfg, INITIAL, steps);
    var s, v := Run(cfg, INITIAL, steps), m.body.vaa;
    if v.emitterChain != PYTHNET {
      assert IsSaved(s.store, v);
      var w := s.store.vaas[IdOf(v)].vaa;
      MessageIdInjective(v.emitterChain, v.emitterAddress, v.sequence, w.emitterChain, w.emitterAddress, w.sequence);
    }
  }

  /** In every reachable state every last-sequence value outside PythNet is the sequence of a stored
      VAA of that emitter. */
  lemma LastSequenceIsStored(cfg: Config, steps: seq<Step>, c: ChainId, a: Address)
    requires c != PYTHNET && SequenceKey(cfg.prefix, c, a) in Run(cfg, INITIAL, steps).keys
    ensures var s := Run(cfg, INITIAL, steps);
            exists n: nat :: Holds(s.keys, SequenceKey(cfg.prefix, c, a), n) && MessageId(c, a, n) in s.store.vaas
  {
    AlwaysSafe(cfg, INITIAL, steps);
    assert IsBacked(cfg.prefix, Run(cfg, INITIAL, steps).keys, Run(cfg, INITIAL, steps).store, c, a);
  }

  // ---------------------------------------------------------------- what the store sees

  /** The store changes a run performs, in order. */
  function StoreChanges(cfg: Config, s: State, steps: seq<Step>): seq<VaaStore.Step>
    decreases |steps|
  {
    if steps == [] then [] else
      var rest := StoreChanges(cfg, Next(cfg, s, steps[0]), steps[1..]);
      if !Enabled(cfg, s, steps[0]) then rest
      else if steps[0].Persist? then [Upsert(s.worker.msg.body.vaa, s.worker.msg.body.raw, steps[0].env)] + rest
      else if steps[0].Background? then [steps[0].change] + rest
      else rest
  }

  /** The pipeline drives the store through a run of upserts, so whatever holds over all runs of
      upserts holds here, under redelivery and crashes. */
  lemma {:induction false} StoreFollowsChanges(cfg: Config, s: State, steps: seq<Step>)
    ensures Run(cfg, s, steps).store == VaaStore.Run(s.store, StoreChanges(cfg, s, steps))
    decreases |steps|
  {
    hide Save, NotifyEffect;
    if steps != [] {
      StoreFollowsChanges(cfg, Next(cfg, s, steps[0]), steps[1..]);
    }
  }

  /** The notifications a run makes, in order. */
  function Notifications(cfg: Config, s: State, steps: seq<Step>): seq<Call>
    decreases |steps|
  {
    if steps == [] then [] else
      var rest := Notifications(cfg, Next(cfg, s, steps[0]), steps[1..]);
      if Enabled(cfg, s, steps[0]) && steps[0].Notify? then [Call(s.worker.msg.body.vaa, steps[0].write)] + rest else rest
  }

  lemma StepNotifies(cfg: Config, s: State, step: Step)
    ensures Next(cfg, s, step).keys ==
            if Enabled(cfg, s, step) && step.Notify? then NotifyEffect(s.keys, cfg.prefix, Call(s.worker.msg.body.vaa, step.write)).0
            else s.keys
  {
    hide Save, NotifyEffect, Apply;
  }

  lemma {:induction false} KeysFollowNotifications(cfg: Config, s: State, steps: seq<Step>)
    ensures Run(cfg, s, steps).keys == NotifyAll(s.keys, cfg.prefix, Notifications(cfg, s, steps))
    decreases |steps|
  {
    hide Next, NotifyEffect;
    if steps != [] {
      var t := Next(cfg, s, steps[0]);
      KeysFollowNotifications(cfg, t, steps[1..]);
      StepNotifies(cfg, s, steps[0]);
      if Enabled(cfg, s, steps[0]) && steps[0].Notify? {
        NotifyAllPrepends(s.keys, cfg.prefix, Call(s.worker.msg.body.vaa, steps[0].write), Notifications(cfg, t, steps[1..]));
      }
    }
  }

  /** Under redelivery and crashes every emitter's key holds the decimal of the largest sequence a
      notification of the run brought to the store, and is absent if none did. */
  lemma LastSequenceIsMaximum(cfg: Config, steps: seq<Step>, c: ChainId, a: Address)
    ensures KeyTracks(Run(cfg, INITIAL, steps).keys, SequenceKey(cfg.prefix, c, a),
                      Reaching(Notifications(cfg, INITIAL, steps), c, a))
  {
    KeysFollowNotifications(cfg, INITIAL, steps);
    StoredIsMaximum(Notifications(cfg, INITIAL, steps), cfg.prefix, c, a);
  }

  /** However often messages are redelivered and the process restarted, a VAA outside PythNet is
      announced at most once and the chain's counter never exceeds its stored VAAs. */
  lemma RedeliveryNeverDoubles(cfg: Config, steps: seq<Step>, n: Notification)
    requires n.emitterChain != PYTHNET
    ensures var s := Run(cfg, INITIAL, steps).store;
            Attempts(s, n) <= 1 && Count(s, n.emitterChain) <= |StoredIds(s, n.emitterChain)|
  {
    var changes := StoreChanges(cfg, INITIAL, steps);
    StoreFollowsChanges(cfg, INITIAL, steps);
    AnnouncedAtMostOnce(EMPTY, changes, n);
    CountNeverExceedsStored(changes, n.emitterChain);
  }
}

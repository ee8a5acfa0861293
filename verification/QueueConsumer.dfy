/** The queue client and the consumer loop as objects (fly/queue/vaa_sqs.go,
    fly/processor/vaa_queue_consumer.go), proved to perform runs of the Pipeline protocol. */
module QueueConsumer {
  import opened Vaas
  import opened Writes
  import opened VaaStore
  import opened LastSequence
  import opened Pipeline

  /** What the environment decides while one message is handled. */
  datatype Delivery = Delivery(expired: bool, env: Env, notify: Write, delete: Write)

  /** Handling one message. Steps behind a failure are not enabled and change nothing. */
  function Consume(d: Delivery): seq<Pipeline.Step> {
    [Receive, Check(d.expired), Persist(d.env), Notify(d.notify), Delete(d.delete), Release]
  }

  function ConsumeAll(ds: seq<Delivery>): seq<Pipeline.Step> {
    if ds == [] then [] else ConsumeAll(ds[..|ds| - 1]) + Consume(ds[|ds| - 1])
  }

  function DecodableOne(m: Message): seq<Message> {
    if m.body.Undecodable? then [] else [m]
  }

  function Decodable(ms: seq<Message>): seq<Message> {
    if ms == [] then []
    else Decodable(ms[..|ms| - 1]) + DecodableOne(ms[|ms| - 1])
  }

  /** Undecodable messages are skipped; all others, with or without a VAA, are sent in order, each as often
      as it was received. */
  lemma {:induction false} DecodableKeeps(ms: seq<Message>, m: Message)
    ensures m.body == Undecodable ==> m !in Decodable(ms)
    ensures m.body != Undecodable ==> multiset(Decodable(ms))[m] == multiset(ms)[m]
  {
    if ms != [] {
      DecodableKeeps(ms[..|ms| - 1], m);
      assert ms == ms[..|ms| - 1] + [ms[|ms| - 1]];
    }
  }

  lemma {:induction false} RunAppends(cfg: Config, s: State, a: seq<Pipeline.Step>, b: seq<Pipeline.Step>)
    ensures Pipeline.Run(cfg, s, a + b) == Pipeline.Run(cfg, Pipeline.Run(cfg, s, a), b)
    decreases |a|
  {
    if a == [] {
      assert a + b == b;
    } else {
      assert (a + b)[0] == a[0] && (a + b)[1..] == a[1..] + b;
      RunAppends(cfg, Next(cfg, s, a[0]), a[1..], b);
    }
  }

  lemma RunOne(cfg: Config, s: State, step: Pipeline.Step, rest: seq<Pipeline.Step>)
    ensures Pipeline.Run(cfg, s, [step] + rest) == Pipeline.Run(cfg, Next(cfg, s, step), rest)
  {
    assert ([step] + rest)[1..] == rest;
  }

  /** Six steps, one after the other. */
  lemma RunSix(cfg: Config, s: State, d: Delivery)
    ensures Pipeline.Run(cfg, s, Consume(d)) ==
            Next(cfg, Next(cfg, Next(cfg, Next(cfg, Next(cfg, Next(cfg, s, Receive), Check(d.expired)),
              Persist(d.env)), Notify(d.notify)), Delete(d.delete)), Release)
  {
    hide Pipeline.Next;
    var s1 := Next(cfg, s, Receive);
    var s2 := Next(cfg, s1, Check(d.expired));
    var s3 := Next(cfg, s2, Persist(d.env));
    var s4 := Next(cfg, s3, Notify(d.notify));
    var s5 := Next(cfg, s4, Delete(d.delete));
    var t5: seq<Pipeline.Step> := [Release];
    var t4 := [Delete(d.delete)] + t5;
    var t3 := [Notify(d.notify)] + t4;
    var t2 := [Persist(d.env)] + t3;
    var t1 := [Check(d.expired)] + t2;
    assert Consume(d) == [Receive] + t1;
    RunOne(cfg, s, Receive, t1);
    RunOne(cfg, s1, Check(d.expired), t2);
    RunOne(cfg, s2, Persist(d.env), t3);
    RunOne(cfg, s3, Notify(d.notify), t4);
    RunOne(cfg, s4, Delete(d.delete), t5);
    RunOne(cfg, s5, Release, []);
    assert [Release] + [] == t5;
  }

  /** The stores after handling a message, and whether it ends with Done. */
  function Outcome(p: string, store: Store, keys: Keys, m: Message, d: Delivery): (Store, Keys, bool) {
    if !m.body.Signed? || d.expired then (store, keys, false)
    else
      var (store', saved) := Save(store, m.body.vaa, m.body.raw, d.env);
      if !saved then (store', keys, false)
      else
        var (keys', notified) := NotifyEffect(keys, p, Call(m.body.vaa, d.notify));
        (store', keys', notified)
  }

  /** The whole state after handling the first message on the channel. */
  function HandleFirst(cfg: Config, s: State, d: Delivery): State
    requires s.ch != []
  {
    var m := s.ch[0];
    var (store, keys, done) := Outcome(cfg.prefix, s.store, s.keys, m, d);
    var gone := done && d.delete.Applied();
    State(if gone then s.queue - {m} else s.queue, if gone then s.deleted + {m} else s.deleted,
          store, keys, s.fetcher, s.wg - 1, s.ch[1..], Idle, s.sent, s.acked + [m])
  }

  /** A message that failed goes through the remaining steps unchanged and is acknowledged. */
  lemma FailingIsReleased(cfg: Config, s: State, m: Message, d: Delivery)
    requires s.worker == Holding(m, Failing)
    ensures Next(cfg, s, Persist(d.env)) == s && Next(cfg, s, Notify(d.notify)) == s && Next(cfg, s, Delete(d.delete)) == s
    ensures Next(cfg, s, Release) == s.(wg := s.wg - 1, worker := Idle, acked := s.acked + [m])
  {
  }

  /** A message that was notified is deleted, if the delete takes effect, and acknowledged. */
  lemma NotifiedIsDeleted(cfg: Config, s: State, m: Message, d: Delivery)
    requires s.worker == Holding(m, Notified)
    ensures var gone := d.delete.Applied();
            Next(cfg, Next(cfg, s, Delete(d.delete)), Release) ==
            s.(queue := if gone then s.queue - {m} else s.queue, deleted := if gone then s.deleted + {m} else s.deleted,
               wg := s.wg - 1, worker := Idle, acked := s.acked + [m])
  {
  }

  lemma AfterCheck(cfg: Config, s: State, d: Delivery)
    requires s.ch != [] && s.worker.Idle?
    ensures Next(cfg, Next(cfg, s, Receive), Check(d.expired)) ==
            s.(ch := s.ch[1..],
               worker := Holding(s.ch[0], if s.ch[0].body.Signed? && !d.expired then Checked else Failing))
  {
  }

  lemma AfterPersist(cfg: Config, s: State, m: Message, d: Delivery)
    requires s.worker == Holding(m, Checked) && m.body.Signed?
    ensures var (store, saved) := Save(s.store, m.body.vaa, m.body.raw, d.env);
            Next(cfg, s, Persist(d.env)) == s.(store := store, worker := Holding(m, if saved then Saved else Failing))
  {
    hide Save;
  }

  lemma AfterNotify(cfg: Config, s: State, m: Message, d: Delivery)
    requires s.worker == Holding(m, Saved) && m.body.Signed?
    ensures var (keys, notified) := NotifyEffect(s.keys, cfg.prefix, Call(m.body.vaa, d.notify));
            Next(cfg, s, Notify(d.notify)) == s.(keys := keys, worker := Holding(m, if notified then Notified else Failing))
  {
    hide NotifyEffect;
  }

  /** The six steps one after the other do what handling does in one go. */
  lemma HandleIsRun(cfg: Config, s: State, d: Delivery)
    requires s.ch != [] && s.worker.Idle?
    ensures Pipeline.Run(cfg, s, Consume(d)) == HandleFirst(cfg, s, d)
  {
    hide Save, NotifyEffect, Next, Pipeline.Run;
    RunSix(cfg, s, d);
    var m := s.ch[0];
    var s2 := Next(cfg, Next(cfg, s, Receive), Check(d.expired));
    AfterCheck(cfg, s, d);
    if m.body.Signed? && !d.expired {
      var s3 := Next(cfg, s2, Persist(d.env));
      AfterPersist(cfg, s2, m, d);
      if Save(s.store, m.body.vaa, m.body.raw, d.env).1 {
        var s4 := Next(cfg, s3, Notify(d.notify));
        AfterNotify(cfg, s3, m, d);
        if NotifyEffect(s.keys, cfg.prefix, Call(m.body.vaa, d.notify)).1 {
          NotifiedIsDeleted(cfg, s4, m, d);
        } else {
          FailingIsReleased(cfg, s4, m, d);
        }
      } else {
        FailingIsReleased(cfg, s3, m, d);
      }
    } else {
      FailingIsReleased(cfg, s2, m, d);
    }
  }

  // ---------------------------------------------------------------- when a delivery deletes its message

  predicate IsStored(s: Store, v: Vaa) {
    if v.emitterChain == PYTHNET then IdOf(v) in s.vaasPythnet else IdOf(v) in s.vaas
  }

  /** The upsert is acknowledged and, for a VAA not stored before, its event is built and delivered. */
  predicate UpsertPasses(s: Store, v: Vaa, env: Env) {
    env.write.Acked? && (IsStored(s, v) || (env.eventBuilt && env.delivered))
  }

  /** Handling a message deletes it exactly when it carries a VAA and is not expired, its upsert passes,
      the notification is acknowledged and the deletion takes effect; a larger sequence stored before
      does not matter. A message without a VAA or an expired one changes nothing but the channel. */
  lemma DeliveryDeletesIff(cfg: Config, s: State, d: Delivery)
    requires s.ch != [] && s.worker.Idle? && s.ch[0] !in s.deleted
    ensures var m, t := s.ch[0], Pipeline.Run(cfg, s, Consume(d));
            && (m in t.deleted <==>
                  && m.body.Signed? && !d.expired
                  && UpsertPasses(s.store, m.body.vaa, d.env) && d.notify.Acked? && d.delete.Applied())
            && (m in t.deleted ==> m !in t.queue && t.deleted == s.deleted + {m} && t.queue == s.queue - {m})
            && (m !in t.deleted ==> t.deleted == s.deleted && t.queue == s.queue)
            && (!m.body.Signed? || d.expired ==> t.store == s.store && t.keys == s.keys)
  {
    HandleIsRun(cfg, s, d);
    hide Pipeline.Run, NotifyEffect;
    if s.ch[0].body.Signed? {
      NotifySucceedsIff(s.keys, cfg.prefix, s.ch[0].body.vaa, d.notify);
    }
  }

  /** Out of order: the key already holds a larger sequence. The message is deleted all the same and the
      key keeps the larger one. */
  lemma LateSequenceIsDeleted(cfg: Config, s: State, d: Delivery, n: nat)
    requires s.ch != [] && s.worker.Idle? && s.ch[0].body.Signed? && !d.expired
    requires UpsertPasses(s.store, s.ch[0].body.vaa, d.env) && d.notify.Acked? && d.delete.Applied()
    requires var v := s.ch[0].body.vaa;
             n > v.sequence && Holds(s.keys, SequenceKey(cfg.prefix, v.emitterChain, v.emitterAddress), n)
    ensures var v, t := s.ch[0].body.vaa, Pipeline.Run(cfg, s, Consume(d));
            s.ch[0] in t.deleted && Holds(t.keys, SequenceKey(cfg.prefix, v.emitterChain, v.emitterAddress), n)
  {
    var v := s.ch[0].body.vaa;
    HandleIsRun(cfg, s, d);
    hide Pipeline.Run;
    NotifySucceedsIff(s.keys, cfg.prefix, v, d.notify);
    ScriptKeepsMaximum(s.keys, SequenceKey(cfg.prefix, v.emitterChain, v.emitterAddress), v.sequence);
  }

  const HEALTHY := Delivery(false, Env(true, Acked, Acked, true, true), Acked, Acked)

  /** The process restarts, the message is delivered again, and nothing fails. */
  function Redelivery(m: Message): seq<Pipeline.Step> {
    [Crash, Fetch([m]), Take, Send] + Consume(HEALTHY)
  }

  lemma FetchesAfterCrash(cfg: Config, s: State, m: Message)
    requires m in s.queue && m.body.Signed?
    ensures var s1 := Next(cfg, s, Crash);
            Next(cfg, s1, Fetch([m])) == s1.(fetcher := Filling([m])) && s1.ch == [] && s1.worker.Idle?
            && s1.queue == s.queue && s1.deleted == s.deleted && s1.store == s.store
  {
    hide Save, NotifyEffect, Apply, TakeNext;
  }

  lemma TakesAndSends(cfg: Config, s: State, m: Message)
    requires s.fetcher == Filling([m]) && m.body.Signed? && s.ch == [] && s.worker.Idle?
    ensures var t := Next(cfg, Next(cfg, s, Take), Send);
            t == s.(fetcher := Filling([]), wg := s.wg + 1, ch := [m], sent := s.sent + [m])
  {
    hide Save, NotifyEffect, Apply;
    var s1 := Next(cfg, s, Take);
    assert [m][1..] == [];
    assert s1 == s.(fetcher := Sending(m, []), wg := s.wg + 1);
  }

  lemma RunFour(cfg: Config, s: State, a: Pipeline.Step, b: Pipeline.Step, c: Pipeline.Step, d: Pipeline.Step)
    ensures Pipeline.Run(cfg, s, [a, b, c, d]) == Next(cfg, Next(cfg, Next(cfg, Next(cfg, s, a), b), c), d)
  {
    hide Next;
    var s1 := Next(cfg, s, a);
    var s2 := Next(cfg, s1, b);
    var t2 := [c] + [d];
    var t1 := [b] + t2;
    assert [a, b, c, d] == [a] + t1;
    RunOne(cfg, s, a, t1);
    RunOne(cfg, s1, b, t2);
    RunOne(cfg, s2, c, [d]);
    RunSingle(cfg, Next(cfg, s2, c), d);
  }

  lemma FetchedAfterCrash(cfg: Config, s: State, m: Message)
    requires m in s.queue && m.body.Signed?
    ensures var t := Pipeline.Run(cfg, s, [Crash, Fetch([m]), Take, Send]);
            t.ch == [m] && t.worker.Idle? && t.queue == s.queue && t.deleted == s.deleted && t.store == s.store
  {
    hide Pipeline.Run, Next;
    RunFour(cfg, s, Crash, Fetch([m]), Take, Send);
    FetchesAfterCrash(cfg, s, m);
    TakesAndSends(cfg, Next(cfg, Next(cfg, s, Crash), Fetch([m])), m);
  }

  /** Whatever happened before, in every reachable state: a published message with a VAA that was not
      deleted is deleted once the process restarts and handles it without a failure. */
  lemma RedeliveryDeletes(cfg: Config, steps: seq<Pipeline.Step>, m: Message)
    requires m in Published(steps) && m.body.Signed?
    ensures m in Pipeline.Run(cfg, INITIAL, steps + Redelivery(m)).deleted
  {
    var s := Pipeline.Run(cfg, INITIAL, steps);
    NothingIsLost(cfg, steps, m);
    RunAppends(cfg, INITIAL, steps, Redelivery(m));
    RunKeepsMessages(cfg, INITIAL, steps);
    RunKeepsMessages(cfg, s, Redelivery(m));
    hide Pipeline.Run, Next;
    if m !in s.deleted {
      FetchedAfterCrash(cfg, s, m);
      RunAppends(cfg, s, [Crash, Fetch([m]), Take, Send], Consume(HEALTHY));
      DeliveryDeletesIff(cfg, Pipeline.Run(cfg, s, [Crash, Fetch([m]), Take, Send]), HEALTHY);
    }
  }

  /** Handling one more message extends the run. */
  lemma ConsumeExtends(cfg: Config, start: State, ds: seq<Delivery>, i: nat, s: State)
    requires i < |ds| && s.ch != [] && s.worker.Idle?
    requires Pipeline.Run(cfg, start, ConsumeAll(ds[..i])) == s
    ensures Pipeline.Run(cfg, start, ConsumeAll(ds[..i + 1])) == HandleFirst(cfg, s, ds[i])
  {
    hide Save, NotifyEffect, Outcome;
    assert ds[..i + 1][..i] == ds[..i];
    RunAppends(cfg, start, ConsumeAll(ds[..i]), Consume(ds[i]));
    HandleIsRun(cfg, s, ds[i]);
  }

  lemma ConsumeNothing(cfg: Config, s: State, ds: seq<Delivery>)
    ensures Pipeline.Run(cfg, s, ConsumeAll(ds[..0])) == s
  {
  }

  lemma RunNothing(cfg: Config, s: State)
    ensures Pipeline.Run(cfg, s, []) == s
  {
  }

  lemma RunSingle(cfg: Config, s: State, step: Pipeline.Step)
    ensures Pipeline.Run(cfg, s, [step]) == Next(cfg, s, step)
  {
    RunOne(cfg, s, step, []);
    assert [step] + [] == [step];
  }

  lemma RunSandwich(cfg: Config, s: State, first: Pipeline.Step, steps: seq<Pipeline.Step>, last: Pipeline.Step)
    ensures Pipeline.Run(cfg, s, [first] + steps + [last]) == Next(cfg, Pipeline.Run(cfg, Next(cfg, s, first), steps), last)
  {
    RunAppends(cfg, s, [first] + steps, [last]);
    RunOne(cfg, s, first, steps);
    RunSingle(cfg, Pipeline.Run(cfg, s, [first] + steps), last);
  }

  lemma DecodableExtends(ms: seq<Message>, i: nat)
    requires i < |ms|
    ensures Decodable(ms[..i + 1]) == Decodable(ms[..i]) + DecodableOne(ms[i])
  {
    assert ms[..i + 1][..i] == ms[..i];
  }

  /** Of the messages in order, the handled ones were acknowledged after those acknowledged before, and
      the others are on the channel. */
  predicate Flows(all: seq<Message>, handled: nat, ch: seq<Message>, before: seq<Message>, acked: seq<Message>) {
    handled <= |all| && ch == all[handled..] && acked == before + all[..handled]
  }

  lemma FlowsAtStart(ch: seq<Message>, acked: seq<Message>)
    ensures Decodable([]) == [] && Flows(ch + [], 0, ch, acked, acked)
  {
    assert ch + [] == ch && acked + [] == acked;
  }

  lemma FlowsOn(all: seq<Message>, handled: nat, ch: seq<Message>, before: seq<Message>, acked: seq<Message>, next: seq<Message>, n: nat)
    requires Flows(all, handled, ch, before, acked) && n <= |ch|
    ensures Flows(all + next, handled + n, ch[n..] + next, before, acked + ch[..n])
  {
    assert (all + next)[..handled + n] == all[..handled] + ch[..n];
  }

  class SQS {
    const size: nat
    var queue: set<Message>
    var deleted: set<Message>
    var ch: seq<Message>
    var wg: int
    var sent: seq<Message>
    var acked: seq<Message>

    constructor (size: nat)
      ensures this.size == size && queue == {} && deleted == {} && ch == [] && wg == 0 && sent == [] && acked == []
    {
      this.size := size;
      queue, deleted, ch, wg, sent, acked := {}, {}, [], 0, [], [];
    }

    method Done(m: Message, write: Write)
      modifies this
      ensures ch == old(ch) && sent == old(sent)
      ensures queue == (if write.Applied() then old(queue) - {m} else old(queue))
      ensures deleted == (if write.Applied() then old(deleted) + {m} else old(deleted))
      ensures wg == old(wg) - 1 && acked == old(acked) + [m]
    {
      if write.Applied() {
        queue, deleted := queue - {m}, deleted + {m};
      }
      wg, acked := wg - 1, acked + [m];
    }

    method Failed(m: Message)
      modifies this`wg, this`acked
      ensures wg == old(wg) - 1 && acked == old(acked) + [m]
    {
      wg, acked := wg - 1, acked + [m];
    }

    method Receive() returns (m: Message)
      requires ch != []
      modifies this`ch
      ensures m == old(ch)[0] && ch == old(ch)[1..]
    {
      m, ch := ch[0], ch[1..];
    }

    function View(store: Store, keys: Keys, f: Fetcher): State
      reads this
    {
      State(queue, deleted, store, keys, f, wg, ch, Idle, sent, acked)
    }
  }

  class VaaQueueConsumer {
    const queue: SQS
    const repository: Repository
    const notifier: LastSequenceNotifier

    constructor (queue: SQS, repository: Repository, notifier: LastSequenceNotifier)
      ensures this.queue == queue && this.repository == repository && this.notifier == notifier
    {
      this.queue, this.repository, this.notifier := queue, repository, notifier;
    }

    /** The state of the whole system between two messages. */
    function View(f: Fetcher): State
      reads queue, repository, notifier
    {
      queue.View(repository.Contents(), notifier.keys, f)
    }

    /** The body of the consumer loop for one received message. */
    method Handle(msg: Message, d: Delivery)
      modifies queue, repository, notifier`keys
      ensures queue.ch == old(queue.ch) && queue.sent == old(queue.sent)
      ensures queue.acked == old(queue.acked) + [msg] && queue.wg == old(queue.wg) - 1
      ensures var (store, keys, done) := Outcome(notifier.prefix, old(repository.Contents()), old(notifier.keys), msg, d);
              && repository.Contents() == store && notifier.keys == keys
              && queue.queue == (if done && d.delete.Applied() then old(queue.queue) - {msg} else old(queue.queue))
              && queue.deleted == (if done && d.delete.Applied() then old(queue.deleted) + {msg} else old(queue.deleted))
    {
      if !msg.body.Signed? {
        queue.Failed(msg);
        return;
      }
      if d.expired {
        queue.Failed(msg);
        return;
      }
      var ok := repository.UpsertVaa(msg.body.vaa, msg.body.raw, d.env);
      if !ok {
        queue.Failed(msg);
        return;
      }
      ok := notifier.Notify(msg.body.vaa, d.notify);
      if !ok {
        queue.Failed(msg);
        return;
      }
      queue.Done(msg, d.delete);
    }

    /** The consumer loop over the messages waiting on the channel. */
    method Start(ds: seq<Delivery>, ghost cfg: Config, ghost f: Fetcher) returns (handled: nat)
      requires cfg.prefix == notifier.prefix
      modifies queue, repository, notifier`keys
      ensures handled <= |ds| && (handled == |ds| || queue.ch == [])
      ensures handled <= |old(queue.ch)| && queue.ch == old(queue.ch)[handled..]
      ensures queue.acked == old(queue.acked) + old(queue.ch)[..handled]
      ensures queue.wg == old(queue.wg) - handled
      ensures View(f) == Pipeline.Run(cfg, old(View(f)), ConsumeAll(ds[..handled]))
    {
      hide Save, NotifyEffect, Outcome, Pipeline.Run, ConsumeAll;
      ConsumeNothing(cfg, View(f), ds);
      handled := 0;
      while handled < |ds| && queue.ch != []
        invariant handled <= |ds| && handled <= |old(queue.ch)|
        invariant queue.ch == old(queue.ch)[handled..]
        invariant queue.acked == old(queue.acked) + old(queue.ch)[..handled]
        invariant queue.wg == old(queue.wg) - handled
        invariant View(f) == Pipeline.Run(cfg, old(View(f)), ConsumeAll(ds[..handled]))
        decreases |ds| - handled
      {
        ghost var before := View(f);
        var msg := queue.Receive();
        Handle(msg, ds[handled]);
        assert View(f) == HandleFirst(cfg, before, ds[handled]);
        ConsumeExtends(cfg, old(View(f)), ds, handled, before);
        handled := handled + 1;
      }
    }

    /** Receiving and handling one message. */
    method HandleNext(d: Delivery, ghost cfg: Config, ghost f: Fetcher)
      requires queue.ch != [] && cfg.prefix == notifier.prefix
      modifies queue, repository, notifier`keys
      ensures View(f) == HandleFirst(cfg, old(View(f)), d)
      ensures queue.ch == old(queue.ch)[1..] && queue.acked == old(queue.acked) + [old(queue.ch)[0]]
      ensures queue.sent == old(queue.sent) && queue.wg == old(queue.wg) - 1
    {
      hide Save, NotifyEffect, Outcome;
      var msg := queue.Receive();
      Handle(msg, d);
    }

    /** Handling messages until the channel takes another one, while the fetching goroutine waits in its
        send. */
    method MakeRoom(ds: nat -> Delivery, first: nat, ghost cfg: Config, ghost f: Fetcher)
      returns (handled: nat, ghost steps: seq<Pipeline.Step>)
      requires cfg == Config(queue.size, notifier.prefix)
      modifies queue, repository, notifier`keys
      ensures HasRoom(cfg, View(f)) && handled <= |old(queue.ch)|
      ensures queue.ch == old(queue.ch)[handled..] && queue.acked == old(queue.acked) + old(queue.ch)[..handled]
      ensures queue.sent == old(queue.sent) && queue.wg == old(queue.wg) - handled
      ensures View(f) == Pipeline.Run(cfg, old(View(f)), steps)
    {
      hide Save, NotifyEffect, Outcome, Pipeline.Run, HandleFirst;
      handled, steps := 0, [];
      RunNothing(cfg, View(f));
      while |queue.ch| >= queue.size && queue.ch != []
        invariant handled <= |old(queue.ch)| && queue.ch == old(queue.ch)[handled..]
        invariant queue.acked == old(queue.acked) + old(queue.ch)[..handled]
        invariant queue.sent == old(queue.sent) && queue.wg == old(queue.wg) - handled
        invariant View(f) == Pipeline.Run(cfg, old(View(f)), steps)
        decreases |queue.ch|
      {
        ghost var before := View(f);
        var d := ds(first + handled);
        HandleNext(d, cfg, f);
        HandleIsRun(cfg, before, d);
        RunAppends(cfg, old(View(f)), steps, Consume(d));
        handled, steps := handled + 1, steps + Consume(d);
      }
    }

    /** The loop body of Consume for the first of the remaining messages. */
    method SendOne(rest: seq<Message>, ds: nat -> Delivery, first: nat, ghost cfg: Config)
      returns (handled: nat, ghost steps: seq<Pipeline.Step>)
      requires rest != [] && cfg == Config(queue.size, notifier.prefix)
      modifies queue, repository, notifier`keys
      ensures handled <= |old(queue.ch)|
      ensures queue.ch == old(queue.ch)[handled..] + DecodableOne(rest[0])
      ensures queue.acked == old(queue.acked) + old(queue.ch)[..handled]
      ensures queue.sent == old(queue.sent) + DecodableOne(rest[0])
      ensures queue.wg == old(queue.wg) + |DecodableOne(rest[0])| - handled
      ensures View(Filling(rest[1..])) == Pipeline.Run(cfg, old(View(Filling(rest))), steps)
    {
      hide Pipeline.Run;
      ghost var start := View(Filling(rest));
      if rest[0].body.Undecodable? {
        RunSingle(cfg, start, Take);
        return 0, [Take];
      }
      queue.wg := queue.wg + 1;
      ghost var sending := Sending(rest[0], rest[1..]);
      assert View(sending) == Next(cfg, start, Take);
      handled, steps := MakeRoom(ds, first, cfg, sending);
      ghost var ready := View(sending);
      queue.ch, queue.sent := queue.ch + [rest[0]], queue.sent + [rest[0]];
      assert View(Filling(rest[1..])) == Next(cfg, ready, Send);
      RunSandwich(cfg, start, Take, steps, Send);
      steps := [Take] + steps + [Send];
    }

    /** One round of Consume with any number of messages and any room on the channel: a send that finds
        the channel full waits until the consumer has handled enough messages. Every decodable message
        of the batch is sent, and the channel stays first in, first out. */
    method ConsumeBatch(messages: seq<Message>, ds: nat -> Delivery, ghost cfg: Config)
      returns (handled: nat, ghost steps: seq<Pipeline.Step>)
      requires cfg == Config(queue.size, notifier.prefix) && forall m :: m in messages ==> m in queue.queue
      modifies queue, repository, notifier`keys
      ensures Flows(old(queue.ch) + Decodable(messages), handled, queue.ch, old(queue.acked), queue.acked)
      ensures queue.sent == old(queue.sent) + Decodable(messages)
      ensures queue.wg == old(queue.wg) + |Decodable(messages)| - handled
      ensures View(Waiting) == Pipeline.Run(cfg, old(View(Fetching)), [Fetch(messages)] + (steps + [Take]))
    {
      hide Pipeline.Run, Flows, Decodable, DecodableOne;
      ghost var start := View(Filling(messages));
      assert start == Next(cfg, View(Fetching), Fetch(messages));
      RunNothing(cfg, start);
      FlowsAtStart(queue.ch, queue.acked);
      assert messages[..0] == [] && messages[0..] == messages;
      handled, steps := 0, [];
      var i := 0;
      while i < |messages|
        invariant 0 <= i <= |messages|
        invariant Flows(old(queue.ch) + Decodable(messages[..i]), handled, queue.ch, old(queue.acked), queue.acked)
        invariant queue.sent == old(queue.sent) + Decodable(messages[..i])
        invariant queue.wg == old(queue.wg) + |Decodable(messages[..i])| - handled
        invariant View(Filling(messages[i..])) == Pipeline.Run(cfg, start, steps)
      {
        ghost var ch, acked := queue.ch, queue.acked;
        var n;
        ghost var more;
        n, more := SendOne(messages[i..], ds, handled, cfg);
        DecodableExtends(messages, i);
        FlowsOn(old(queue.ch) + Decodable(messages[..i]), handled, ch, old(queue.acked), acked, DecodableOne(messages[i]), n);
        assert old(queue.ch) + Decodable(messages[..i]) + DecodableOne(messages[i]) == old(queue.ch) + Decodable(messages[..i + 1]);
        RunAppends(cfg, start, steps, more);
        assert messages[i..][1..] == messages[i + 1..];
        handled, steps := handled + n, steps + more;
        i := i + 1;
      }
      assert messages[..i] == messages && messages[i..] == [];
      ghost var filled := View(Filling([]));
      assert View(Waiting) == Next(cfg, filled, Take);
      RunSandwich(cfg, old(View(Fetching)), Fetch(messages), steps, Take);
      assert [Fetch(messages)] + (steps + [Take]) == [Fetch(messages)] + steps + [Take];
    }
  }
}

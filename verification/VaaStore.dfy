/** The document store of the ingestion service (fly/storage/repository.go): upserting VAAs,
    counting them per chain, and announcing each new one once. */
module VaaStore {
  import opened Wrappers
  import opened Text
  import opened Vaas
  import opened Writes

  datatype VaaDoc = VaaDoc(vaa: Vaa, raw: Bytes, txHash: string, revision: nat)

  datatype Notification = Notification(id: string, emitterChain: ChainId)

  /** The collections, and the notifications handed to the topic so far. */
  datatype Store = Store(
    vaas: map<string, VaaDoc>,
    vaasPythnet: map<string, VaaDoc>,
    vaaCounts: map<ChainId, nat>,
    vaaIdTxHash: map<string, string>,
    attempts: seq<Notification>)

  const EMPTY := Store(map[], map[], map[], map[], [])

  /** What the environment decides during one upsert. */
  datatype Env = Env(lookup: bool, write: Write, counter: Write, eventBuilt: bool, delivered: bool)

  /** The document after one upsert. An empty transaction hash is omitted from the update, so a
      hash found earlier stays. */
  function Upserted(docs: map<string, VaaDoc>, id: string, v: Vaa, raw: Bytes, txHash: string): VaaDoc {
    if id in docs then
      VaaDoc(v, raw, if txHash == "" then docs[id].txHash else txHash, docs[id].revision + 1)
    else VaaDoc(v, raw, txHash, 1)
  }

  function Count(s: Store, c: ChainId): nat {
    if c in s.vaaCounts then s.vaaCounts[c] else 0
  }

  /** The hash the non-PythNet branch puts into the document. */
  function KnownTxHash(s: Store, id: string, lookup: bool): string {
    if lookup && id in s.vaaIdTxHash then s.vaaIdTxHash[id] else ""
  }

  /** The upsert is acknowledged as an insertion: UpdateByID matched nothing. */
  predicate IsNew(s: Store, v: Vaa, env: Env) {
    env.write.Acked? && IdOf(v) !in (if v.emitterChain == PYTHNET then s.vaasPythnet else s.vaas)
  }

  /** The store after an upsert, field by field, and whether the upsert reports success. */
  function Save(s: Store, v: Vaa, raw: Bytes, env: Env): (Store, bool) {
    var id, c := IdOf(v), v.emitterChain;
    var pyth, isNew := c == PYTHNET, IsNew(s, v, env);
    (Store(
       if !pyth && env.write.Applied()
       then s.vaas[id := Upserted(s.vaas, id, v, raw, KnownTxHash(s, id, env.lookup))] else s.vaas,
       if pyth && env.write.Applied()
       then s.vaasPythnet[id := Upserted(s.vaasPythnet, id, v, raw, "")] else s.vaasPythnet,
       if isNew && env.counter.Applied() then s.vaaCounts[c := Count(s, c) + 1] else s.vaaCounts,
       s.vaaIdTxHash,
       if isNew && env.eventBuilt then s.attempts + [Notification(id, c)] else s.attempts),
     env.write.Acked? && (isNew ==> env.eventBuilt && env.delivered))
  }

  // ---------------------------------------------------------------- runs

  /** Everything that changes the store: upserts, transaction hashes learnt from observations, and
      evictions from the capped PythNet collection. */
  datatype Step =
    | Upsert(vaa: Vaa, raw: Bytes, env: Env)
    | Observe(id: string, txHash: string)
    | Evict(id: string)

  function Apply(s: Store, step: Step): Store {
    match step
    case Upsert(v, raw, env) => Save(s, v, raw, env).0
    case Observe(id, txHash) => s.(vaaIdTxHash := s.vaaIdTxHash[id := txHash])
    case Evict(id) => s.(vaasPythnet := s.vaasPythnet - {id})
  }

  function Run(s: Store, steps: seq<Step>): Store
    decreases |steps|
  {
    if steps == [] then s else Run(Apply(s, steps[0]), steps[1..])
  }

  /** No announcement of a chain outside PythNet is repeated. */
  ghost predicate NoRepeats(ns: seq<Notification>) {
    forall i, j :: 0 <= i < j < |ns| && ns[i].emitterChain != PYTHNET ==> ns[i] != ns[j]
  }

  /** Documents are filed under their own identifier, PythNet ones apart. */
  ghost predicate WellFiled(s: Store) {
    forall id :: id in s.vaas ==> IdOf(s.vaas[id].vaa) == id && s.vaas[id].vaa.emitterChain != PYTHNET
  }

  ghost predicate OnlyStoredAnnounced(s: Store) {
    forall n :: n in s.attempts && n.emitterChain != PYTHNET ==> n.id in s.vaas
  }

  ghost predicate Consistent(s: Store) {
    WellFiled(s) && OnlyStoredAnnounced(s) && NoRepeats(s.attempts)
  }

  lemma StepKeepsWellFiled(s: Store, step: Step)
    requires WellFiled(s)
    ensures WellFiled(Apply(s, step))
  {
    hide IdOf, Count, KnownTxHash;
  }

  lemma StepKeepsAnnounced(s: Store, step: Step)
    requires OnlyStoredAnnounced(s)
    ensures OnlyStoredAnnounced(Apply(s, step))
  {
    assert forall id :: id in s.vaas ==> id in Apply(s, step).vaas;
  }

  lemma StepKeepsNoRepeats(s: Store, step: Step)
    requires OnlyStoredAnnounced(s) && NoRepeats(s.attempts)
    ensures NoRepeats(Apply(s, step).attempts)
  {
    if step.Upsert? && IsNew(s, step.vaa, step.env) && step.env.eventBuilt {
      AppendKeepsNoRepeats(s.attempts, Notification(IdOf(step.vaa), step.vaa.emitterChain));
    }
  }

  lemma AppendKeepsNoRepeats(ns: seq<Notification>, n: Notification)
    requires NoRepeats(ns) && (n.emitterChain != PYTHNET ==> n !in ns)
    ensures NoRepeats(ns + [n])
  {
  }

  lemma StepKeepsConsistent(s: Store, step: Step)
    requires Consistent(s)
    ensures Consistent(Apply(s, step))
  {
    StepKeepsWellFiled(s, step);
    StepKeepsAnnounced(s, step);
    StepKeepsNoRepeats(s, step);
  }

  /** Stored VAAs of a chain. */
  ghost function StoredIds(s: Store, c: ChainId): set<string> {
    set id | id in s.vaas && s.vaas[id].vaa.emitterChain == c
  }

  predicate Inserts(s: Store, step: Step, c: ChainId) {
    step.Upsert? && step.vaa.emitterChain == c && step.env.write.Applied() && IdOf(step.vaa) !in s.vaas
  }

  /** The step stores a new VAA of the chain but its counter is not raised: the store reported an
      error for the insert, or the counter write, whose error is ignored, was lost. */
  predicate Uncounted(s: Store, step: Step, c: ChainId) {
    Inserts(s, step, c) && (!step.env.write.Acked? || !step.env.counter.Applied())
  }

  function UncountedInRun(s: Store, steps: seq<Step>, c: ChainId): nat
    decreases |steps|
  {
    if steps == [] then 0
    else (if Uncounted(s, steps[0], c) then 1 else 0) + UncountedInRun(Apply(s, steps[0]), steps[1..], c)
  }

  /** Identifiers name VAAs, so an upsert never moves a document to another chain. */
  lemma ChainOfDocumentFixed(s: Store, step: Step, id: string)
    requires Consistent(s) && id in s.vaas
    ensures id in Apply(s, step).vaas && Apply(s, step).vaas[id].vaa.emitterChain == s.vaas[id].vaa.emitterChain
  {
    if step.Upsert? && id == IdOf(step.vaa) {
      var v, w := step.vaa, s.vaas[id].vaa;
      MessageIdInjective(v.emitterChain, v.emitterAddress, v.sequence, w.emitterChain, w.emitterAddress, w.sequence);
    }
  }

  lemma StepStores(s: Store, step: Step, c: ChainId)
    requires Consistent(s) && c != PYTHNET
    ensures StoredIds(Apply(s, step), c) == StoredIds(s, c) + (if Inserts(s, step, c) then {IdOf(step.vaa)} else {})
  {
    var s' := Apply(s, step);
    forall id | id in s.vaas
      ensures id in StoredIds(s', c) <==> id in StoredIds(s, c)
    {
      ChainOfDocumentFixed(s, step, id);
    }
    forall id | id in s'.vaas && id !in s.vaas
      ensures step.Upsert? && step.env.write.Applied() && id == IdOf(step.vaa) && s'.vaas[id].vaa == step.vaa
    {
    }
  }

  lemma StepCounts(s: Store, step: Step, c: ChainId)
    requires c != PYTHNET
    ensures Count(Apply(s, step), c) - Count(s, c) + (if Uncounted(s, step, c) then 1 else 0) ==
            if Inserts(s, step, c) then 1 else 0
  {
  }

  /** Conservation over any run: newly stored VAAs of a chain are the newly counted ones plus the
      insertions whose counter write was lost. */
  lemma {:induction false} CountsConserved(s: Store, steps: seq<Step>, c: ChainId)
    requires Consistent(s) && c != PYTHNET
    ensures Consistent(Run(s, steps))
    ensures |StoredIds(Run(s, steps), c)| - |StoredIds(s, c)| ==
            Count(Run(s, steps), c) - Count(s, c) + UncountedInRun(s, steps, c)
    decreases |steps|
  {
    if steps != [] {
      StepKeepsConsistent(s, steps[0]);
      StepStores(s, steps[0], c);
      StepCounts(s, steps[0], c);
      CountsConserved(Apply(s, steps[0]), steps[1..], c);
    }
  }

  /** The per-chain counter never exceeds the number of distinct stored VAAs, and equals it exactly
      when no insertion lost its counter write. */
  lemma CountNeverExceedsStored(steps: seq<Step>, c: ChainId)
    requires c != PYTHNET
    ensures Count(Run(EMPTY, steps), c) <= |StoredIds(Run(EMPTY, steps), c)|
    ensures Count(Run(EMPTY, steps), c) == |StoredIds(Run(EMPTY, steps), c)| <==> UncountedInRun(EMPTY, steps, c) == 0
  {
    CountsConserved(EMPTY, steps, c);
    assert StoredIds(EMPTY, c) == {};
  }

  // ---------------------------------------------------------------- revisions

  function Revision(s: Store, id: string): nat {
    if id in s.vaas then s.vaas[id].revision else 0
  }

  /** An upsert of the identifier, of a PythNet VAA or of another one, that took effect. */
  predicate WritesTo(step: Step, id: string, pyth: bool) {
    step.Upsert? && IdOf(step.vaa) == id && (step.vaa.emitterChain == PYTHNET) == pyth && step.env.write.Applied()
  }

  function AppliedUpserts(steps: seq<Step>, id: string): nat {
    if steps == [] then 0 else (if WritesTo(steps[0], id, false) then 1 else 0) + AppliedUpserts(steps[1..], id)
  }

  /** A document's revision counts the upserts of its identifier that took effect. */
  lemma {:induction false} RevisionCountsUpserts(s: Store, steps: seq<Step>, id: string)
    ensures Revision(Run(s, steps), id) == Revision(s, id) + AppliedUpserts(steps, id)
    decreases |steps|
  {
    if steps != [] {
      RevisionCountsUpserts(Apply(s, steps[0]), steps[1..], id);
    }
  }

  // ---------------------------------------------------------------- announcements

  function Attempts(s: Store, n: Notification): nat {
    multiset(s.attempts)[n]
  }

  lemma {:induction false} DistinctOccurOnce(ns: seq<Notification>, n: Notification)
    requires forall i, j :: 0 <= i < j < |ns| && ns[i] == n ==> ns[i] != ns[j]
    ensures multiset(ns)[n] <= 1
  {
    if ns != [] {
      DistinctOccurOnce(ns[1..], n);
      assert ns == [ns[0]] + ns[1..];
      if ns[0] == n {
        forall j | 0 <= j < |ns[1..]|
          ensures ns[1..][j] != n
        {
          assert ns[1..][j] == ns[j + 1];
        }
      }
    }
  }

  lemma StepAnnounces(s: Store, step: Step, n: Notification)
    requires n.emitterChain != PYTHNET && n.id in s.vaas
    ensures n.id in Apply(s, step).vaas && Attempts(Apply(s, step), n) == Attempts(s, n)
  {
  }

  /** Over any run a VAA outside PythNet is announced at most once, whether or not that attempt
      succeeded and however often the VAA is delivered again; once stored it is never announced. */
  lemma {:induction false} AnnouncedAtMostOnce(s: Store, steps: seq<Step>, n: Notification)
    requires Consistent(s) && n.emitterChain != PYTHNET
    ensures Consistent(Run(s, steps))
    ensures Attempts(Run(s, steps), n) <= 1
    ensures n.id in s.vaas ==> Attempts(Run(s, steps), n) == Attempts(s, n)
    decreases |steps|
  {
    if steps == [] {
      DistinctOccurOnce(s.attempts, n);
    } else {
      StepKeepsConsistent(s, steps[0]);
      if n.id in s.vaas { StepAnnounces(s, steps[0], n); }
      AnnouncedAtMostOnce(Apply(s, steps[0]), steps[1..], n);
    }
  }

  /** What the environment decided in the upsert of a run that inserted the document. */
  function InsertingUpsert(s: Store, steps: seq<Step>, v: Vaa): Option<Env>
    decreases |steps|
  {
    if steps == [] then None
    else if Inserts(s, steps[0], v.emitterChain) && IdOf(steps[0].vaa) == IdOf(v) then Some(steps[0].env)
    else InsertingUpsert(Apply(s, steps[0]), steps[1..], v)
  }

  lemma OtherStepLeavesUnstored(s: Store, step: Step, v: Vaa)
    requires v.emitterChain != PYTHNET && IdOf(v) !in s.vaas
    requires !(Inserts(s, step, v.emitterChain) && IdOf(step.vaa) == IdOf(v))
    ensures IdOf(v) !in Apply(s, step).vaas
  {
    if step.Upsert? && IdOf(step.vaa) == IdOf(v) {
      var w := step.vaa;
      MessageIdInjective(v.emitterChain, v.emitterAddress, v.sequence, w.emitterChain, w.emitterAddress, w.sequence);
    }
  }

  lemma InsertionAnnounces(s: Store, step: Step, n: Notification)
    requires Inserts(s, step, n.emitterChain) && IdOf(step.vaa) == n.id && n.emitterChain != PYTHNET
    ensures n.id in Apply(s, step).vaas
    ensures Attempts(Apply(s, step), n) == Attempts(s, n) + if step.env.write.Acked? && step.env.eventBuilt then 1 else 0
  {
  }

  /** Over any run a VAA outside PythNet is stored if and only if some upsert inserted it, and then
      it was announced exactly once if that upsert was acknowledged and its event was built, and
      never otherwise: an insertion that took effect unacknowledged is not announced by any later
      delivery. */
  lemma {:induction false} AnnouncedIffInsertionAcknowledged(s: Store, steps: seq<Step>, v: Vaa)
    requires Consistent(s) && v.emitterChain != PYTHNET && IdOf(v) !in s.vaas
    ensures IdOf(v) in Run(s, steps).vaas <==> InsertingUpsert(s, steps, v).Some?
    ensures var found := InsertingUpsert(s, steps, v);
            Attempts(Run(s, steps), Notification(IdOf(v), v.emitterChain)) ==
            if found.Some? && found.value.write.Acked? && found.value.eventBuilt then 1 else 0
    decreases |steps|
  {
    hide Save, Consistent, IdOf;
    var n := Notification(IdOf(v), v.emitterChain);
    UnstoredUnannounced(s, n);
    if steps != [] {
      StepKeepsConsistent(s, steps[0]);
      if Inserts(s, steps[0], v.emitterChain) && IdOf(steps[0].vaa) == IdOf(v) {
        InsertionAnnounces(s, steps[0], n);
        StoredStaysAnnounced(Apply(s, steps[0]), steps[1..], n);
      } else {
        OtherStepLeavesUnstored(s, steps[0], v);
        AnnouncedIffInsertionAcknowledged(Apply(s, steps[0]), steps[1..], v);
      }
    }
  }

  lemma UnstoredUnannounced(s: Store, n: Notification)
    requires Consistent(s) && n.emitterChain != PYTHNET && n.id !in s.vaas
    ensures Attempts(s, n) == 0
  {
  }

  lemma StoredStaysAnnounced(s: Store, steps: seq<Step>, n: Notification)
    requires Consistent(s) && n.emitterChain != PYTHNET && n.id in s.vaas
    ensures n.id in Run(s, steps).vaas && Attempts(Run(s, steps), n) == Attempts(s, n)
  {
    AnnouncedAtMostOnce(s, steps, n);
    NothingIsForgotten(s, steps, n.id);
  }

  // ---------------------------------------------------------------- what the collections hold

  lemma {:induction false} RunExtends(s: Store, steps: seq<Step>, step: Step)
    ensures Run(s, steps + [step]) == Apply(Run(s, steps), step)
    decreases |steps|
  {
    if steps == [] {
      assert [] + [step] == [step] && [step][1..] == [];
    } else {
      assert (steps + [step])[1..] == steps[1..] + [step];
      RunExtends(Apply(s, steps[0]), steps[1..], step);
    }
  }

  lemma RunLast(steps: seq<Step>)
    requires steps != []
    ensures Run(EMPTY, steps) == Apply(Run(EMPTY, steps[..|steps| - 1]), steps[|steps| - 1])
  {
    hide Run, Apply;
    RunExtends(EMPTY, steps[..|steps| - 1], steps[|steps| - 1]);
    assert steps == steps[..|steps| - 1] + [steps[|steps| - 1]];
  }

  function Docs(s: Store, pyth: bool): map<string, VaaDoc> {
    if pyth then s.vaasPythnet else s.vaas
  }

  /** Step k wrote the document and nothing wrote or evicted it since. */
  ghost predicate Standing(steps: seq<Step>, k: nat, id: string, pyth: bool) {
    && k < |steps| && WritesTo(steps[k], id, pyth)
    && forall j :: k < j < |steps| ==> !WritesTo(steps[j], id, pyth) && !(pyth && steps[j] == Evict(id))
  }

  ghost predicate IsStanding(steps: seq<Step>, id: string, pyth: bool) {
    exists k: nat :: Standing(steps, k, id, pyth)
  }

  lemma StandingExtends(steps: seq<Step>, id: string, pyth: bool)
    requires steps != []
    ensures var front, last, n := steps[..|steps| - 1], steps[|steps| - 1], |steps| - 1;
            forall k: nat :: Standing(steps, k, id, pyth) <==>
              if k == n then WritesTo(last, id, pyth)
              else Standing(front, k, id, pyth) && !WritesTo(last, id, pyth) && !(pyth && last == Evict(id))
  {
    hide WritesTo;
    var front, n := steps[..|steps| - 1], |steps| - 1;
    assert forall j :: 0 <= j < n ==> front[j] == steps[j];
  }

  lemma StepWrites(s: Store, step: Step, id: string, pyth: bool)
    ensures var docs, docs' := Docs(s, pyth), Docs(Apply(s, step), pyth);
            && (WritesTo(step, id, pyth) ==> id in docs' && docs'[id].vaa == step.vaa && docs'[id].raw == step.raw)
            && (pyth && step == Evict(id) ==> id !in docs')
            && (!WritesTo(step, id, pyth) && !(pyth && step == Evict(id)) ==>
                  (id in docs' <==> id in docs) && (id in docs ==> docs'[id] == docs[id]))
  {
    hide IdOf;
  }

  /** After any run each collection holds a document for exactly the identifiers that some upsert wrote
      and that were not evicted since, and it carries the VAA and the bytes of the last such upsert,
      whatever that upsert reported. */
  lemma {:induction false} DocumentIsLastWritten(steps: seq<Step>, id: string, pyth: bool)
    ensures var docs := Docs(Run(EMPTY, steps), pyth);
            && (id in docs <==> IsStanding(steps, id, pyth))
            && forall k: nat :: Standing(steps, k, id, pyth) ==> docs[id].vaa == steps[k].vaa && docs[id].raw == steps[k].raw
  {
    if steps != [] {
      var front, last := steps[..|steps| - 1], steps[|steps| - 1];
      hide WritesTo, Apply, Standing;
      DocumentIsLastWritten(front, id, pyth);
      RunLast(steps);
      StepWrites(Run(EMPTY, front), last, id, pyth);
      StandingExtends(steps, id, pyth);
      if WritesTo(last, id, pyth) {
        assert Standing(steps, |front|, id, pyth);
      } else if !(pyth && last == Evict(id)) {
        if k: nat :| Standing(front, k, id, pyth) {
          assert k != |front| by { StandingInside(front, k, id, pyth); }
          assert Standing(steps, k, id, pyth);
        }
      }
      forall k: nat | Standing(steps, k, id, pyth)
        ensures Docs(Run(EMPTY, steps), pyth)[id].vaa == steps[k].vaa && Docs(Run(EMPTY, steps), pyth)[id].raw == steps[k].raw
      {
        StandingInside(steps, k, id, pyth);
      }
    }
  }

  lemma StandingInside(steps: seq<Step>, k: nat, id: string, pyth: bool)
    requires Standing(steps, k, id, pyth)
    ensures k < |steps|
  {
  }

  lemma PythNetStepHasNoHash(s: Store, step: Step, id: string)
    requires id in s.vaasPythnet ==> s.vaasPythnet[id].txHash == ""
    ensures id in Apply(s, step).vaasPythnet ==> Apply(s, step).vaasPythnet[id].txHash == ""
  {
    hide IdOf;
  }

  /** PythNet documents never carry a transaction hash. */
  lemma {:induction false} PythNetHasNoHash(steps: seq<Step>, id: string)
    requires id in Run(EMPTY, steps).vaasPythnet
    ensures Run(EMPTY, steps).vaasPythnet[id].txHash == ""
  {
    if steps != [] {
      var s := Run(EMPTY, steps[..|steps| - 1]);
      RunLast(steps);
      if id in s.vaasPythnet {
        PythNetHasNoHash(steps[..|steps| - 1], id);
      }
      hide Run;
      PythNetStepHasNoHash(s, steps[|steps| - 1], id);
      hide Apply;
    }
  }

  /** An upsert after any run reports success exactly when its write was acknowledged and either the VAA
      was already in its collection or its event was built and delivered. */
  lemma UpsertSucceedsIff(steps: seq<Step>, v: Vaa, raw: Bytes, env: Env)
    ensures Save(Run(EMPTY, steps), v, raw, env).1 <==>
              && env.write.Acked?
              && (IsStanding(steps, IdOf(v), v.emitterChain == PYTHNET) || (env.eventBuilt && env.delivered))
  {
    DocumentIsLastWritten(steps, IdOf(v), v.emitterChain == PYTHNET);
    hide IsStanding, IdOf;
  }

  /** The upsert that follows these steps is acknowledged as an insertion. */
  ghost predicate IsInsertion(steps: seq<Step>, step: Step) {
    step.Upsert? && step.env.write.Acked? && !IsStanding(steps, IdOf(step.vaa), step.vaa.emitterChain == PYTHNET)
  }

  ghost function CountedInsertions(steps: seq<Step>, c: ChainId): nat {
    if steps == [] then 0
    else
      var front, last := steps[..|steps| - 1], steps[|steps| - 1];
      CountedInsertions(front, c) +
      (if IsInsertion(front, last) && last.vaa.emitterChain == c && last.env.counter.Applied() then 1 else 0)
  }

  ghost function AnnouncedInsertions(steps: seq<Step>): seq<Notification> {
    if steps == [] then []
    else
      var front, last := steps[..|steps| - 1], steps[|steps| - 1];
      AnnouncedInsertions(front) +
      (if IsInsertion(front, last) && last.env.eventBuilt then [Notification(IdOf(last.vaa), last.vaa.emitterChain)] else [])
  }

  /** After any run, PythNet included, a chain's counter is the number of its acknowledged insertions
      whose counter write took effect, and the announcements are those of the acknowledged insertions
      whose event was built, in order. */
  lemma {:induction false} InsertionsCountAndAnnounce(steps: seq<Step>, c: ChainId)
    ensures Count(Run(EMPTY, steps), c) == CountedInsertions(steps, c)
    ensures Run(EMPTY, steps).attempts == AnnouncedInsertions(steps)
  {
    if steps != [] {
      var front, last := steps[..|steps| - 1], steps[|steps| - 1];
      InsertionsCountAndAnnounce(front, c);
      RunLast(steps);
      hide IdOf, IsStanding, Upserted, KnownTxHash, Run;
      if last.Upsert? {
        DocumentIsLastWritten(front, IdOf(last.vaa), last.vaa.emitterChain == PYTHNET);
      }
    }
  }

  // ---------------------------------------------------------------- transaction hashes

  predicate Observes(step: Step, id: string) {
    step.Observe? && step.id == id
  }

  /** Step i is the last observation of the identifier before step k. */
  ghost predicate LastObserved(steps: seq<Step>, i: nat, k: nat, id: string) {
    i < k <= |steps| && Observes(steps[i], id) && forall j :: i < j < k ==> !Observes(steps[j], id)
  }

  /** Step k wrote the document after a successful lookup that found the nonempty hash of step i. */
  ghost predicate FindsHash(steps: seq<Step>, i: nat, k: nat, id: string) {
    && LastObserved(steps, i, k, id) && steps[i].txHash != ""
    && k < |steps| && WritesTo(steps[k], id, false) && steps[k].env.lookup
  }

  ghost predicate LastFound(steps: seq<Step>, i: nat, k: nat, id: string) {
    FindsHash(steps, i, k, id) && forall j: nat, l: nat :: l > k ==> !FindsHash(steps, j, l, id)
  }

  function KnownHash(s: Store, id: string): Option<string> {
    if id in s.vaaIdTxHash then Some(s.vaaIdTxHash[id]) else None
  }

  lemma StepObserves(s: Store, step: Step, id: string)
    ensures KnownHash(Apply(s, step), id) == if Observes(step, id) then Some(step.txHash) else KnownHash(s, id)
  {
  }

  lemma ObservedExtends(steps: seq<Step>, id: string)
    requires steps != []
    ensures var front, last, n := steps[..|steps| - 1], steps[|steps| - 1], |steps| - 1;
            forall i: nat ::
              && (LastObserved(steps, i, |steps|, id) <==>
                    if i == n then Observes(last, id) else LastObserved(front, i, n, id) && !Observes(last, id))
              && (LastObserved(front, i, n, id) ==> i < n && front[i] == steps[i])
              && (LastObserved(steps, i, |steps|, id) ==> i < |steps|)
  {
    var front, n := steps[..|steps| - 1], |steps| - 1;
    assert forall j :: 0 <= j < n ==> front[j] == steps[j];
  }

  /** The hash is the one observed last, and there is none when nothing was observed. */
  ghost predicate IsLastHash(steps: seq<Step>, id: string, hash: Option<string>) {
    && (hash.Some? <==> exists i: nat :: LastObserved(steps, i, |steps|, id))
    && forall i: nat :: LastObserved(steps, i, |steps|, id) ==> hash == Some(steps[i].txHash)
  }

  lemma LastHashExtends(steps: seq<Step>, id: string, before: Option<string>)
    requires steps != [] && IsLastHash(steps[..|steps| - 1], id, before)
    ensures var last := steps[|steps| - 1]; IsLastHash(steps, id, if Observes(last, id) then Some(last.txHash) else before)
  {
    var front, last := steps[..|steps| - 1], steps[|steps| - 1];
    ObservedExtends(steps, id);
    hide Observes, LastObserved;
    if Observes(last, id) {
      assert LastObserved(steps, |front|, |steps|, id);
    } else if i: nat :| LastObserved(front, i, |front|, id) {
      assert LastObserved(steps, i, |steps|, id);
    }
  }

  /** The collection of hashes holds the last observation of each identifier. */
  lemma {:induction false} KnownIsLastObserved(steps: seq<Step>, id: string)
    ensures IsLastHash(steps, id, KnownHash(Run(EMPTY, steps), id))
  {
    if steps != [] {
      var front, last := steps[..|steps| - 1], steps[|steps| - 1];
      KnownIsLastObserved(front, id);
      RunLast(steps);
      StepObserves(Run(EMPTY, front), last, id);
      hide Run, Apply, Observes, IsLastHash;
      LastHashExtends(steps, id, KnownHash(Run(EMPTY, front), id));
    }
  }

  /** The hash a document holds, as the steps tell it. */
  ghost predicate HashTracks(steps: seq<Step>, id: string, txHash: string) {
    && (txHash == "" <==> forall i: nat, k: nat :: !FindsHash(steps, i, k, id))
    && forall i: nat, k: nat :: LastFound(steps, i, k, id) ==> txHash == steps[i].txHash
  }

  lemma FindsExtends(steps: seq<Step>, id: string)
    requires steps != []
    ensures var front, last, n := steps[..|steps| - 1], steps[|steps| - 1], |steps| - 1;
            && (forall i: nat, k: nat :: k < n ==> (FindsHash(steps, i, k, id) <==> FindsHash(front, i, k, id)))
            && (forall i: nat, k: nat :: FindsHash(front, i, k, id) ==> k < n && front[i] == steps[i])
            && (forall i: nat, k: nat :: FindsHash(steps, i, k, id) ==> k <= n)
            && (forall i: nat :: FindsHash(steps, i, n, id) <==>
                  LastObserved(front, i, n, id) && front[i].txHash != "" && WritesTo(last, id, false) && last.env.lookup)
  {
    var front, n := steps[..|steps| - 1], |steps| - 1;
    assert forall j :: 0 <= j < n ==> front[j] == steps[j];
    assert forall i: nat, k: nat :: k <= n ==> (LastObserved(steps, i, k, id) <==> LastObserved(front, i, k, id));
  }

  function StoredHash(s: Store, id: string): string {
    if id in s.vaas then s.vaas[id].txHash else ""
  }

  lemma StepChangesHash(s: Store, step: Step, id: string)
    ensures var found := if step.Upsert? && step.env.lookup && id in s.vaaIdTxHash then s.vaaIdTxHash[id] else "";
            StoredHash(Apply(s, step), id) == if WritesTo(step, id, false) && found != "" then found else StoredHash(s, id)
  {
    hide IdOf;
  }

  lemma TrackExtends(steps: seq<Step>, id: string, before: string, after: string)
    requires steps != [] && HashTracks(steps[..|steps| - 1], id, before)
    requires var n := |steps| - 1;
             && (forall i: nat :: FindsHash(steps, i, n, id) ==> after == steps[i].txHash && after != "")
             && ((forall i: nat :: !FindsHash(steps, i, n, id)) ==> after == before)
    ensures HashTracks(steps, id, after)
  {
    var front, n := steps[..|steps| - 1], |steps| - 1;
    FindsExtends(steps, id);
    hide FindsHash;
    if i: nat :| FindsHash(steps, i, n, id) {
    } else {
      forall i: nat, k: nat | LastFound(steps, i, k, id)
        ensures after == steps[i].txHash
      {
        assert LastFound(front, i, k, id);
      }
    }
  }

  /** Over any run the stored transaction hash is the last observation before the last upsert that took
      effect, looked the hash up and found a nonempty one. It is empty exactly when there was no such
      upsert. */
  lemma {:induction false} HashIsLastFound(steps: seq<Step>, id: string)
    ensures HashTracks(steps, id, StoredHash(Run(EMPTY, steps), id))
  {
    if steps != [] {
      var front, last, n := steps[..|steps| - 1], steps[|steps| - 1], |steps| - 1;
      HashIsLastFound(front, id);
      RunLast(steps);
      StepChangesHash(Run(EMPTY, front), last, id);
      KnownIsLastObserved(front, id);
      FindsExtends(steps, id);
      hide HashTracks, FindsHash, Apply, Run, StoredHash, WritesTo;
      TrackExtends(steps, id, StoredHash(Run(EMPTY, front), id), StoredHash(Run(EMPTY, steps), id));
    }
  }

  /** A later observation without a hash takes back the one observed before: the VAA is stored without,
      although every write and lookup succeeded. */
  lemma EmptyObservationErases(v: Vaa, raw: Bytes, txHash: string)
    requires v.emitterChain != PYTHNET
    ensures var steps := [Observe(IdOf(v), txHash), Observe(IdOf(v), ""), Upsert(v, raw, Env(true, Acked, Acked, true, true))];
            IdOf(v) in Run(EMPTY, steps).vaas && StoredHash(Run(EMPTY, steps), IdOf(v)) == ""
  {
    hide IdOf;
    var steps := [Observe(IdOf(v), txHash), Observe(IdOf(v), ""), Upsert(v, raw, Env(true, Acked, Acked, true, true))];
    var s1 := Apply(EMPTY, steps[0]);
    var s2 := Apply(s1, steps[1]);
    assert Run(EMPTY, steps) == Run(s1, steps[1..]) == Run(s2, steps[2..]) == Apply(s2, steps[2]);
  }

  // ---------------------------------------------------------------- what stays

  /** A reported success means the VAA is stored with the bytes received. */
  lemma SuccessMeansStored(s: Store, v: Vaa, raw: Bytes, env: Env)
    requires Save(s, v, raw, env).1
    ensures var docs := if v.emitterChain == PYTHNET then Save(s, v, raw, env).0.vaasPythnet else Save(s, v, raw, env).0.vaas;
            IdOf(v) in docs && docs[IdOf(v)].vaa == v && docs[IdOf(v)].raw == raw
  {
  }

  /** Stored VAAs stay stored, and a known transaction hash is never erased. */
  lemma {:induction false} NothingIsForgotten(s: Store, steps: seq<Step>, id: string)
    requires id in s.vaas
    ensures id in Run(s, steps).vaas
    ensures s.vaas[id].txHash != "" ==> Run(s, steps).vaas[id].txHash != ""
    decreases |steps|
  {
    if steps != [] {
      NothingIsForgotten(Apply(s, steps[0]), steps[1..], id);
    }
  }

  // ---------------------------------------------------------------- the repository object

  datatype UpdateResult = UpdateResult(matchedCount: nat, modifiedCount: nat, upsertedCount: nat)

  class Repository {
    var vaas: map<string, VaaDoc>
    var vaasPythnet: map<string, VaaDoc>
    var vaaCounts: map<ChainId, nat>
    var vaaIdTxHash: map<string, string>
    var attempts: seq<Notification>

    constructor ()
      ensures Contents() == EMPTY
    {
      vaas, vaasPythnet, vaaCounts, vaaIdTxHash, attempts := map[], map[], map[], map[], [];
    }

    function Contents(): Store
      reads this
    {
      Store(vaas, vaasPythnet, vaaCounts, vaaIdTxHash, attempts)
    }

    static predicate IsNewRecord(r: UpdateResult) {
      r.matchedCount == 0 && r.modifiedCount == 0 && r.upsertedCount == 1
    }

    method UpdateVaaCount(chain: ChainId, write: Write)
      modifies this`vaaCounts
      ensures vaaCounts == if write.Applied() then old(vaaCounts)[chain := old(Count(Contents(), chain)) + 1]
                           else old(vaaCounts)
    {
      if write.Applied() {
        var count := if chain in vaaCounts then vaaCounts[chain] else 0;
        vaaCounts := vaaCounts[chain := count + 1];
      }
    }

    method UpsertVaa(v: Vaa, serialized: Bytes, env: Env) returns (ok: bool)
      modifies this
      ensures (Contents(), ok) == Save(old(Contents()), v, serialized, env)
    {
      hide Upserted, IdOf;
      var id := IdOf(v);
      var result;
      if v.emitterChain == PYTHNET {
        result := if id in vaasPythnet then UpdateResult(1, 1, 0) else UpdateResult(0, 0, 1);
        if env.write.Applied() {
          vaasPythnet := vaasPythnet[id := Upserted(vaasPythnet, id, v, serialized, "")];
        }
      } else {
        var txHash := if env.lookup && id in vaaIdTxHash then vaaIdTxHash[id] else "";
        result := if id in vaas then UpdateResult(1, 1, 0) else UpdateResult(0, 0, 1);
        if env.write.Applied() {
          vaas := vaas[id := Upserted(vaas, id, v, serialized, txHash)];
        }
      }
      ok := env.write.Acked?;
      if ok && IsNewRecord(result) {
        UpdateVaaCount(v.emitterChain, env.counter);
        if !env.eventBuilt {
          return false;
        }
        attempts := attempts + [Notification(id, v.emitterChain)];
        ok := env.delivered;
      }
    }
  }
}

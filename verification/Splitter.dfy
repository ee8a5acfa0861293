/** The two bounded lanes between gossip and processing
    (fly/processor/vaa_gossip_consumer_splitter.go). One producer pushes; one consumer per lane
    receives. The PythNet lane drops its oldest entry when it is full, the other lane blocks. */
module Splitter {
  import opened Text
  import opened Vaas

  datatype Msg = Msg(value: Vaa, data: Bytes)

  /** Where Push stands: before the first select, before the inner select, before the last send, or
      before the blocking send of the other lane. */
  datatype Producer = Ready | Trying(msg: Msg) | Dropping(msg: Msg) | Sending(msg: Msg) | Blocking(msg: Msg)

  /** A lane's goroutine: at its receive, running the push function, or returned. */
  datatype Worker = Waiting | Busy | Cancelled | Drained

  /** One entry leaving the PythNet channel, to the consumer or to the dropping producer. */
  datatype Exit = Exit(msg: Msg, dropped: bool)

  datatype State = State(
    producer: Producer,
    closed: bool,
    pythCh: seq<Msg>,
    pythWorker: Worker,
    pythPushed: seq<Msg>,   // PythNet messages handed to Push
    exits: seq<Exit>,       // what left the PythNet channel, in order
    sawFull: nat,           // pushes that found the PythNet channel full
    otherCh: seq<Msg>,
    otherWorker: Worker,
    otherPushed: seq<Msg>,
    otherOut: seq<Msg>)     // what the other lane's push function received

  datatype Step =
    | Begin(msg: Msg) | TrySend | DropOldest | LastSend | BlockingSend
    | PythReceive | PythDone | OtherReceive | OtherDone
    | Close | CancelPyth | CancelOther

  const INITIAL := State(Ready, false, [], Waiting, [], [], 0, [], Waiting, [], [])

  /** A send can proceed: the buffer has room, or an unbuffered channel has a waiting receiver. */
  predicate CanSend(size: nat, ch: seq<Msg>, w: Worker) {
    |ch| < size || (size == 0 && w.Waiting?)
  }

  predicate Enabled(size: nat, s: State, step: Step) {
    match step
    case Begin(m) => s.producer.Ready? && !s.closed
    case TrySend => s.producer.Trying?
    case DropOldest => s.producer.Dropping?
    case LastSend => s.producer.Sending? && CanSend(size, s.pythCh, s.pythWorker)
    case BlockingSend => s.producer.Blocking? && CanSend(size, s.otherCh, s.otherWorker)
    case PythReceive => s.pythWorker.Waiting? && (s.pythCh != [] || s.closed)
    case PythDone => s.pythWorker.Busy?
    case OtherReceive => s.otherWorker.Waiting? && (s.otherCh != [] || s.closed)
    case OtherDone => s.otherWorker.Busy?
    case Close => s.producer.Ready?
    case CancelPyth => s.pythWorker.Waiting?
    case CancelOther => s.otherWorker.Waiting?
  }

  function Enter(size: nat, s: State, m: Msg): State {
    if size == 0
    then s.(producer := Ready, exits := s.exits + [Exit(m, false)], pythWorker := Busy)
    else s.(producer := Ready, pythCh := s.pythCh + [m])
  }

  function EnterOther(size: nat, s: State, m: Msg): State {
    if size == 0
    then s.(producer := Ready, otherOut := s.otherOut + [m], otherWorker := Busy)
    else s.(producer := Ready, otherCh := s.otherCh + [m])
  }

  function Next(size: nat, s: State, step: Step): State {
    if !Enabled(size, s, step) then s else
    match step
    case Begin(m) =>
      if m.value.emitterChain == PYTHNET then s.(producer := Trying(m), pythPushed := s.pythPushed + [m])
      else s.(producer := Blocking(m), otherPushed := s.otherPushed + [m])
    case TrySend =>
      if CanSend(size, s.pythCh, s.pythWorker) then Enter(size, s, s.producer.msg)
      else s.(producer := Dropping(s.producer.msg), sawFull := s.sawFull + 1)
    case DropOldest =>
      if s.pythCh == [] then s.(producer := Sending(s.producer.msg))
      else s.(producer := Sending(s.producer.msg), pythCh := s.pythCh[1..], exits := s.exits + [Exit(s.pythCh[0], true)])
    case LastSend => Enter(size, s, s.producer.msg)
    case BlockingSend => EnterOther(size, s, s.producer.msg)
    case PythReceive =>
      if s.pythCh == [] then s.(pythWorker := Drained)
      else s.(pythWorker := Busy, pythCh := s.pythCh[1..], exits := s.exits + [Exit(s.pythCh[0], false)])
    case PythDone => s.(pythWorker := Waiting)
    case OtherReceive =>
      if s.otherCh == [] then s.(otherWorker := Drained)
      else s.(otherWorker := Busy, otherCh := s.otherCh[1..], otherOut := s.otherOut + [s.otherCh[0]])
    case OtherDone => s.(otherWorker := Waiting)
    case Close => s.(closed := true)
    case CancelPyth => s.(pythWorker := Cancelled)
    case CancelOther => s.(otherWorker := Cancelled)
  }

  function Run(size: nat, s: State, steps: seq<Step>): State
    decreases |steps|
  {
    if steps == [] then s else Run(size, Next(size, s, steps[0]), steps[1..])
  }

  // ---------------------------------------------------------------- histories

  function Left(exits: seq<Exit>): (ms: seq<Msg>)
    ensures |ms| == |exits|
  {
    if exits == [] then [] else Left(exits[..|exits| - 1]) + [exits[|exits| - 1].msg]
  }

  /** The messages that left the PythNet channel as drops, or as deliveries. */
  function Pick(exits: seq<Exit>, dropped: bool): seq<Msg> {
    if exits == [] then []
    else
      var last := exits[|exits| - 1];
      Pick(exits[..|exits| - 1], dropped) + (if last.dropped == dropped then [last.msg] else [])
  }

  function Delivered(s: State): seq<Msg> {
    Pick(s.exits, false)
  }

  function Dropped(s: State): seq<Msg> {
    Pick(s.exits, true)
  }

  /** The PythNet message Push is working on. */
  function PythPending(p: Producer): seq<Msg> {
    if p.Trying? || p.Dropping? || p.Sending? then [p.msg] else []
  }

  function OtherPending(p: Producer): seq<Msg> {
    if p.Blocking? then [p.msg] else []
  }

  /** s results from t by deleting elements. */
  ghost predicate IsSubsequence<T>(s: seq<T>, t: seq<T>) {
    s == [] ||
    (t != [] &&
     (IsSubsequence(s, t[..|t| - 1]) || (s[|s| - 1] == t[|t| - 1] && IsSubsequence(s[..|s| - 1], t[..|t| - 1]))))
  }

  // ---------------------------------------------------------------- invariants

  ghost predicate PythOrdered(s: State) {
    Left(s.exits) + s.pythCh + PythPending(s.producer) == s.pythPushed
  }

  ghost predicate OtherOrdered(s: State) {
    s.otherOut + s.otherCh + OtherPending(s.producer) == s.otherPushed
  }

  ghost predicate BuffersBounded(size: nat, s: State) {
    && |s.pythCh| <= size && |s.otherCh| <= size
    && (size > 0 && s.producer.Sending? ==> |s.pythCh| < size)
    && (s.closed ==> s.producer.Ready?)
    && (s.pythWorker.Drained? ==> s.closed && s.pythCh == [])
    && (s.otherWorker.Drained? ==> s.closed && s.otherCh == [])
  }

  ghost predicate DropsBounded(s: State) {
    && |Dropped(s)| + (if s.producer.Dropping? then 1 else 0) <= s.sawFull <= |s.pythPushed|
    && (s.producer.Trying? ==> s.sawFull < |s.pythPushed|)
  }

  ghost predicate Bounded(size: nat, s: State) {
    BuffersBounded(size, s) && DropsBounded(s)
  }

  lemma LeftAppend(exits: seq<Exit>, e: Exit)
    ensures Left(exits + [e]) == Left(exits) + [e.msg]
    ensures Pick(exits + [e], true) == Pick(exits, true) + (if e.dropped then [e.msg] else [])
    ensures Pick(exits + [e], false) == Pick(exits, false) + (if e.dropped then [] else [e.msg])
  {
    assert (exits + [e])[..|exits|] == exits;
  }

  /** Moving the head of a buffer to the end of what left it keeps the whole order. */
  lemma HeadMoves(out: seq<Msg>, ch: seq<Msg>, pending: seq<Msg>)
    requires ch != []
    ensures out + [ch[0]] + ch[1..] + pending == out + ch + pending
  {
    assert ch == [ch[0]] + ch[1..];
  }

  lemma TailMoves(out: seq<Msg>, ch: seq<Msg>, m: Msg)
    ensures out + (ch + [m]) + [] == out + ch + [m]
    ensures ch == [] ==> (out + [m]) + ch + [] == out + ch + [m]
  {
  }

  lemma EnterKeepsOrder(size: nat, s: State, m: Msg)
    requires PythOrdered(s) && |s.pythCh| <= size && PythPending(s.producer) == [m]
    ensures PythOrdered(Enter(size, s, m))
  {
    LeftAppend(s.exits, Exit(m, false));
    TailMoves(Left(s.exits), s.pythCh, m);
  }

  lemma ExitKeepsOrder(s: State, t: State, dropped: bool)
    requires PythOrdered(s) && s.pythCh != []
    requires t.pythCh == s.pythCh[1..] && t.exits == s.exits + [Exit(s.pythCh[0], dropped)]
    requires t.pythPushed == s.pythPushed && PythPending(t.producer) == PythPending(s.producer)
    ensures PythOrdered(t)
  {
    LeftAppend(s.exits, Exit(s.pythCh[0], dropped));
    HeadMoves(Left(s.exits), s.pythCh, PythPending(s.producer));
  }

  lemma StepKeepsPythOrder(size: nat, s: State, step: Step)
    requires PythOrdered(s) && |s.pythCh| <= size
    ensures PythOrdered(Next(size, s, step))
  {
    hide Left;
    if Enabled(size, s, step) {
      if step.Begin? {
        assert Left(s.exits) + s.pythCh + [] == Left(s.exits) + s.pythCh;
      } else if step.TrySend? || step.LastSend? {
        EnterKeepsOrder(size, s, s.producer.msg);
      } else if (step.DropOldest? || step.PythReceive?) && s.pythCh != [] {
        ExitKeepsOrder(s, Next(size, s, step), step.DropOldest?);
      }
    }
  }

  lemma StepKeepsOtherOrder(size: nat, s: State, step: Step)
    requires OtherOrdered(s) && |s.otherCh| <= size
    ensures OtherOrdered(Next(size, s, step))
  {
    if s.otherCh != [] {
      assert s.otherCh == [s.otherCh[0]] + s.otherCh[1..];
    }
  }

  lemma StepKeepsBuffers(size: nat, s: State, step: Step)
    requires BuffersBounded(size, s)
    ensures BuffersBounded(size, Next(size, s, step))
  {
  }

  lemma StepKeepsDrops(size: nat, s: State, step: Step)
    requires DropsBounded(s)
    ensures DropsBounded(Next(size, s, step))
  {
    hide Left, Pick;
    if s.pythCh != [] {
      LeftAppend(s.exits, Exit(s.pythCh[0], true));
      LeftAppend(s.exits, Exit(s.pythCh[0], false));
    }
    if s.producer.Trying? || s.producer.Sending? {
      LeftAppend(s.exits, Exit(s.producer.msg, false));
    }
  }

  lemma {:induction false} AlwaysInvariant(size: nat, s: State, steps: seq<Step>)
    requires PythOrdered(s) && OtherOrdered(s) && Bounded(size, s)
    ensures var t := Run(size, s, steps); PythOrdered(t) && OtherOrdered(t) && Bounded(size, t)
    decreases |steps|
  {
    if steps != [] {
      StepKeepsPythOrder(size, s, steps[0]);
      StepKeepsOtherOrder(size, s, steps[0]);
      StepKeepsBuffers(size, s, steps[0]);
      StepKeepsDrops(size, s, steps[0]);
      AlwaysInvariant(size, Next(size, s, steps[0]), steps[1..]);
    }
  }

  // ---------------------------------------------------------------- which messages take which lane

  /** The message whose push a step begins, if it is one of PythNet or one of another chain, as asked. */
  function BegunBy(s: State, step: Step, pyth: bool): seq<Msg> {
    if step.Begin? && s.producer.Ready? && !s.closed && (step.msg.value.emitterChain == PYTHNET) == pyth then [step.msg] else []
  }

  /** The messages whose pushes begin in a run, of PythNet or of all other chains, in order. */
  function Begun(size: nat, s: State, steps: seq<Step>, pyth: bool): seq<Msg>
    decreases |steps|
  {
    if steps == [] then [] else BegunBy(s, steps[0], pyth) + Begun(size, Next(size, s, steps[0]), steps[1..], pyth)
  }

  lemma StepBegins(size: nat, s: State, step: Step)
    ensures Next(size, s, step).pythPushed == s.pythPushed + BegunBy(s, step, true)
    ensures Next(size, s, step).otherPushed == s.otherPushed + BegunBy(s, step, false)
  {
  }

  lemma {:induction false} PushedAreBegun(size: nat, s: State, steps: seq<Step>)
    ensures Run(size, s, steps).pythPushed == s.pythPushed + Begun(size, s, steps, true)
    ensures Run(size, s, steps).otherPushed == s.otherPushed + Begun(size, s, steps, false)
    decreases |steps|
  {
    hide Next, BegunBy;
    if steps == [] {
      assert s.pythPushed + [] == s.pythPushed && s.otherPushed + [] == s.otherPushed;
    } else {
      var t := Next(size, s, steps[0]);
      PushedAreBegun(size, t, steps[1..]);
      StepBegins(size, s, steps[0]);
      JoinAssociates(s.pythPushed, BegunBy(s, steps[0], true), Begun(size, t, steps[1..], true));
      JoinAssociates(s.otherPushed, BegunBy(s, steps[0], false), Begun(size, t, steps[1..], false));
    }
  }

  lemma JoinAssociates(s: seq<Msg>, t: seq<Msg>, u: seq<Msg>)
    ensures (s + t) + u == s + (t + u)
  {
  }

  lemma {:induction false} PickedWereThere(exits: seq<Exit>, dropped: bool)
    ensures forall m :: m in Pick(exits, dropped) ==> m in Left(exits)
  {
    if exits != [] {
      PickedWereThere(exits[..|exits| - 1], dropped);
    }
  }

  /** In every interleaving the two lanes take exactly the messages of PythNet and of all other chains, in
      the order of pushing; so only PythNet messages are ever dropped, and every other message was
      delivered, is buffered or is being sent, in order. */
  lemma LanesByChain(size: nat, steps: seq<Step>)
    ensures var s := Run(size, INITIAL, steps);
            && s.pythPushed == Begun(size, INITIAL, steps, true)
            && s.otherPushed == Begun(size, INITIAL, steps, false)
            && s.otherOut + s.otherCh + OtherPending(s.producer) == Begun(size, INITIAL, steps, false)
            && (forall m :: m in Dropped(s) || m in Delivered(s) ==> m.value.emitterChain == PYTHNET)
            && (forall m :: m in s.otherOut ==> m.value.emitterChain != PYTHNET)
  {
    var s := Run(size, INITIAL, steps);
    PushedAreBegun(size, INITIAL, steps);
    AlwaysInvariant(size, INITIAL, steps);
    BegunOfLane(size, INITIAL, steps, true);
    BegunOfLane(size, INITIAL, steps, false);
    PickedWereThere(s.exits, true);
    PickedWereThere(s.exits, false);
    assert forall m :: m in Left(s.exits) ==> m in s.pythPushed;
    assert forall m :: m in s.otherOut ==> m in s.otherPushed;
  }

  lemma {:induction false} BegunOfLane(size: nat, s: State, steps: seq<Step>, pyth: bool)
    ensures forall m :: m in Begun(size, s, steps, pyth) ==> (m.value.emitterChain == PYTHNET) == pyth
    decreases |steps|
  {
    hide Next;
    if steps != [] {
      BegunOfLane(size, Next(size, s, steps[0]), steps[1..], pyth);
    }
  }

  /** The first select of a push sends exactly when the channel has room or, unbuffered, the consumer
      waits; the message then follows everything delivered and buffered. */
  lemma FirstSelectSendsIff(size: nat, s: State)
    requires s.producer.Trying? && |s.pythCh| <= size
    ensures var t := Next(size, s, TrySend);
            && (t.producer.Ready? <==> |s.pythCh| < size || (size == 0 && s.pythWorker.Waiting?))
            && (t.producer.Ready? ==> Delivered(t) + t.pythCh == Delivered(s) + s.pythCh + [s.producer.msg])
            && (!t.producer.Ready? ==> t.producer == Dropping(s.producer.msg) && t.exits == s.exits && t.pythCh == s.pythCh)
  {
    LeftAppend(s.exits, Exit(s.producer.msg, false));
  }

  // ---------------------------------------------------------------- consequences

  lemma {:induction false} SubsequenceExtends<T>(s: seq<T>, t: seq<T>, u: seq<T>)
    requires IsSubsequence(s, t)
    ensures IsSubsequence(s + u, t + u)
    ensures IsSubsequence(s, t + u)
    decreases u
  {
    if u == [] {
      assert s + u == s && t + u == t;
    } else {
      var v, x := u[..|u| - 1], u[|u| - 1];
      SubsequenceExtends(s, t, v);
      assert (s + u)[..|s + u| - 1] == s + v && (t + u)[..|t + u| - 1] == t + v;
    }
  }

  lemma {:induction false} PickIsSubsequence(exits: seq<Exit>, dropped: bool)
    ensures IsSubsequence(Pick(exits, dropped), Left(exits))
  {
    if exits != [] {
      var front, last := exits[..|exits| - 1], exits[|exits| - 1];
      PickIsSubsequence(front, dropped);
      SubsequenceExtends(Pick(front, dropped), Left(front), [last.msg]);
      assert Pick(front, dropped) + [] == Pick(front, dropped);
    }
  }

  lemma {:induction false} PicksSplit(exits: seq<Exit>)
    ensures multiset(Left(exits)) == multiset(Pick(exits, true)) + multiset(Pick(exits, false))
  {
    if exits != [] {
      PicksSplit(exits[..|exits| - 1]);
    }
  }

  /** PythNet lane, every interleaving: messages pushed split exactly into delivered, dropped,
      buffered and the one being pushed; delivered messages followed by buffered ones keep the order
      of pushing; drops never outnumber the pushes that found the channel full. */
  lemma PythLaneConserves(size: nat, steps: seq<Step>)
    ensures var s := Run(size, INITIAL, steps);
            && multiset(s.pythPushed) == multiset(Delivered(s)) + multiset(Dropped(s)) + multiset(s.pythCh) + multiset(PythPending(s.producer))
            && IsSubsequence(Delivered(s) + s.pythCh, s.pythPushed)
            && |Dropped(s)| <= s.sawFull <= |s.pythPushed|
            && |s.pythCh| <= size
  {
    AlwaysInvariant(size, INITIAL, steps);
    OrderImpliesSplit(Run(size, INITIAL, steps));
  }

  lemma OrderImpliesSplit(s: State)
    requires PythOrdered(s)
    ensures multiset(s.pythPushed) == multiset(Delivered(s)) + multiset(Dropped(s)) + multiset(s.pythCh) + multiset(PythPending(s.producer))
    ensures IsSubsequence(Delivered(s) + s.pythCh, s.pythPushed)
  {
    PicksSplit(s.exits);
    assert multiset(Left(s.exits) + s.pythCh + PythPending(s.producer)) ==
           multiset(Left(s.exits)) + multiset(s.pythCh) + multiset(PythPending(s.producer));
    PickIsSubsequence(s.exits, false);
    SubsequenceExtends(Delivered(s), Left(s.exits), s.pythCh);
    SubsequenceExtends(Delivered(s) + s.pythCh, Left(s.exits) + s.pythCh, PythPending(s.producer));
  }

  /** A drop takes the oldest buffered entry, and only in a push that saw the channel full. */
  lemma DropsOldestAfterFull(size: nat, s: State, step: Step)
    requires Enabled(size, s, step)
    ensures Dropped(Next(size, s, step)) ==
            Dropped(s) + (if step.DropOldest? && s.pythCh != [] then [s.pythCh[0]] else [])
    ensures Next(size, s, step).producer.Dropping? && step.TrySend? ==> !CanSend(size, s.pythCh, s.pythWorker)
    ensures step.DropOldest? ==> s.producer.Dropping? && Next(size, s, step).producer.Sending?
  {
    hide Left, Pick;
    if s.pythCh != [] {
      LeftAppend(s.exits, Exit(s.pythCh[0], true));
      LeftAppend(s.exits, Exit(s.pythCh[0], false));
    }
    if s.producer.Trying? || s.producer.Sending? {
      LeftAppend(s.exits, Exit(s.producer.msg, false));
    }
  }

  /** One push of a PythNet message: from its Begin up to the next one, whatever else is interleaved. */
  ghost predicate IsPush(s: State, steps: seq<Step>) {
    && s.producer.Ready? && !s.closed
    && steps != [] && steps[0].Begin? && steps[0].msg.value.emitterChain == PYTHNET
    && forall k :: 0 < k < |steps| ==> !steps[k].Begin?
  }

  /** How far a push got that began with these drops and this count of full channels. */
  ghost predicate Pushing(dropped: seq<Msg>, sawFull: nat, t: State) {
    && !t.producer.Blocking?
    && (t.producer.Trying? ==> Dropped(t) == dropped && t.sawFull == sawFull)
    && (t.producer.Dropping? ==> Dropped(t) == dropped && t.sawFull == sawFull + 1)
    && (t.producer.Sending? ==> t.sawFull == sawFull + 1)
    && dropped <= Dropped(t) && |Dropped(t)| <= |dropped| + 1
    && sawFull <= t.sawFull <= sawFull + 1
    && (|Dropped(t)| > |dropped| ==> t.sawFull == sawFull + 1)
  }

  lemma StepKeepsPushing(size: nat, dropped: seq<Msg>, sawFull: nat, t: State, step: Step)
    requires Pushing(dropped, sawFull, t) && !step.Begin?
    ensures Pushing(dropped, sawFull, Next(size, t, step))
  {
    hide Left, Pick;
    if Enabled(size, t, step) {
      DropsOldestAfterFull(size, t, step);
    }
  }

  lemma {:induction false} RunKeepsPushing(size: nat, dropped: seq<Msg>, sawFull: nat, t: State, steps: seq<Step>)
    requires Pushing(dropped, sawFull, t) && forall k :: 0 <= k < |steps| ==> !steps[k].Begin?
    ensures Pushing(dropped, sawFull, Run(size, t, steps))
    decreases |steps|
  {
    if steps != [] {
      StepKeepsPushing(size, dropped, sawFull, t, steps[0]);
      RunKeepsPushing(size, dropped, sawFull, Next(size, t, steps[0]), steps[1..]);
    }
  }

  /** Each push drops at most one message, and only if this push found the channel full, in every
      interleaving with the consumers. */
  lemma PushDropsAtMostOne(size: nat, s: State, steps: seq<Step>)
    requires IsPush(s, steps)
    ensures var t := Run(size, s, steps);
            && Dropped(s) <= Dropped(t) && |Dropped(t)| <= |Dropped(s)| + 1
            && (|Dropped(t)| > |Dropped(s)| ==> t.sawFull == s.sawFull + 1)
  {
    RunKeepsPushing(size, Dropped(s), s.sawFull, Next(size, s, steps[0]), steps[1..]);
  }

  /** The other lane loses and reorders nothing. */
  lemma OtherLaneIsLossless(size: nat, steps: seq<Step>)
    ensures var s := Run(size, INITIAL, steps);
            s.otherOut + s.otherCh + OtherPending(s.producer) == s.otherPushed
  {
    AlwaysInvariant(size, INITIAL, steps);
  }

  lemma DrainedMeansHandled(size: nat, s: State)
    requires PythOrdered(s) && OtherOrdered(s) && Bounded(size, s)
    ensures s.pythWorker.Drained? ==> s.pythCh == [] && multiset(s.pythPushed) == multiset(Delivered(s)) + multiset(Dropped(s))
    ensures s.otherWorker.Drained? ==> s.otherOut == s.otherPushed
  {
    OrderImpliesSplit(s);
    if s.otherWorker.Drained? {
      assert s.otherOut + [] + [] == s.otherOut;
    }
  }

  /** After Close a lane's goroutine returns by itself only when everything buffered was handled. */
  lemma CloseDrains(size: nat, steps: seq<Step>)
    ensures var s := Run(size, INITIAL, steps);
            && (s.pythWorker.Drained? ==> s.pythCh == [] && multiset(s.pythPushed) == multiset(Delivered(s)) + multiset(Dropped(s)))
            && (s.otherWorker.Drained? ==> s.otherOut == s.otherPushed)
  {
    AlwaysInvariant(size, INITIAL, steps);
    DrainedMeansHandled(size, Run(size, INITIAL, steps));
  }

  /** A goroutine returns by itself exactly at a receive from a closed and empty channel, and once returned
      it handles nothing more. */
  lemma GoroutineEndsIff(size: nat, s: State, step: Step)
    ensures var t := Next(size, s, PythReceive);
            t.pythWorker.Drained? && !s.pythWorker.Drained? <==> s.pythWorker.Waiting? && s.closed && s.pythCh == []
    ensures var t := Next(size, s, OtherReceive);
            t.otherWorker.Drained? && !s.otherWorker.Drained? <==> s.otherWorker.Waiting? && s.closed && s.otherCh == []
    ensures s.pythWorker.Drained? || s.pythWorker.Cancelled? ==> Next(size, s, step).pythWorker == s.pythWorker
    ensures s.otherWorker.Drained? || s.otherWorker.Cancelled? ==> Next(size, s, step).otherWorker == s.otherWorker
  {
  }

  const SAMPLE := Msg(Vaa(1, 0, 0, PYTHNET, seq(32, _ => 0), 0), [])

  /** After the run Push stands before its last send and cannot proceed. */
  ghost predicate LastSendBlocked(size: nat, steps: seq<Step>) {
    var s := Run(size, INITIAL, steps);
    s.producer.Sending? && !Enabled(size, s, LastSend)
  }

  /** The last send of a PythNet push never blocks, whatever the consumer does meanwhile, exactly
      when the channel is buffered. */
  lemma LastSendNeverBlocksIffBuffered(size: nat)
    ensures (forall steps :: !LastSendBlocked(size, steps)) <==> size >= 1
  {
    if size >= 1 {
      forall steps
        ensures !LastSendBlocked(size, steps)
      {
        AlwaysInvariant(size, INITIAL, steps);
      }
    } else {
      // the first message is handed over directly; the second meets a busy consumer
      var steps := [Begin(SAMPLE), TrySend, Begin(SAMPLE), TrySend, DropOldest];
      var s1 := Next(size, INITIAL, steps[0]);
      var s2 := Next(size, s1, steps[1]);
      var s3 := Next(size, s2, steps[2]);
      var s4 := Next(size, s3, steps[3]);
      var s5 := Next(size, s4, steps[4]);
      assert Run(size, INITIAL, steps) == Run(size, s1, steps[1..]);
      assert Run(size, s1, steps[1..]) == Run(size, s2, steps[2..]);
      assert Run(size, s2, steps[2..]) == Run(size, s3, steps[3..]);
      assert Run(size, s3, steps[3..]) == Run(size, s4, steps[4..]);
      assert Run(size, s4, steps[4..]) == s5;
      assert LastSendBlocked(size, steps);
    }
  }

  // ---------------------------------------------------------------- the splitter object

  lemma {:induction false} RunExtends(size: nat, s: State, steps: seq<Step>, step: Step)
    ensures Run(size, s, steps + [step]) == Next(size, Run(size, s, steps), step)
    decreases |steps|
  {
    if steps == [] {
      assert [] + [step] == [step] && [step][1..] == [];
    } else {
      assert (steps + [step])[1..] == steps[1..] + [step];
      RunExtends(size, Next(size, s, steps[0]), steps[1..], step);
    }
  }

  /** n iterations of a lane's goroutine. */
  function PythTurns(n: nat): seq<Step> {
    if n == 0 then [] else PythTurns(n - 1) + [PythReceive, PythDone]
  }

  function OtherTurns(n: nat): seq<Step> {
    if n == 0 then [] else OtherTurns(n - 1) + [OtherReceive, OtherDone]
  }

  /** A PythNet push during which the consumer takes i, j and k turns before the first select, the
      inner select and the last send. */
  function PythPush(m: Msg, i: nat, j: nat, k: nat): seq<Step> {
    [Begin(m)] + PythTurns(i) + [TrySend] + AfterTry(j, k)
  }

  function AfterTry(j: nat, k: nat): seq<Step> {
    PythTurns(j) + [DropOldest] + PythTurns(k) + [LastSend]
  }

  class VaaGossipConsumerSplitter {
    const size: nat
    var pythCh: seq<Msg>
    var nonPythCh: seq<Msg>
    var pythHandled: seq<Msg>      // arguments of the push function, PythNet lane
    var nonPythHandled: seq<Msg>   // arguments of the push function, other lane
    ghost var trace: seq<Step>

    ghost function Now(): State
      reads this
    {
      Run(size, INITIAL, trace)
    }

    ghost predicate Matches(p: Producer)
      reads this
    {
      var s := Now();
      && size > 0 && s.producer == p && !s.closed
      && s.pythCh == pythCh && s.otherCh == nonPythCh
      && Delivered(s) == pythHandled && s.otherOut == nonPythHandled
      && s.pythWorker == Waiting && s.otherWorker == Waiting
    }

    ghost predicate Valid()
      reads this
    {
      Matches(Ready)
    }

    constructor (size: nat)
      requires size > 0
      ensures Valid() && trace == [] && this.size == size
    {
      this.size := size;
      pythCh, nonPythCh, pythHandled, nonPythHandled, trace := [], [], [], [], [];
    }

    ghost method Log(step: Step)
      modifies this`trace
      ensures trace == old(trace) + [step] && Now() == Next(size, old(Now()), step)
    {
      RunExtends(size, INITIAL, trace, step);
      trace := trace + [step];
    }

    /** One turn of the PythNet goroutine; with nothing buffered it waits and changes nothing. */
    method PythTurn(ghost p: Producer)
      requires Matches(p)
      modifies this`pythCh, this`pythHandled, this`trace
      ensures Matches(p) && trace == old(trace) + [PythReceive, PythDone]
      ensures pythHandled + pythCh == old(pythHandled + pythCh)
      ensures Now().pythPushed == old(Now().pythPushed)
    {
      hide Run, Left, Pick;
      if pythCh != [] {
        LeftAppend(Now().exits, Exit(pythCh[0], false));
        pythCh, pythHandled := pythCh[1..], pythHandled + [pythCh[0]];
      }
      Log(PythReceive);
      Log(PythDone);
    }

    method ExecutePyth(turns: nat, ghost p: Producer)
      requires Matches(p)
      modifies this`pythCh, this`pythHandled, this`trace
      ensures Matches(p) && trace == old(trace) + PythTurns(turns)
      ensures pythHandled + pythCh == old(pythHandled + pythCh)
      ensures Now().pythPushed == old(Now().pythPushed)
    {
      hide Run, Matches;
      var n := 0;
      while n < turns
        invariant n <= turns && Matches(p) && trace == old(trace) + PythTurns(n)
        invariant pythHandled + pythCh == old(pythHandled + pythCh)
        invariant Now().pythPushed == old(Now().pythPushed)
      {
        PythTurn(p);
        n := n + 1;
      }
    }

    method NonPythTurn(ghost p: Producer)
      requires Matches(p)
      modifies this`nonPythCh, this`nonPythHandled, this`trace
      ensures Matches(p) && trace == old(trace) + [OtherReceive, OtherDone]
      ensures nonPythHandled + nonPythCh == old(nonPythHandled + nonPythCh)
      ensures |nonPythCh| == if |old(nonPythCh)| == 0 then 0 else |old(nonPythCh)| - 1
    {
      hide Run, Left, Pick;
      if nonPythCh != [] {
        nonPythCh, nonPythHandled := nonPythCh[1..], nonPythHandled + [nonPythCh[0]];
      }
      Log(OtherReceive);
      Log(OtherDone);
    }

    method ExecuteNonPyth(turns: nat, ghost p: Producer)
      requires Matches(p)
      modifies this`nonPythCh, this`nonPythHandled, this`trace
      ensures Matches(p) && trace == old(trace) + OtherTurns(turns)
      ensures nonPythHandled + nonPythCh == old(nonPythHandled + nonPythCh)
      ensures |nonPythCh| == if |old(nonPythCh)| < turns then 0 else |old(nonPythCh)| - turns
    {
      hide Run, Matches;
      var n := 0;
      while n < turns
        invariant n <= turns && Matches(p) && trace == old(trace) + OtherTurns(n)
        invariant nonPythHandled + nonPythCh == old(nonPythHandled + nonPythCh)
        invariant |nonPythCh| == if |old(nonPythCh)| < n then 0 else |old(nonPythCh)| - n
      {
        NonPythTurn(p);
        n := n + 1;
      }
    }

    ghost method LogBegin(m: Msg)
      requires Valid()
      modifies this`trace
      ensures trace == old(trace) + [Begin(m)]
      ensures Matches(if m.value.emitterChain == PYTHNET then Trying(m) else Blocking(m))
      ensures Now().pythPushed == old(Now().pythPushed) + (if m.value.emitterChain == PYTHNET then [m] else [])
    {
      hide Run, Left, Pick;
      Log(Begin(m));
    }

    /** The first select of a PythNet push. */
    method SelectSend(m: Msg) returns (sent: bool)
      requires Matches(Trying(m))
      modifies this`pythCh, this`trace
      ensures Matches(if sent then Ready else Dropping(m)) && trace == old(trace) + [TrySend]
      ensures Now().pythPushed == old(Now().pythPushed)
    {
      hide Run, Left, Pick;
      sent := |pythCh| < size;
      if sent {
        pythCh := pythCh + [m];
      }
      Log(TrySend);
    }

    /** The inner select: drop the oldest entry if there still is one. */
    method SelectDrop(m: Msg)
      requires Matches(Dropping(m))
      modifies this`pythCh, this`trace
      ensures Matches(Sending(m)) && trace == old(trace) + [DropOldest]
      ensures Now().pythPushed == old(Now().pythPushed)
    {
      hide Run, Left, Pick;
      if pythCh != [] {
        LeftAppend(Now().exits, Exit(pythCh[0], true));
        pythCh := pythCh[1..];
      }
      Log(DropOldest);
    }

    /** The last send. It never finds the channel full. */
    method FinalSend(m: Msg)
      requires Matches(Sending(m))
      modifies this`pythCh, this`trace
      ensures Matches(Ready) && trace == old(trace) + [LastSend]
      ensures Now().pythPushed == old(Now().pythPushed)
    {
      AlwaysInvariant(size, INITIAL, trace);
      hide Run, Left, Pick;
      pythCh := pythCh + [m];
      Log(LastSend);
    }

    /** A select of a push that already returned does not happen. */
    ghost method Skip(step: Step)
      requires Valid() && (step.DropOldest? || step.LastSend?)
      modifies this`trace
      ensures Valid() && trace == old(trace) + [step] && Now().pythPushed == old(Now().pythPushed)
    {
      hide Run, Left, Pick;
      Log(step);
    }

    /** The consumer goes on while a push that sent at once has returned. */
    method AfterReturn(j: nat, k: nat)
      requires Valid()
      modifies this`pythCh, this`pythHandled, this`trace
      ensures Valid() && trace == old(trace) + AfterTry(j, k)
      ensures Now().pythPushed == old(Now().pythPushed)
    {
      hide Run, Matches;
      ExecutePyth(j, Ready);
      Skip(DropOldest);
      ExecutePyth(k, Ready);
      Skip(LastSend);
    }

    /** The full-channel branch of a PythNet push. */
    method DropAndSend(m: Msg, j: nat, k: nat)
      requires Matches(Dropping(m))
      modifies this`pythCh, this`pythHandled, this`trace
      ensures Valid() && trace == old(trace) + AfterTry(j, k)
      ensures Now().pythPushed == old(Now().pythPushed)
    {
      hide Run, Matches;
      ExecutePyth(j, Dropping(m));
      SelectDrop(m);
      ExecutePyth(k, Sending(m));
      FinalSend(m);
    }

    /** Push of a PythNet message, with the consumer running i, j and k turns in between. */
    method PushPyth(m: Msg, i: nat, j: nat, k: nat)
      requires Valid() && m.value.emitterChain == PYTHNET
      modifies this
      ensures Valid() && trace == old(trace) + PythPush(m, i, j, k)
      ensures Now().pythPushed == old(Now().pythPushed) + [m]
    {
      hide Run, Matches;
      LogBegin(m);
      ExecutePyth(i, Trying(m));
      var sent := SelectSend(m);
      if sent {
        AfterReturn(j, k);
      } else {
        DropAndSend(m, j, k);
      }
    }

    /** Push of any other message: the send waits until the consumer has made room. */
    method PushNonPyth(m: Msg)
      requires Valid() && m.value.emitterChain != PYTHNET
      modifies this
      ensures Valid()
      ensures trace == old(trace) + [Begin(m)] + OtherTurns(if |old(nonPythCh)| == size then 1 else 0) + [BlockingSend]
      ensures nonPythHandled + nonPythCh == old(nonPythHandled + nonPythCh) + [m]
    {
      AlwaysInvariant(size, INITIAL, trace);
      Log(Begin(m));
      if |nonPythCh| == size {
        ExecuteNonPyth(1, Blocking(m));
      }
      nonPythCh := nonPythCh + [m];
      Log(BlockingSend);
    }

    method Push(m: Msg, i: nat, j: nat, k: nat)
      requires Valid()
      modifies this
      ensures Valid()
      ensures trace == old(trace) + (if m.value.emitterChain == PYTHNET then PythPush(m, i, j, k)
                                     else [Begin(m)] + OtherTurns(if |old(nonPythCh)| == size then 1 else 0) + [BlockingSend])
    {
      if m.value.emitterChain == PYTHNET {
        PushPyth(m, i, j, k);
      } else {
        PushNonPyth(m);
      }
    }
  }
}

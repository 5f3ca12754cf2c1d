/** The Event Hubs consumer (azureeventhub/consumer.go) over a partition whose receives, dispatches and
    checkpoints succeed or fail in every possible way. */
module EventHubConsumer {
  import opened Settlements

  datatype Config = Config(settlement: Settlement, checkpoints: bool, maxBatchSize: int)

  /** What a receive does: fails, or offers some of the events that come next. */
  datatype Receive = Failed | Offered(count: nat)

  /** One cycle's outcomes, the i-th event it handles at i. */
  datatype Outcomes = Outcomes(receive: Receive, dispatch: nat -> Dispatched, checkpoint: nat -> bool)

  datatype Action<E> =
    | ReceiveFailed
    | Received(events: seq<E>)
    | Dispatch(event: E, outcome: Dispatched)
    | Checkpoint(event: E, ok: bool)

  /** What ends a cycle with an error: Run backs off before the next one. */
  predicate Fails<E>(s: Settlement, a: Action<E>) {
    match a
    case ReceiveFailed => true
    case Received(_) => false
    case Dispatch(_, outcome) => !Acknowledges(s, outcome)
    case Checkpoint(_, ok) => !ok
  }

  /** The consumer's pending remainder, the receiver's position in the partition, and what happened. */
  datatype State<E> = State(pending: seq<E>, received: nat, trace: seq<Action<E>>)

  function Limit(cfg: Config): nat { if cfg.maxBatchSize <= 0 then 100 else cfg.maxBatchSize }

  function Min(a: nat, b: nat): nat { if a <= b then a else b }

  /** The dispatch loop over a batch, from its i-th event. */
  function Drain<E>(cfg: Config, events: seq<E>, i: nat, o: Outcomes, trace: seq<Action<E>>): (seq<E>, seq<Action<E>>) {
    if events == [] then ([], trace)
    else
      var dispatched := trace + [Dispatch(events[0], o.dispatch(i))];
      if !Acknowledges(cfg.settlement, o.dispatch(i)) then (events, dispatched)
      else if !cfg.checkpoints then Drain(cfg, events[1..], i + 1, o, dispatched)
      else
        var checkpointed := dispatched + [Checkpoint(events[0], o.checkpoint(i))];
        if !o.checkpoint(i) then (events[1..], checkpointed)
        else Drain(cfg, events[1..], i + 1, o, checkpointed)
  }

  /** One receive/dispatch/checkpoint cycle. */
  function Cycle<E>(cfg: Config, stream: seq<E>, st: State<E>, o: Outcomes): (r: State<E>)
    requires st.received <= |stream|
    ensures r.received <= |stream|
  {
    if st.pending != [] then
      var (pending, trace) := Drain(cfg, st.pending, 0, o, st.trace);
      State(pending, st.received, trace)
    else
      match o.receive
      case Failed => st.(trace := st.trace + [ReceiveFailed])
      case Offered(count) =>
        var n := Min(Min(count, Limit(cfg)), |stream| - st.received);
        var events := stream[st.received..st.received + n];
        var (pending, trace) := Drain(cfg, events, 0, o, st.trace + [Received(events)]);
        State(pending, st.received + n, trace)
  }

  function RunFrom<E>(cfg: Config, stream: seq<E>, st: State<E>, run: seq<Outcomes>): (r: State<E>)
    requires st.received <= |stream|
    ensures r.received <= |stream|
    decreases |run|
  {
    if run == [] then st else RunFrom(cfg, stream, Cycle(cfg, stream, st, run[0]), run[1..])
  }

  // ---------------------------------------------------------------- the source's object

  class Consumer<E> {
    const cfg: Config
    const stream: seq<E>
    var pending: seq<E>
    var received: nat
    ghost var trace: seq<Action<E>>

    ghost predicate Valid()
      reads this
    {
      received <= |stream|
    }

    ghost function Abs(): State<E>
      reads this
    {
      State(pending, received, trace)
    }

    constructor (cfg: Config, stream: seq<E>)
      ensures this.cfg == cfg && this.stream == stream
      ensures Valid() && Abs() == State([], 0, [])
    {
      this.cfg, this.stream := cfg, stream;
      pending, received, trace := [], 0, [];
    }

    /** receiveAndDispatch; false is the source's error, after which Run backs off. */
    method ReceiveAndDispatch(o: Outcomes) returns (ok: bool)
      requires Valid()
      modifies this
      ensures Valid() && Abs() == Cycle(cfg, stream, old(Abs()), o)
      ensures old(trace) <= trace
      ensures ok <==> forall i | |old(trace)| <= i < |trace| :: !Fails(cfg.settlement, trace[i])
    {
      var events := pending;
      if |events| == 0 {
        match o.receive {
          case Failed =>
            trace := trace + [ReceiveFailed];
            assert Fails(cfg.settlement, trace[|trace| - 1]);
            return false;
          case Offered(count) =>
            var n := Min(Min(count, Limit(cfg)), |stream| - received);
            events := stream[received..received + n];
            received := received + n;
            trace := trace + [Received(events)];
        }
      }
      ok := DispatchBatch(events, o);
    }

    /** The dispatch loop: stops at the first event not acknowledged, and holds it and the rest. */
    method DispatchBatch(events: seq<E>, o: Outcomes) returns (ok: bool)
      modifies `pending, `trace
      ensures (pending, trace) == Drain(cfg, events, 0, o, old(trace))
      ensures old(trace) <= trace
      ensures ok <==> forall i | |old(trace)| <= i < |trace| :: !Fails(cfg.settlement, trace[i])
    {
      pending := [];
      var i := 0;
      assert events[0..] == events;
      while i < |events|
        invariant 0 <= i <= |events| && pending == []
        invariant Drain(cfg, events[i..], i, o, trace) == Drain(cfg, events, 0, o, old(trace))
        invariant old(trace) <= trace
        invariant forall j | |old(trace)| <= j < |trace| :: !Fails(cfg.settlement, trace[j])
      {
        var event := events[i];
        assert events[i..][0] == event && events[i..][1..] == events[i + 1..];
        trace := trace + [Dispatch(event, o.dispatch(i))];
        if !Acknowledges(cfg.settlement, o.dispatch(i)) {
          pending := events[i..];
          assert Fails(cfg.settlement, trace[|trace| - 1]);
          return false;
        }
        if cfg.checkpoints {
          trace := trace + [Checkpoint(event, o.checkpoint(i))];
          if !o.checkpoint(i) {
            pending := events[i + 1..];
            assert Fails(cfg.settlement, trace[|trace| - 1]);
            return false;
          }
        }
        i := i + 1;
      }
      return true;
    }

    /** Run, until it is cancelled after the given cycles. */
    method Run(run: seq<Outcomes>)
      requires Valid()
      modifies this
      ensures Valid() && Abs() == RunFrom(cfg, stream, old(Abs()), run)
    {
      var i := 0;
      assert run[0..] == run;
      while i < |run|
        invariant 0 <= i <= |run| && Valid()
        invariant RunFrom(cfg, stream, Abs(), run[i..]) == RunFrom(cfg, stream, old(Abs()), run)
      {
        assert run[i..][0] == run[i] && run[i..][1..] == run[i + 1..];
        var _ := ReceiveAndDispatch(run[i]);
        i := i + 1;
      }
    }
  }

  // ---------------------------------------------------------------- what every run keeps

  /** The events acknowledged so far, in order. */
  function Settled<E>(s: Settlement, trace: seq<Action<E>>): seq<E> {
    if trace == [] then []
    else
      var last := trace[|trace| - 1];
      Settled(s, trace[..|trace| - 1])
      + if last.Dispatch? && Acknowledges(s, last.outcome) then [last.event] else []
  }

  lemma SettledOneMore<E>(s: Settlement, trace: seq<Action<E>>, a: Action<E>)
    ensures Settled(s, trace + [a])
      == Settled(s, trace) + if a.Dispatch? && Acknowledges(s, a.outcome) then [a.event] else []
  {
    assert (trace + [a])[..|trace|] == trace;
  }

  /** What an action may be, after those before it. A dispatch is of the event that follows the settled
      ones. A checkpoint is of the event just acknowledged - the last settled one - so the durable
      position never passes an event that is not settled. */
  ghost predicate Lawful<E>(s: Settlement, stream: seq<E>, before: seq<Action<E>>, a: Action<E>) {
    var k := |Settled(s, before)|;
    match a
    case Dispatch(e, _) => k < |stream| && e == stream[k]
    case Checkpoint(e, _) =>
      && before != [] && var last := before[|before| - 1];
      && last.Dispatch? && last.event == e && Acknowledges(s, last.outcome)
      && 0 < k <= |stream| && e == stream[k - 1]
    case _ => true
  }

  /** Every action is lawful, and nothing is lost, duplicated or reordered: the settled events, then the
      rest, are the stream. */
  ghost predicate Safe<E>(s: Settlement, stream: seq<E>, rest: seq<E>, trace: seq<Action<E>>) {
    && Settled(s, trace) + rest == stream
    && forall p | 0 <= p < |trace| :: Lawful(s, stream, trace[..p], trace[p])
  }

  lemma SafeOneMore<E>(s: Settlement, stream: seq<E>, rest: seq<E>, trace: seq<Action<E>>, a: Action<E>, rest': seq<E>)
    requires Safe(s, stream, rest, trace) && Lawful(s, stream, trace, a)
    requires Settled(s, trace + [a]) + rest' == stream
    ensures Safe(s, stream, rest', trace + [a])
  {
    hide Lawful, Settled;
    var longer := trace + [a];
    forall p | 0 <= p < |longer| ensures Lawful(s, stream, longer[..p], longer[p]) {
      if p < |trace| {
        assert longer[..p] == trace[..p];
      } else {
        assert longer[..p] == trace;
      }
    }
  }

  /** Any step that is no dispatch and no checkpoint. */
  lemma QuietStep<E>(s: Settlement, stream: seq<E>, rest: seq<E>, trace: seq<Action<E>>, a: Action<E>)
    requires Safe(s, stream, rest, trace) && !a.Dispatch? && !a.Checkpoint?
    ensures Safe(s, stream, rest, trace + [a])
  {
    SettledOneMore(s, trace, a);
    SafeOneMore(s, stream, rest, trace, a, rest);
  }

  /** Dispatching the next unsettled event. */
  lemma DispatchStep<E>(s: Settlement, stream: seq<E>, rest: seq<E>, trace: seq<Action<E>>, d: Dispatched)
    requires Safe(s, stream, rest, trace) && rest != []
    ensures Safe(s, stream, if Acknowledges(s, d) then rest[1..] else rest, trace + [Dispatch(rest[0], d)])
  {
    var a := Dispatch(rest[0], d);
    SettledOneMore(s, trace, a);
    hide Settled;
    assert stream[|Settled(s, trace)|] == rest[0];
    assert rest == [rest[0]] + rest[1..];
    SafeOneMore(s, stream, rest, trace, a, if Acknowledges(s, d) then rest[1..] else rest);
  }

  /** Checkpointing the event just acknowledged. */
  lemma CheckpointStep<E>(s: Settlement, stream: seq<E>, rest: seq<E>, before: seq<Action<E>>, e: E,
      d: Dispatched, ok: bool)
    requires Safe(s, stream, rest, before + [Dispatch(e, d)]) && Acknowledges(s, d)
    ensures Safe(s, stream, rest, before + [Dispatch(e, d)] + [Checkpoint(e, ok)])
  {
    var trace := before + [Dispatch(e, d)];
    SettledOneMore(s, before, Dispatch(e, d));
    SettledOneMore(s, trace, Checkpoint(e, ok));
    hide Settled;
    assert stream[|Settled(s, before)|] == e;
    SafeOneMore(s, stream, rest, trace, Checkpoint(e, ok), rest);
  }

  lemma {:induction false} DrainSafe<E>(cfg: Config, stream: seq<E>, events: seq<E>, later: seq<E>, i: nat,
      o: Outcomes, trace: seq<Action<E>>)
    requires Safe(cfg.settlement, stream, events + later, trace)
    ensures var (pending, trace') := Drain(cfg, events, i, o, trace);
      Safe(cfg.settlement, stream, pending + later, trace')
  {
    if events == [] {
      assert events + later == [] + later;
    } else {
      var s, rest := cfg.settlement, events + later;
      assert rest[0] == events[0] && rest[1..] == events[1..] + later;
      var dispatched := trace + [Dispatch(events[0], o.dispatch(i))];
      DispatchStep(s, stream, rest, trace, o.dispatch(i));
      if Acknowledges(s, o.dispatch(i)) {
        if !cfg.checkpoints {
          DrainSafe(cfg, stream, events[1..], later, i + 1, o, dispatched);
        } else {
          CheckpointStep(s, stream, events[1..] + later, trace, events[0], o.dispatch(i), o.checkpoint(i));
          if o.checkpoint(i) {
            DrainSafe(cfg, stream, events[1..], later, i + 1, o, dispatched + [Checkpoint(events[0], true)]);
          }
        }
      }
    }
  }

  ghost predicate SafeState<E>(cfg: Config, stream: seq<E>, st: State<E>) {
    st.received <= |stream| && Safe(cfg.settlement, stream, st.pending + stream[st.received..], st.trace)
  }

  lemma CycleSafe<E>(cfg: Config, stream: seq<E>, st: State<E>, o: Outcomes)
    requires SafeState(cfg, stream, st)
    ensures SafeState(cfg, stream, Cycle(cfg, stream, st, o))
  {
    hide Safe;
    var rest := stream[st.received..];
    if st.pending != [] {
      DrainSafe(cfg, stream, st.pending, rest, 0, o, st.trace);
    } else {
      match o.receive
      case Failed => QuietStep(cfg.settlement, stream, st.pending + rest, st.trace, ReceiveFailed);
      case Offered(count) =>
        var n := Min(Min(count, Limit(cfg)), |stream| - st.received);
        var events := stream[st.received..st.received + n];
        assert st.pending + rest == events + stream[st.received + n..];
        QuietStep(cfg.settlement, stream, st.pending + rest, st.trace, Received(events));
        DrainSafe(cfg, stream, events, stream[st.received + n..], 0, o, st.trace + [Received(events)]);
    }
  }

  /** Over every run of a new consumer: settled, pending and unreceived events make up the stream; no
      event is dispatched before its predecessor was acknowledged; every checkpointed event was
      acknowledged, and is the last that was. */
  lemma {:induction false} RunSafe<E>(cfg: Config, stream: seq<E>, st: State<E>, run: seq<Outcomes>)
    requires SafeState(cfg, stream, st)
    ensures SafeState(cfg, stream, RunFrom(cfg, stream, st, run))
    decreases |run|
  {
    if run != [] {
      CycleSafe(cfg, stream, st, run[0]);
      RunSafe(cfg, stream, Cycle(cfg, stream, st, run[0]), run[1..]);
    }
  }

  lemma NewConsumerRunSafe<E>(cfg: Config, stream: seq<E>, run: seq<Outcomes>)
    ensures var st := RunFrom(cfg, stream, State([], 0, []), run);
      SafeState(cfg, stream, st)
  {
    assert [] + stream[0..] == stream;
    RunSafe(cfg, stream, State([], 0, []), run);
  }

  /** Under the zero settlement every checkpointed event had a successful dispatch. */
  lemma ZeroSettlementCheckpointsSuccesses<E>(cfg: Config, stream: seq<E>, run: seq<Outcomes>, p: nat)
    requires cfg.settlement == ZERO
    requires var trace := RunFrom(cfg, stream, State([], 0, []), run).trace; p < |trace| && trace[p].Checkpoint?
    ensures var trace := RunFrom(cfg, stream, State([], 0, []), run).trace;
      p > 0 && trace[p - 1].Dispatch? && trace[p - 1].event == trace[p].event && trace[p - 1].outcome.successful
  {
    NewConsumerRunSafe(cfg, stream, run);
  }

  // ---------------------------------------------------------------- what every cycle does

  /** The cycle goes no further than its j-th event. */
  predicate StopsAt(cfg: Config, o: Outcomes, j: nat) {
    !Acknowledges(cfg.settlement, o.dispatch(j)) || (cfg.checkpoints && !o.checkpoint(j))
  }

  /** The events a cycle works on: what is pending, otherwise what it is offered, at most a batch. */
  function Batch<E>(cfg: Config, stream: seq<E>, st: State<E>, o: Outcomes): seq<E>
    requires st.received <= |stream|
  {
    if st.pending != [] then st.pending
    else if o.receive.Failed? then []
    else
      var most := if cfg.maxBatchSize <= 0 then 100 else cfg.maxBatchSize;
      var left := |stream| - st.received;
      var n := if o.receive.count <= most && o.receive.count <= left then o.receive.count
               else if most <= left then most else left;
      stream[st.received..st.received + n]
  }

  /** Each of the first m events is dispatched and then, where checkpoints are configured and the dispatch is
      acknowledged, checkpointed. */
  function ActionsOf<E>(cfg: Config, batch: seq<E>, o: Outcomes, m: nat): seq<Action<E>>
    requires m <= |batch|
  {
    if m == 0 then []
    else
      ActionsOf(cfg, batch, o, m - 1) + [Dispatch(batch[m - 1], o.dispatch(m - 1))]
      + if cfg.checkpoints && Acknowledges(cfg.settlement, o.dispatch(m - 1))
        then [Checkpoint(batch[m - 1], o.checkpoint(m - 1))] else []
  }

  /** The dispatch loop's first stop, and what it leaves. */
  lemma {:induction false} DrainStops<E>(cfg: Config, batch: seq<E>, i: nat, o: Outcomes, trace: seq<Action<E>>)
    returns (k: nat)
    requires i <= |batch|
    ensures i <= k <= |batch| && (forall j | i <= j < k :: !StopsAt(cfg, o, j)) && (k < |batch| ==> StopsAt(cfg, o, k))
    ensures Drain(cfg, batch[i..], i, o, trace + ActionsOf(cfg, batch, o, i)) == (
      if k == |batch| then ([], trace + ActionsOf(cfg, batch, o, |batch|))
      else (if Acknowledges(cfg.settlement, o.dispatch(k)) then batch[k + 1..] else batch[k..],
            trace + ActionsOf(cfg, batch, o, k + 1)))
    decreases |batch| - i
  {
    k := i;
    if i < |batch| {
      var so, event := ActionsOf(cfg, batch, o, i), batch[i];
      assert batch[i..][0] == event && batch[i..][1..] == batch[i + 1..];
      assert trace + so + [Dispatch(event, o.dispatch(i))] == trace + (so + [Dispatch(event, o.dispatch(i))]);
      assert trace + (so + [Dispatch(event, o.dispatch(i))]) + [Checkpoint(event, o.checkpoint(i))]
        == trace + (so + [Dispatch(event, o.dispatch(i))] + [Checkpoint(event, o.checkpoint(i))]);
      assert so + [Dispatch(event, o.dispatch(i))] + [] == so + [Dispatch(event, o.dispatch(i))];
      if !StopsAt(cfg, o, i) {
        k := DrainStops(cfg, batch, i + 1, o, trace);
      }
    }
  }

  /** What a cycle records before its events. */
  function Opening<E>(cfg: Config, stream: seq<E>, st: State<E>, o: Outcomes): seq<Action<E>>
    requires st.received <= |stream|
  {
    if st.pending != [] then []
    else if o.receive.Failed? then [ReceiveFailed]
    else [Received(Batch(cfg, stream, st, o))]
  }

  /** A cycle dispatches its batch from the first event, up to and including the first whose dispatch is not
      acknowledged or whose checkpoint fails. It keeps for the next cycle what comes after a failed checkpoint,
      and a failed event with all that follow it. */
  lemma CycleGoesOn<E>(cfg: Config, stream: seq<E>, st: State<E>, o: Outcomes) returns (k: nat)
    requires st.received <= |stream|
    ensures var batch, st' := Batch(cfg, stream, st, o), Cycle(cfg, stream, st, o);
      && k <= |batch| && (forall j | 0 <= j < k :: !StopsAt(cfg, o, j)) && (k < |batch| ==> StopsAt(cfg, o, k))
      && st'.trace == st.trace + Opening(cfg, stream, st, o)
           + ActionsOf(cfg, batch, o, if k < |batch| then k + 1 else k)
      && st'.received == st.received + (if st.pending != [] then 0 else |batch|)
      && st'.pending == (
           if k == |batch| then []
           else if Acknowledges(cfg.settlement, o.dispatch(k)) then batch[k + 1..]
           else batch[k..])
  {
    var batch, before := Batch(cfg, stream, st, o), st.trace + Opening(cfg, stream, st, o);
    assert batch[0..] == batch && before + [] == before && st.trace + [] == st.trace;
    k := DrainStops(cfg, batch, 0, o, before);
  }

  // ---------------------------------------------------------------- checkpoints happen

  ghost predicate CheckpointsNext<E>(trace: seq<Action<E>>, p: nat)
    requires p < |trace| && trace[p].Dispatch?
  {
    p + 1 < |trace| && trace[p + 1].Checkpoint? && trace[p + 1].event == trace[p].event
  }

  /** Where checkpoints are configured, a dispatch is followed at once by the checkpoint of its event exactly
      when the message may be forgotten; where none are, there is no checkpoint. */
  ghost predicate Checkpointed<E>(cfg: Config, trace: seq<Action<E>>) {
    if cfg.checkpoints then
      forall p | 0 <= p < |trace| && trace[p].Dispatch? ::
        CheckpointsNext(trace, p) <==> MayForget(cfg.settlement, trace[p].outcome)
    else forall p | 0 <= p < |trace| :: !trace[p].Checkpoint?
  }

  lemma CheckpointedTogether<E>(cfg: Config, a: seq<Action<E>>, b: seq<Action<E>>)
    requires Checkpointed(cfg, a) && Checkpointed(cfg, b) && (b != [] ==> !b[0].Checkpoint?)
    ensures Checkpointed(cfg, a + b)
  {
    var t := a + b;
    if cfg.checkpoints {
      forall p | 0 <= p < |t| && t[p].Dispatch?
        ensures CheckpointsNext(t, p) <==> MayForget(cfg.settlement, t[p].outcome)
      {
        if p < |a| {
          assert CheckpointsNext(a, p) <==> CheckpointsNext(t, p);
        } else {
          assert CheckpointsNext(b, p - |a|) <==> CheckpointsNext(t, p);
        }
      }
    }
  }

  lemma {:induction false} ActionsCheckpointed<E>(cfg: Config, batch: seq<E>, o: Outcomes, m: nat)
    requires m <= |batch|
    ensures Checkpointed(cfg, ActionsOf(cfg, batch, o, m))
    ensures m > 0 ==> ActionsOf(cfg, batch, o, m)[0].Dispatch?
  {
    if m == 0 {
    } else {
      ActionsCheckpointed(cfg, batch, o, m - 1);
      var d := Dispatch(batch[m - 1], o.dispatch(m - 1));
      var last := [d] + if cfg.checkpoints && Acknowledges(cfg.settlement, o.dispatch(m - 1))
                        then [Checkpoint(batch[m - 1], o.checkpoint(m - 1))] else [];
      CheckpointedTogether(cfg, ActionsOf(cfg, batch, o, m - 1), last);
      assert ActionsOf(cfg, batch, o, m) == ActionsOf(cfg, batch, o, m - 1) + last;
    }
  }

  /** Over every run, a dispatch is checkpointed at once, if checkpoints are configured, exactly when its message
      may be forgotten; nothing else is. */
  lemma {:induction false} RunCheckpoints<E>(cfg: Config, stream: seq<E>, st: State<E>, run: seq<Outcomes>)
    requires st.received <= |stream| && Checkpointed(cfg, st.trace)
    ensures Checkpointed(cfg, RunFrom(cfg, stream, st, run).trace)
    decreases |run|
  {
    if run != [] {
      var batch, start := Batch(cfg, stream, st, run[0]), Opening(cfg, stream, st, run[0]);
      var k := CycleGoesOn(cfg, stream, st, run[0]);
      var m := if k < |batch| then k + 1 else k;
      ActionsCheckpointed(cfg, batch, run[0], m);
      CheckpointedTogether(cfg, st.trace, start);
      CheckpointedTogether(cfg, st.trace + start, ActionsOf(cfg, batch, run[0], m));
      RunCheckpoints(cfg, stream, Cycle(cfg, stream, st, run[0]), run[1..]);
    }
  }

  // ---------------------------------------------------------------- runs get on

  /** The cycle has something to work on, if there is anything left, and its first dispatch is acknowledged. */
  predicate Productive(cfg: Config, o: Outcomes) {
    o.receive.Offered? && o.receive.count > 0 && Acknowledges(cfg.settlement, o.dispatch(0))
  }

  lemma {:induction false} SettledTogether<E>(s: Settlement, a: seq<Action<E>>, b: seq<Action<E>>)
    ensures Settled(s, a + b) == Settled(s, a) + Settled(s, b)
    decreases |b|
  {
    if b == [] {
      assert a + b == a;
    } else {
      var init, last := b[..|b| - 1], b[|b| - 1];
      SettledTogether(s, a, init);
      assert a + b == a + init + [last] && b == init + [last];
      SettledOneMore(s, a + init, last);
      SettledOneMore(s, init, last);
    }
  }

  lemma {:induction false} FirstSettles<E>(cfg: Config, batch: seq<E>, o: Outcomes, m: nat)
    requires 0 < m <= |batch| && Acknowledges(cfg.settlement, o.dispatch(0))
    ensures |Settled(cfg.settlement, ActionsOf(cfg, batch, o, m))| >= 1
  {
    var s, before := cfg.settlement, ActionsOf(cfg, batch, o, m - 1);
    var d := Dispatch(batch[m - 1], o.dispatch(m - 1));
    SettledOneMore(s, before, d);
    if cfg.checkpoints && Acknowledges(s, o.dispatch(m - 1)) {
      SettledOneMore(s, before + [d], Checkpoint(batch[m - 1], o.checkpoint(m - 1)));
    } else {
      assert before + [d] + [] == before + [d];
    }
    if m > 1 {
      FirstSettles(cfg, batch, o, m - 1);
    }
  }

  /** A productive cycle settles an event, unless every event of the stream is settled. */
  lemma CycleSettles<E>(cfg: Config, stream: seq<E>, st: State<E>, o: Outcomes)
    requires SafeState(cfg, stream, st) && Productive(cfg, o)
    ensures var (before, after) := (Settled(cfg.settlement, st.trace),
          Settled(cfg.settlement, Cycle(cfg, stream, st, o).trace));
      |before| < |stream| ==> |after| > |before|
  {
    var s, batch, start := cfg.settlement, Batch(cfg, stream, st, o), Opening(cfg, stream, st, o);
    var k := CycleGoesOn(cfg, stream, st, o);
    if |Settled(s, st.trace)| < |stream| {
      assert |Settled(s, st.trace)| + |st.pending + stream[st.received..]| == |stream|;
      assert batch != [];
      var m := if k < |batch| then k + 1 else k;
      SettledTogether(s, st.trace + start, ActionsOf(cfg, batch, o, m));
      SettledTogether(s, st.trace, start);
      FirstSettles(cfg, batch, o, m);
    }
  }

  lemma CycleForgetsNothing<E>(cfg: Config, stream: seq<E>, st: State<E>, o: Outcomes)
    requires st.received <= |stream|
    ensures |Settled(cfg.settlement, Cycle(cfg, stream, st, o).trace)| >= |Settled(cfg.settlement, st.trace)|
  {
    var s, batch, start := cfg.settlement, Batch(cfg, stream, st, o), Opening(cfg, stream, st, o);
    var k := CycleGoesOn(cfg, stream, st, o);
    SettledTogether(s, st.trace + start, ActionsOf(cfg, batch, o, if k < |batch| then k + 1 else k));
    SettledTogether(s, st.trace, start);
  }

  lemma SettledFit<E>(cfg: Config, stream: seq<E>, st: State<E>)
    requires SafeState(cfg, stream, st)
    ensures |Settled(cfg.settlement, st.trace)| <= |stream|
  {
  }

  function ProductiveCycles(cfg: Config, run: seq<Outcomes>): nat {
    if run == [] then 0 else (if Productive(cfg, run[0]) then 1 else 0) + ProductiveCycles(cfg, run[1..])
  }

  /** However failures fall between them, a run settles an event for each productive cycle, until the whole
      stream is settled. */
  lemma {:induction false} RunSettles<E>(cfg: Config, stream: seq<E>, st: State<E>, run: seq<Outcomes>)
    requires SafeState(cfg, stream, st)
    ensures var settled := |Settled(cfg.settlement, RunFrom(cfg, stream, st, run).trace)|;
      && |Settled(cfg.settlement, st.trace)| <= settled <= |stream|
      && (settled == |stream| || settled >= |Settled(cfg.settlement, st.trace)| + ProductiveCycles(cfg, run))
    decreases |run|
  {
    hide Safe, Settled, Drain;
    if run == [] {
      SettledFit(cfg, stream, st);
    } else {
      var next := Cycle(cfg, stream, st, run[0]);
      CycleSafe(cfg, stream, st, run[0]);
      CycleForgetsNothing(cfg, stream, st, run[0]);
      RunSettles(cfg, stream, next, run[1..]);
      if Productive(cfg, run[0]) {
        CycleSettles(cfg, stream, st, run[0]);
      }
    }
  }
}

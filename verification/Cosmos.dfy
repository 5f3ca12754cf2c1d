/** The Cosmos DB change-feed worker (azurecosmos/worker.go), with crashes and restarts from the last
    persisted token. */
module CosmosWorker {
  import opened Settlements

  /** The change feed: entries in order, some of which are no document this worker reads. A
      continuation token is a position in it. */
  datatype Slot<D> = Skipped | Doc(doc: D)

  type Token = nat

  datatype Page<D> = Page(documents: seq<D>, continuation: Token)

  function Documents<D>(slots: seq<Slot<D>>): seq<D> {
    if slots == [] then []
    else (if slots[0].Doc? then [slots[0].doc] else []) + Documents(slots[1..])
  }

  /** How ReadNext ends: an error, or a page reaching some distance past the token. */
  datatype Read = ReadError | Ahead(distance: nat)

  /** How Checkpoint ends; a reported error may still have persisted the token. */
  datatype Persist = Persisted | Refused | PersistedButFailed

  datatype Config = Config(settlement: Settlement, checkpoints: bool)

  datatype Outcomes = Outcomes(read: Read, dispatch: Dispatched, persist: Persist)

  /** What happens next: one poll, or a crash, after which Run starts again from the durable token. */
  datatype Event = Poll(outcomes: Outcomes) | Crash

  datatype Action<D> =
    | Dispatch(from: Token, to: Token, documents: seq<D>, outcome: Dispatched)
    | Checkpoint(token: Token, persist: Persist)

  /** How long Run waits before the next poll. */
  datatype Pause = PollAgain | PollInterval | ErrorBackoff

  datatype State<D> = State(continuation: Token, durable: Token, trace: seq<Action<D>>)

  /** The reader's contract: the documents between the token and the continuation, in order. */
  function ReadNext<D>(feed: seq<Slot<D>>, token: Token, distance: nat): (page: Page<D>)
    requires token <= |feed|
    ensures token <= page.continuation <= |feed|
    ensures page.documents == Documents(feed[token..page.continuation])
  {
    var to := if token + distance <= |feed| then token + distance else |feed|;
    Page(Documents(feed[token..to]), to)
  }

  function PollStep<D>(cfg: Config, feed: seq<Slot<D>>, st: State<D>, o: Outcomes): State<D>
    requires st.continuation <= |feed|
  {
    match o.read
    case ReadError => st
    case Ahead(distance) =>
      var page := ReadNext(feed, st.continuation, distance);
      if page.documents == [] then st.(continuation := page.continuation)
      else
        var dispatched := st.trace + [Dispatch(st.continuation, page.continuation, page.documents, o.dispatch)];
        if !Acknowledges(cfg.settlement, o.dispatch) then st.(trace := dispatched)
        else if !cfg.checkpoints then State(page.continuation, st.durable, dispatched)
        else
          var checkpointed := dispatched + [Checkpoint(page.continuation, o.persist)];
          match o.persist
          case Persisted => State(page.continuation, page.continuation, checkpointed)
          case Refused => State(st.continuation, st.durable, checkpointed)
          case PersistedButFailed => State(st.continuation, page.continuation, checkpointed)
  }

  function Step<D>(cfg: Config, feed: seq<Slot<D>>, st: State<D>, e: Event): State<D>
    requires st.continuation <= |feed|
  {
    match e
    case Poll(o) => PollStep(cfg, feed, st, o)
    case Crash => st.(continuation := st.durable)
  }

  ghost predicate InFeed<D>(feed: seq<Slot<D>>, st: State<D>) {
    st.continuation <= |feed| && st.durable <= |feed|
  }

  function RunFrom<D>(cfg: Config, feed: seq<Slot<D>>, st: State<D>, run: seq<Event>): (r: State<D>)
    requires InFeed(feed, st)
    ensures InFeed(feed, r)
    decreases |run|
  {
    if run == [] then st else RunFrom(cfg, feed, Step(cfg, feed, st, run[0]), run[1..])
  }

  // ---------------------------------------------------------------- the source's object

  class Worker<D> {
    const cfg: Config
    const feed: seq<Slot<D>>
    var durable: Token
    ghost var trace: seq<Action<D>>

    constructor (cfg: Config, feed: seq<Slot<D>>, startContinuation: Token)
      ensures this.cfg == cfg && this.feed == feed && durable == startContinuation && trace == []
    {
      this.cfg, this.feed := cfg, feed;
      durable, trace := startContinuation, [];
    }

    /** pollAndDispatch: the token to use next, and the pause before that. */
    method PollAndDispatch(continuation: Token, o: Outcomes) returns (next: Token, pause: Pause)
      requires continuation <= |feed|
      modifies this
      ensures State(next, durable, trace) == PollStep(cfg, feed, State(continuation, old(durable), old(trace)), o)
      ensures pause == ErrorBackoff <==>
        || o.read.ReadError?
        || (trace != old(trace) && !Acknowledges(cfg.settlement, o.dispatch))
        || (trace != old(trace) && cfg.checkpoints && o.persist != Persisted)
      ensures pause == PollInterval <==> o.read.Ahead? && trace == old(trace)
      ensures pause == ErrorBackoff ==> next == continuation
    {
      if o.read.ReadError? {
        return continuation, ErrorBackoff;
      }
      var page := ReadNext(feed, continuation, o.read.distance);
      if |page.documents| == 0 {
        return page.continuation, PollInterval;
      }
      trace := trace + [Dispatch(continuation, page.continuation, page.documents, o.dispatch)];
      if !Acknowledges(cfg.settlement, o.dispatch) {
        return continuation, ErrorBackoff;
      }
      if cfg.checkpoints {
        trace := trace + [Checkpoint(page.continuation, o.persist)];
        if o.persist != Refused {
          durable := page.continuation;
        }
        if o.persist != Persisted {
          return continuation, ErrorBackoff;
        }
      }
      return page.continuation, PollAgain;
    }

    /** Run, through a sequence of polls and crashes. A restart loads the durable token. */
    method Run(startContinuation: Token, run: seq<Event>) returns (continuation: Token)
      requires startContinuation <= |feed| && durable <= |feed|
      modifies this
      ensures State(continuation, durable, trace)
        == RunFrom(cfg, feed, State(startContinuation, old(durable), old(trace)), run)
    {
      continuation := startContinuation;
      var i := 0;
      assert run[0..] == run;
      while i < |run|
        invariant 0 <= i <= |run| && InFeed(feed, State(continuation, durable, trace))
        invariant RunFrom(cfg, feed, State(continuation, durable, trace), run[i..])
          == RunFrom(cfg, feed, State(startContinuation, old(durable), old(trace)), run)
      {
        assert run[i..][0] == run[i] && run[i..][1..] == run[i + 1..];
        match run[i] {
          case Poll(o) =>
            var next, _ := PollAndDispatch(continuation, o);
            continuation := next;
          case Crash => continuation := durable;
        }
        i := i + 1;
      }
    }
  }

  // ---------------------------------------------------------------- what every run keeps

  /** Slot p was in a batch the settlement acknowledged. */
  ghost predicate Handled<D>(s: Settlement, trace: seq<Action<D>>, p: nat) {
    exists i :: 0 <= i < |trace| && HandlesAt(s, trace[i], p)
  }

  ghost predicate HandlesAt<D>(s: Settlement, a: Action<D>, p: nat) {
    a.Dispatch? && a.from <= p < a.to && Acknowledges(s, a.outcome)
  }

  /** Every document from the starting token up to a position was in an acknowledged batch. */
  ghost predicate HandledUpTo<D>(s: Settlement, feed: seq<Slot<D>>, start: Token, trace: seq<Action<D>>, to: Token) {
    to <= |feed| && forall p | start <= p < to && feed[p].Doc? :: Handled(s, trace, p)
  }

  /** A dispatched batch is exactly the documents of its stretch of the feed, and everything before
      that stretch was already handled. */
  ghost predicate LawfulBatch<D>(s: Settlement, feed: seq<Slot<D>>, start: Token, before: seq<Action<D>>,
      a: Action<D>)
  {
    match a
    case Dispatch(from, to, docs, _) =>
      from <= to <= |feed| && docs != [] && docs == Documents(feed[from..to])
        && HandledUpTo(s, feed, start, before, from)
    case Checkpoint(token, _) => HandledUpTo(s, feed, start, before, token)
  }

  ghost predicate Safe<D>(cfg: Config, feed: seq<Slot<D>>, start: Token, st: State<D>) {
    && HandledUpTo(cfg.settlement, feed, start, st.trace, st.continuation)
    && HandledUpTo(cfg.settlement, feed, start, st.trace, st.durable)
    && forall i | 0 <= i < |st.trace| :: LawfulBatch(cfg.settlement, feed, start, st.trace[..i], st.trace[i])
  }

  lemma HandledMore<D>(s: Settlement, feed: seq<Slot<D>>, start: Token, trace: seq<Action<D>>, a: Action<D>, to: Token)
    requires HandledUpTo(s, feed, start, trace, to)
    ensures HandledUpTo(s, feed, start, trace + [a], to)
  {
    forall p | start <= p < to && feed[p].Doc? ensures Handled(s, trace + [a], p) {
      var i :| 0 <= i < |trace| && HandlesAt(s, trace[i], p);
      assert (trace + [a])[i] == trace[i];
    }
  }

  lemma BatchHandled<D>(s: Settlement, feed: seq<Slot<D>>, start: Token, trace: seq<Action<D>>, a: Action<D>)
    requires a.Dispatch? && a.to <= |feed| && Acknowledges(s, a.outcome)
    requires HandledUpTo(s, feed, start, trace, a.from)
    ensures HandledUpTo(s, feed, start, trace + [a], a.to)
  {
    HandledMore(s, feed, start, trace, a, a.from);
    forall p | start <= p < a.to && feed[p].Doc? ensures Handled(s, trace + [a], p) {
      if a.from <= p { assert HandlesAt(s, (trace + [a])[|trace|], p); }
    }
  }

  lemma {:induction false} NoDocuments<D>(slots: seq<Slot<D>>)
    requires Documents(slots) == []
    ensures forall i | 0 <= i < |slots| :: slots[i].Skipped?
  {
    if slots != [] {
      NoDocuments(slots[1..]);
    }
  }

  lemma LawfulMore<D>(s: Settlement, feed: seq<Slot<D>>, start: Token, trace: seq<Action<D>>, a: Action<D>)
    requires forall i | 0 <= i < |trace| :: LawfulBatch(s, feed, start, trace[..i], trace[i])
    requires LawfulBatch(s, feed, start, trace, a)
    ensures forall i | 0 <= i < |trace + [a]| :: LawfulBatch(s, feed, start, (trace + [a])[..i], (trace + [a])[i])
  {
    hide LawfulBatch;
    forall i | 0 <= i < |trace + [a]| ensures LawfulBatch(s, feed, start, (trace + [a])[..i], (trace + [a])[i]) {
      assert (trace + [a])[..i] == trace[..i];
      assert trace[..|trace|] == trace;
    }
  }

  lemma StepSafe<D>(cfg: Config, feed: seq<Slot<D>>, start: Token, st: State<D>, e: Event)
    requires Safe(cfg, feed, start, st)
    ensures Safe(cfg, feed, start, Step(cfg, feed, st, e))
  {
    if e.Poll? && e.outcomes.read.Ahead? {
      var o := e.outcomes;
      var page := ReadNext(feed, st.continuation, o.read.distance);
      if page.documents == [] {
        var slots := feed[st.continuation..page.continuation];
        NoDocuments(slots);
        forall p | st.continuation <= p < page.continuation ensures feed[p].Skipped? {
          assert feed[p] == slots[p - st.continuation];
        }
      } else {
        DispatchSafe(cfg, feed, start, st, o, page);
      }
    }
  }

  lemma DispatchSafe<D>(cfg: Config, feed: seq<Slot<D>>, start: Token, st: State<D>, o: Outcomes, page: Page<D>)
    requires Safe(cfg, feed, start, st) && o.read.Ahead?
    requires page == ReadNext(feed, st.continuation, o.read.distance) && page.documents != []
    ensures Safe(cfg, feed, start, PollStep(cfg, feed, st, o))
  {
    hide Handled;
    var s := cfg.settlement;
    var a := Dispatch(st.continuation, page.continuation, page.documents, o.dispatch);
    LawfulMore(s, feed, start, st.trace, a);
    HandledMore(s, feed, start, st.trace, a, st.continuation);
    HandledMore(s, feed, start, st.trace, a, st.durable);
    if Acknowledges(s, o.dispatch) {
      BatchHandled(s, feed, start, st.trace, a);
      if cfg.checkpoints {
        var trace, c := st.trace + [a], Checkpoint(page.continuation, o.persist);
        LawfulMore(s, feed, start, trace, c);
        HandledMore(s, feed, start, trace, c, st.continuation);
        HandledMore(s, feed, start, trace, c, st.durable);
        HandledMore(s, feed, start, trace, c, page.continuation);
      }
    }
  }

  /** Over every run, with crashes at any point and checkpoints that fail or persist and then fail:
      neither the in-memory nor the durable position passes a document that was in no acknowledged
      batch, and no batch is dispatched before every earlier document was. */
  lemma {:induction false} RunSafe<D>(cfg: Config, feed: seq<Slot<D>>, start: Token, st: State<D>, run: seq<Event>)
    requires Safe(cfg, feed, start, st)
    ensures Safe(cfg, feed, start, RunFrom(cfg, feed, st, run))
    decreases |run|
  {
    if run != [] {
      StepSafe(cfg, feed, start, st, run[0]);
      RunSafe(cfg, feed, start, Step(cfg, feed, st, run[0]), run[1..]);
    }
  }

  lemma WorkerRunSafe<D>(cfg: Config, feed: seq<Slot<D>>, start: Token, run: seq<Event>)
    requires start <= |feed|
    ensures Safe(cfg, feed, start, RunFrom(cfg, feed, State(start, start, []), run))
  {
    RunSafe(cfg, feed, start, State(start, start, []), run);
  }

  // ---------------------------------------------------------------- what a poll moves

  /** The poll got a batch through: acknowledged, and its token persisted where tokens are. */
  predicate GetsThrough(cfg: Config, o: Outcomes) {
    MayForget(cfg.settlement, o.dispatch) && (!cfg.checkpoints || o.persist == Persisted)
  }

  /** A poll moves the position in memory over the page it read when the page holds no document or its batch
      gets through, and the durable position when the batch may be forgotten and its token is persisted,
      whatever was reported. */
  lemma PollMoves<D>(cfg: Config, feed: seq<Slot<D>>, st: State<D>, o: Outcomes)
    requires InFeed(feed, st)
    ensures var st' := PollStep(cfg, feed, st, o);
      if o.read.ReadError? then st' == st
      else
        var left := |feed| - st.continuation;
        var to := st.continuation + if o.read.distance <= left then o.read.distance else left;
        var idle := Documents(feed[st.continuation..to]) == [];
        && st'.continuation == (if idle || GetsThrough(cfg, o) then to else st.continuation)
        && st'.durable == (
             if !idle && MayForget(cfg.settlement, o.dispatch) && cfg.checkpoints && o.persist != Refused then to
             else st.durable)
  {
    hide Documents;
  }

  /** A poll that reads on and gets through what it reads. */
  predicate Productive(cfg: Config, e: Event) {
    e.Poll? && e.outcomes.read.Ahead? && e.outcomes.read.distance > 0 && GetsThrough(cfg, e.outcomes)
  }

  function ProductivePolls(cfg: Config, run: seq<Event>): nat {
    if run == [] then 0 else (if Productive(cfg, run[0]) then 1 else 0) + ProductivePolls(cfg, run[1..])
  }

  /** From one crash to the next, however failures fall between them, each productive poll moves on, until the
      end of the feed is reached. */
  lemma {:induction false} PollsAdvance<D>(cfg: Config, feed: seq<Slot<D>>, st: State<D>, run: seq<Event>)
    requires InFeed(feed, st) && forall i | 0 <= i < |run| :: run[i].Poll?
    ensures var to := RunFrom(cfg, feed, st, run).continuation;
      && st.continuation <= to <= |feed|
      && (to == |feed| || to >= st.continuation + ProductivePolls(cfg, run))
    decreases |run|
  {
    if run != [] {
      PollMoves(cfg, feed, st, run[0].outcomes);
      hide PollStep, GetsThrough;
      PollsAdvance(cfg, feed, Step(cfg, feed, st, run[0]), run[1..]);
    }
  }

  /** A worker that polls productively often enough has had every document from its start acknowledged. */
  lemma EnoughPollsHandleAll<D>(cfg: Config, feed: seq<Slot<D>>, start: Token, run: seq<Event>)
    requires start <= |feed| && (forall i | 0 <= i < |run| :: run[i].Poll?)
    requires start + ProductivePolls(cfg, run) >= |feed|
    ensures HandledUpTo(cfg.settlement, feed, start, RunFrom(cfg, feed, State(start, start, []), run).trace, |feed|)
  {
    PollsAdvance(cfg, feed, State(start, start, []), run);
    WorkerRunSafe(cfg, feed, start, run);
  }

  // ---------------------------------------------------------------- checkpoints happen

  ghost predicate CheckpointsNext<D>(trace: seq<Action<D>>, p: nat)
    requires p < |trace| && trace[p].Dispatch?
  {
    p + 1 < |trace| && trace[p + 1].Checkpoint? && trace[p + 1].token == trace[p].to
  }

  /** Where checkpoints are configured, a dispatch is followed at once by the checkpoint of its continuation
      exactly when the batch may be forgotten; where none are, there is no checkpoint. */
  ghost predicate Checkpointed<D>(cfg: Config, trace: seq<Action<D>>) {
    if cfg.checkpoints then
      forall p | 0 <= p < |trace| && trace[p].Dispatch? ::
        CheckpointsNext(trace, p) <==> MayForget(cfg.settlement, trace[p].outcome)
    else forall p | 0 <= p < |trace| :: !trace[p].Checkpoint?
  }

  lemma PollCheckpoints<D>(cfg: Config, feed: seq<Slot<D>>, st: State<D>, o: Outcomes)
    requires InFeed(feed, st) && Checkpointed(cfg, st.trace)
    ensures Checkpointed(cfg, PollStep(cfg, feed, st, o).trace)
  {
    hide Documents, MayForget;
    assert forall d :: MayForget(cfg.settlement, d) <==> Acknowledges(cfg.settlement, d) by { Forgets(cfg.settlement); }
    var before, after := st.trace, PollStep(cfg, feed, st, o).trace;
    assert before <= after;
    if cfg.checkpoints {
      forall p | 0 <= p < |after| && after[p].Dispatch?
        ensures CheckpointsNext(after, p) <==> MayForget(cfg.settlement, after[p].outcome)
      {
        assert p < |before| ==> (CheckpointsNext(before, p) <==> CheckpointsNext(after, p));
      }
    }
  }

  lemma Forgets(s: Settlement)
    ensures forall d :: MayForget(s, d) <==> Acknowledges(s, d)
  {
  }

  /** Over every run, crashes included, each batch that may be forgotten is checkpointed at once, if checkpoints
      are configured. */
  lemma {:induction false} RunCheckpoints<D>(cfg: Config, feed: seq<Slot<D>>, st: State<D>, run: seq<Event>)
    requires InFeed(feed, st) && Checkpointed(cfg, st.trace)
    ensures Checkpointed(cfg, RunFrom(cfg, feed, st, run).trace)
    decreases |run|
  {
    if run != [] {
      if run[0].Poll? {
        PollCheckpoints(cfg, feed, st, run[0].outcomes);
      }
      hide Checkpointed;
      RunCheckpoints(cfg, feed, Step(cfg, feed, st, run[0]), run[1..]);
    }
  }
}

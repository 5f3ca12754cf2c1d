/** The de-duplication middleware (idempotency/idempotency.go) over a store whose Claim is atomic:
    first one delivery at a time, then any interleaving of any number of them. */
module Idempotency {
  import opened Options

  datatype Status = InProgress | Completed

  type Records = map<string, Status>

  /** How the rest of the pipeline ends. */
  datatype Ending = Succeeded | Unsuccessful | PipelineError

  /** What Claim answers. */
  datatype Reply = Won | Existing(status: Status) | Failed

  /** What the middleware leaves for the transport. */
  datatype Result = Ran(next: Ending) | Ignored | Conflict

  // ---------------------------------------------------------------- the source's objects

  class Store {
    var records: Records

    constructor ()
      ensures records == map[]
    {
      records := map[];
    }

    /** Claim: it wins, reports the record already there, or errs; a claim that errs may still have
        recorded the key. */
    method Claim(key: string, errs: bool, takes: bool) returns (reply: Reply)
      modifies this
      ensures reply == if errs then Failed else if key in old(records) then Existing(old(records)[key]) else Won
      ensures records == ClaimedRecords(old(records), key, !errs || takes)
    {
      if key !in records {
        reply := if errs then Failed else Won;
        if !errs || takes {
          records := records[key := InProgress];
        }
      } else {
        reply := if errs then Failed else Existing(records[key]);
      }
    }

    /** Complete and Release take effect, or fail and leave the record. */
    method Complete(key: string, takes: bool)
      modifies this
      ensures records == if takes then old(records)[key := Completed] else old(records)
    {
      if takes {
        records := records[key := Completed];
      }
    }

    method Release(key: string, takes: bool)
      modifies this
      ensures records == if takes then old(records) - {key} else old(records)
    {
      if takes {
        records := records - {key};
      }
    }
  }

  function ClaimedRecords(records: Records, key: string, takes: bool): Records {
    if takes && key !in records then records[key := InProgress] else records
  }

  function SettledRecords(records: Records, key: string, success: bool, takes: bool): Records {
    if !takes then records
    else if success then records[key := Completed]
    else records - {key}
  }

  /** The steps of one uninterrupted delivery. */
  function Delivered(id: nat, key: string, claimErrs: bool, claimTakes: bool, success: bool, takes: bool): seq<Step> {
    [if claimErrs then FailOpen(id, key, claimTakes) else Claim(id, key), Finish(id, success), Settle(id, takes)]
  }

  /** Middleware, one delivery from start to end; the key "" opts out. It does what the steps of an
      uninterrupted delivery do. */
  method Middleware(store: Store, key: string, claimErrs: bool, claimTakes: bool, next: Ending, takes: bool,
      ghost id: nat)
    returns (result: Result)
    modifies store
    ensures key != "" ==>
      var steps := Delivered(id, key, claimErrs, claimTakes, next == Succeeded, takes);
      var after := RunFrom(Start(old(store.records)), steps);
      store.records == after.records && (result.Ran? <==> Started(id, key) in after.log)
    // the records: the key is completed, left in progress, or as free as it was
    ensures store.records == (
      if key == "" || key in old(store.records) then old(store.records)
      else if claimErrs then if claimTakes then old(store.records)[key := InProgress] else old(store.records)
      else if !takes then old(store.records)[key := InProgress]
      else if next == Succeeded then old(store.records)[key := Completed]
      else old(store.records))
    ensures key == "" ==> result == Ran(next)
    ensures result == Ignored
      <==> key != "" && !claimErrs && key in old(store.records) && old(store.records)[key] == Completed
    ensures result == Conflict
      <==> key != "" && !claimErrs && key in old(store.records) && old(store.records)[key] == InProgress
    ensures result.Ran? ==> result.next == next
  {
    OneDelivery(store.records, id, key, claimErrs, claimTakes, next == Succeeded, takes);
    if key == "" {
      return Ran(next);
    }
    var reply := store.Claim(key, claimErrs, claimTakes);
    if reply == Failed {
      return Ran(next);
    }
    if reply.Existing? {
      return if reply.status == Completed then Ignored else Conflict;
    }
    if next == PipelineError {
      store.Release(key, takes);
      return Ran(next);
    }
    if next == Succeeded {
      store.Complete(key, takes);
    } else {
      store.Release(key, takes);
    }
    return Ran(next);
  }

  lemma OneDelivery(records: Records, id: nat, key: string, claimErrs: bool, claimTakes: bool, success: bool,
      takes: bool)
    ensures var after := RunFrom(Start(records), Delivered(id, key, claimErrs, claimTakes, success, takes));
      if claimErrs then after.records == ClaimedRecords(records, key, claimTakes) && Started(id, key) in after.log
      else if key in records then after.records == records && Started(id, key) !in after.log
      else
        after.records == SettledRecords(records[key := InProgress], key, success, takes)
          && Started(id, key) in after.log
  {
    var run := Delivered(id, key, claimErrs, claimTakes, success, takes);
    assert run[1..] == [Finish(id, success), Settle(id, takes)];
    assert run[1..][1..] == [Settle(id, takes)];
    assert run[1..][1..][1..] == [];
    var s1 := Next(Start(records), run[0]);
    var s2 := Next(s1, run[1]);
    var s3 := Next(s2, run[2]);
    assert RunFrom(s3, []) == s3 && RunFrom(s2, run[1..][1..]) == s3 && RunFrom(s1, run[1..]) == s3;
    if !claimErrs && key in records {
      assert s3.log == [Refused(id, key, records[key])];
    } else {
      assert s1.log == [Started(id, key)];
      assert s2.log == [Started(id, key), Ended(id, key, success)];
      assert s3.log[0] == Started(id, key);
    }
  }

  // ---------------------------------------------------------------- interleavings

  /** One atomic step of one delivery. A step a delivery is not ready for does nothing. */
  datatype Step =
    | Claim(id: nat, key: string)
    | FailOpen(id: nat, key: string, takes: bool)   // Claim returned an error: the handler runs unclaimed
    | Finish(id: nat, success: bool)
    | Settle(id: nat, takes: bool)

  datatype Entry =
    | Started(id: nat, key: string)
    | Ended(id: nat, key: string, success: bool)
    | Refused(id: nat, key: string, status: Status)

  datatype Run = Run(key: string, claimed: bool)

  /** running: deliveries whose handler runs; settling: those whose claimed handler has ended. */
  datatype State = State(
    records: Records, running: map<nat, Run>, settling: map<nat, (string, bool)>, used: set<nat>, log: seq<Entry>)

  function Start(records: Records): State { State(records, map[], map[], {}, []) }

  function Next(st: State, step: Step): State {
    match step
    case Claim(id, key) =>
      if id in st.used then st
      else if key in st.records then st.(used := st.used + {id}, log := st.log + [Refused(id, key, st.records[key])])
      else State(st.records[key := InProgress], st.running[id := Run(key, true)], st.settling,
                 st.used + {id}, st.log + [Started(id, key)])
    case FailOpen(id, key, takes) =>
      if id in st.used then st
      else State(ClaimedRecords(st.records, key, takes), st.running[id := Run(key, false)], st.settling,
                 st.used + {id}, st.log + [Started(id, key)])
    case Finish(id, success) =>
      if id !in st.running then st
      else
        var run := st.running[id];
        State(st.records, st.running - {id},
              if run.claimed then st.settling[id := (run.key, success)] else st.settling,
              st.used, st.log + [Ended(id, run.key, success)])
    case Settle(id, takes) =>
      if id !in st.settling then st
      else
        var (key, success) := st.settling[id];
        st.(records := SettledRecords(st.records, key, success, takes), settling := st.settling - {id})
  }

  function RunFrom(st: State, steps: seq<Step>): State
    decreases |steps|
  {
    if steps == [] then st else RunFrom(Next(st, steps[0]), steps[1..])
  }

  // ---------------------------------------------------------------- what every interleaving keeps

  ghost predicate SucceededBefore(log: seq<Entry>, key: string) {
    exists i :: 0 <= i < |log| && log[i].Ended? && log[i].key == key && log[i].success
  }

  /** A handler starts only when no other is running, and never after a success. */
  ghost predicate Exclusive(log: seq<Entry>, key: string) {
    && (forall i, j | 0 <= i < j < |log| && log[i].Started? && log[j].Started? && log[i].key == log[j].key == key ::
          EndedBetween(log, log[i].id, i, j))
    && (forall i, j | 0 <= i < j < |log| && log[i].Ended? && log[i].key == key && log[i].success ::
          !(log[j].Started? && log[j].key == key))
    && (forall i, j | 0 <= i < j < |log| && log[i].Ended? && log[j].Ended? && log[i].key == log[j].key == key ::
          !(log[i].success && log[j].success))
  }

  ghost predicate EndedBetween(log: seq<Entry>, id: nat, i: nat, j: nat) {
    exists m :: i < m < j < |log| && log[m].Ended? && log[m].id == id
  }

  /** The delivery holds the claim on key: its handler runs, or has ended and is not settled. */
  ghost predicate Holds(st: State, id: nat, key: string) {
    (id in st.running && st.running[id].key == key) || (id in st.settling && st.settling[id].0 == key)
  }

  ghost predicate Inv(st: State, key: string) {
    && st.running.Keys <= st.used && st.settling.Keys <= st.used && st.running.Keys !! st.settling.Keys
    // one holder, and it holds the record
    && (forall id | Holds(st, id, key) :: key in st.records && st.records[key] == InProgress)
    && (forall a, b | Holds(st, a, key) && Holds(st, b, key) :: a == b)
    && (forall id | id in st.running && st.running[id].key == key :: st.running[id].claimed)
    // a success keeps the record for good
    && (SucceededBefore(st.log, key) ==>
          key in st.records
          && (forall id | Holds(st, id, key) :: id in st.settling && st.settling[id].1))
    // a started handler runs until the log says it ended
    && (forall i | 0 <= i < |st.log| && st.log[i].Started? && st.log[i].key == key ::
          var id := st.log[i].id;
          id in st.used && ((id in st.running && st.running[id].key == key) || EndedBy(st.log, id, i)))
    && Exclusive(st.log, key)
  }

  ghost predicate EndedBy(log: seq<Entry>, id: nat, i: nat) {
    exists m :: i < m < |log| && log[m].Ended? && log[m].id == id
  }

  ghost predicate NeverFailsOpen(steps: seq<Step>, key: string) {
    forall i | 0 <= i < |steps| && steps[i].FailOpen? :: steps[i].key != key
  }

  lemma EndedByMore(log: seq<Entry>, e: Entry, id: nat, i: nat)
    requires EndedBy(log, id, i)
    ensures EndedBy(log + [e], id, i) && EndedBetween(log + [e], id, i, |log|)
  {
    var m :| i < m < |log| && log[m].Ended? && log[m].id == id;
    assert (log + [e])[m] == log[m];
  }

  lemma EndedBetweenMore(log: seq<Entry>, e: Entry, id: nat, i: nat, j: nat)
    requires EndedBetween(log, id, i, j)
    ensures EndedBetween(log + [e], id, i, j)
  {
    var m :| i < m < j < |log| && log[m].Ended? && log[m].id == id;
    assert (log + [e])[m] == log[m];
  }

  lemma SucceededMore(log: seq<Entry>, e: Entry, key: string)
    ensures SucceededBefore(log + [e], key) <==> SucceededBefore(log, key) || (e.Ended? && e.key == key && e.success)
  {
    if SucceededBefore(log, key) {
      var i :| 0 <= i < |log| && log[i].Ended? && log[i].key == key && log[i].success;
      assert (log + [e])[i] == log[i];
    }
    if e.Ended? && e.key == key && e.success {
      assert (log + [e])[|log|] == e;
    }
  }

  /** Adding an entry keeps the log exclusive when a start finds every earlier start ended and no
      success, and a success finds none. */
  lemma ExclusiveMore(log: seq<Entry>, e: Entry, key: string)
    requires Exclusive(log, key)
    requires e.Started? && e.key == key ==>
      && !SucceededBefore(log, key)
      && forall i | 0 <= i < |log| && log[i].Started? && log[i].key == key :: EndedBy(log, log[i].id, i)
    requires e.Ended? && e.key == key && e.success ==> !SucceededBefore(log, key)
    ensures Exclusive(log + [e], key)
  {
    var longer := log + [e];
    forall i, j | 0 <= i < j < |longer| && longer[i].Started? && longer[j].Started?
      && longer[i].key == longer[j].key == key
      ensures EndedBetween(longer, longer[i].id, i, j)
    {
      if j < |log| {
        EndedBetweenMore(log, e, log[i].id, i, j);
      } else {
        EndedByMore(log, e, log[i].id, i);
      }
    }
  }

  lemma ClaimKeeps(st: State, id: nat, k: string, key: string)
    requires Inv(st, key)
    ensures Inv(Next(st, Claim(id, k)), key)
  {
    if id !in st.used {
      var e := if k in st.records then Refused(id, k, st.records[k]) else Started(id, k);
      var st' := Next(st, Claim(id, k));
      assert !Holds(st, id, key);
      forall a | Holds(st', a, key) ensures Holds(st, a, key) || (a == id && k == key && key !in st.records) {}
      forall i | 0 <= i < |st.log| && e == Started(id, key) && st.log[i].Started? && st.log[i].key == key
        ensures EndedBy(st.log, st.log[i].id, i)
      {
        assert !Holds(st, st.log[i].id, key);
      }
      SucceededMore(st.log, e, key);
      ExclusiveMore(st.log, e, key);
      forall i | 0 <= i < |st.log| && EndedBy(st.log, st.log[i].id, i) {
        EndedByMore(st.log, e, st.log[i].id, i);
      }
    }
  }

  lemma FailOpenKeeps(st: State, id: nat, k: string, takes: bool, key: string)
    requires Inv(st, key) && k != key
    ensures Inv(Next(st, FailOpen(id, k, takes)), key)
  {
    if id !in st.used {
      var e := Started(id, k);
      var st' := Next(st, FailOpen(id, k, takes));
      forall a | Holds(st', a, key) ensures Holds(st, a, key) {}
      SucceededMore(st.log, e, key);
      ExclusiveMore(st.log, e, key);
      forall i | 0 <= i < |st.log| && EndedBy(st.log, st.log[i].id, i) {
        EndedByMore(st.log, e, st.log[i].id, i);
      }
    }
  }

  lemma FinishKeeps(st: State, id: nat, success: bool, key: string)
    requires Inv(st, key)
    ensures Inv(Next(st, Finish(id, success)), key)
  {
    if id in st.running {
      var e := Ended(id, st.running[id].key, success);
      if st.running[id].key == key { assert Holds(st, id, key); }
      SucceededMore(st.log, e, key);
      ExclusiveMore(st.log, e, key);
      var st' := Next(st, Finish(id, success));
      forall a | Holds(st', a, key) ensures Holds(st, a, key) {}
      forall i | 0 <= i < |st.log| && st.log[i].Started? && st.log[i].key == key
        ensures (st.log[i].id in st'.running && st'.running[st.log[i].id].key == key)
          || EndedBy(st'.log, st.log[i].id, i)
      {
        if EndedBy(st.log, st.log[i].id, i) {
          EndedByMore(st.log, e, st.log[i].id, i);
        } else if st.log[i].id == id {
          assert st'.log[|st.log|] == e;
        }
      }
    }
  }

  lemma SettleKeeps(st: State, id: nat, takes: bool, key: string)
    requires Inv(st, key)
    ensures Inv(Next(st, Settle(id, takes)), key)
  {
    if id in st.settling {
      if st.settling[id].0 == key { assert Holds(st, id, key); }
      var st' := Next(st, Settle(id, takes));
      forall a | Holds(st', a, key) ensures Holds(st, a, key) && (st.settling[id].0 == key ==> a != id) {}
    }
  }

  /** Over every interleaving of any number of deliveries, as long as Claim on the key never errors:
      at most one handler of the key runs at a time, at most one ends successfully, and none starts
      after a success - even when Complete or Release fails. */
  lemma {:induction false} InterleavingsAreExclusive(st: State, steps: seq<Step>, key: string)
    requires Inv(st, key) && NeverFailsOpen(steps, key)
    ensures Inv(RunFrom(st, steps), key)
    decreases |steps|
  {
    if steps != [] {
      match steps[0] {
        case Claim(id, k) => ClaimKeeps(st, id, k, key);
        case FailOpen(id, k, takes) => FailOpenKeeps(st, id, k, takes, key);
        case Finish(id, success) => FinishKeeps(st, id, success, key);
        case Settle(id, takes) => SettleKeeps(st, id, takes, key);
      }
      assert NeverFailsOpen(steps[1..], key) by {
        forall i | 0 <= i < |steps[1..]| && steps[1..][i].FailOpen? ensures steps[1..][i].key != key {
          assert steps[1..][i] == steps[i + 1];
        }
      }
      InterleavingsAreExclusive(Next(st, steps[0]), steps[1..], key);
    }
  }

  lemma FromAnyRecords(records: Records, steps: seq<Step>, key: string)
    requires NeverFailsOpen(steps, key)
    ensures Exclusive(RunFrom(Start(records), steps).log, key)
    ensures var running := RunFrom(Start(records), steps).running;
      forall a, b | a in running && b in running && running[a].key == key && running[b].key == key :: a == b
  {
    InterleavingsAreExclusive(Start(records), steps, key);
    var st := RunFrom(Start(records), steps);
    forall a, b | a in st.running && b in st.running && st.running[a].key == key && st.running[b].key == key
      ensures a == b
    {
      assert Holds(st, a, key) && Holds(st, b, key);
    }
  }

  /** A key completed before the run never reaches a handler. */
  lemma {:induction false} CompletedIsFinal(st: State, steps: seq<Step>, key: string)
    requires NeverFailsOpen(steps, key) && key in st.records && st.records[key] == Completed
    requires forall id :: !Holds(st, id, key)
    ensures var st' := RunFrom(st, steps);
      key in st'.records && st'.records[key] == Completed && forall id :: !Holds(st', id, key)
    decreases |steps|
  {
    if steps != [] {
      var st' := Next(st, steps[0]);
      forall id ensures !Holds(st', id, key) {
        assert !Holds(st, id, key);
      }
      if steps[0].Settle? && steps[0].id in st.settling { assert !Holds(st, steps[0].id, key); }
      assert NeverFailsOpen(steps[1..], key) by {
        forall i | 0 <= i < |steps[1..]| && steps[1..][i].FailOpen? ensures steps[1..][i].key != key {
          assert steps[1..][i] == steps[i + 1];
        }
      }
      CompletedIsFinal(st', steps[1..], key);
    }
  }

  // ---------------------------------------------------------------- when claims err

  /** A schedule of deliveries of a key, among any others: each of them claims or fails open. */
  ghost predicate Schedules(steps: seq<Step>, deliveries: set<nat>, erring: set<nat>, key: string) {
    forall i | 0 <= i < |steps| :: Scheduled(steps[i], deliveries, erring, key)
  }

  ghost predicate Scheduled(step: Step, deliveries: set<nat>, erring: set<nat>, key: string) {
    && (step.Claim? && step.key == key ==> step.id in deliveries - erring)
    && (step.FailOpen? && step.key == key ==> step.id in erring)
    && ((step.Claim? || step.FailOpen?) && step.key != key ==> step.id !in deliveries)
  }

  /** Only delivery one can start a handler of the key; when the key is recorded, no claim wins. */
  ghost predicate StartsOnly(step: Step, one: nat, recorded: bool, key: string) {
    && (step.Claim? && step.key == key ==> recorded || step.id == one)
    && (step.FailOpen? && step.key == key ==> step.id == one)
  }

  /** A handler of the key started at most once, for delivery one. */
  ghost predicate StartedOnce(st: State, one: nat, recorded: bool, key: string) {
    && (forall i | 0 <= i < |st.log| && st.log[i].Started? && st.log[i].key == key :: one in st.used)
    && (forall i | 0 <= i < |st.log| && st.log[i].Ended? && st.log[i].key == key ::
          one in st.used && !(one in st.running && st.running[one].key == key))
    && (forall id | id in st.running && st.running[id].key == key :: id == one && one in st.used)
    && (recorded ==>
          key in st.records
          && (forall id | id in st.running && st.running[id].key == key :: !st.running[id].claimed)
          && (forall id | id in st.settling :: st.settling[id].0 != key))
    && Exclusive(st.log, key)
  }

  /** A step that starts no handler of the key. */
  lemma OtherStep(st: State, step: Step, one: nat, recorded: bool, key: string)
    requires StartedOnce(st, one, recorded, key) && StartsOnly(step, one, recorded, key)
    requires step.Finish? || step.Settle?
    ensures StartedOnce(Next(st, step), one, recorded, key)
  {
    if step.Finish? && step.id in st.running {
      var e := Ended(step.id, st.running[step.id].key, step.success);
      SucceededMore(st.log, e, key);
      ExclusiveMore(st.log, e, key);
    }
    hide Exclusive;
  }

  lemma ClaimStep(st: State, id: nat, k: string, one: nat, recorded: bool, key: string)
    requires StartedOnce(st, one, recorded, key) && StartsOnly(Claim(id, k), one, recorded, key)
    ensures StartedOnce(Next(st, Claim(id, k)), one, recorded, key)
  {
    if id !in st.used {
      var e := if k in st.records then Refused(id, k, st.records[k]) else Started(id, k);
      SucceededMore(st.log, e, key);
      ExclusiveMore(st.log, e, key);
      hide Exclusive;
    }
  }

  lemma FailOpenStep(st: State, id: nat, k: string, takes: bool, one: nat, recorded: bool, key: string)
    requires StartedOnce(st, one, recorded, key) && StartsOnly(FailOpen(id, k, takes), one, recorded, key)
    ensures StartedOnce(Next(st, FailOpen(id, k, takes)), one, recorded, key)
  {
    if id !in st.used {
      SucceededMore(st.log, Started(id, k), key);
      ExclusiveMore(st.log, Started(id, k), key);
      hide Exclusive;
    }
  }

  lemma OneStartStep(st: State, step: Step, one: nat, recorded: bool, key: string)
    requires StartedOnce(st, one, recorded, key) && StartsOnly(step, one, recorded, key)
    ensures StartedOnce(Next(st, step), one, recorded, key)
  {
    hide *;
    match step
    case Claim(id, k) => ClaimStep(st, id, k, one, recorded, key);
    case FailOpen(id, k, takes) => FailOpenStep(st, id, k, takes, one, recorded, key);
    case _ => OtherStep(st, step, one, recorded, key);
  }

  lemma {:induction false} OneStart(st: State, steps: seq<Step>, one: nat, recorded: bool, key: string)
    requires StartedOnce(st, one, recorded, key)
    requires forall i | 0 <= i < |steps| :: StartsOnly(steps[i], one, recorded, key)
    ensures StartedOnce(RunFrom(st, steps), one, recorded, key)
    decreases |steps|
  {
    hide StartedOnce, StartsOnly;
    if steps != [] {
      OneStartStep(st, steps[0], one, recorded, key);
      forall i | 0 <= i < |steps[1..]| ensures StartsOnly(steps[1..][i], one, recorded, key) {
        assert steps[1..][i] == steps[i + 1];
      }
      OneStart(Next(st, steps[0]), steps[1..], one, recorded, key);
    }
  }

  lemma TwoStart(records: Records, a: nat, b: nat, first: Step, second: Step, key: string)
    requires a != b
    requires first == FailOpen(a, key, false) || (first == Claim(a, key) && key !in records)
    requires second == FailOpen(b, key, false)
    ensures !Exclusive(RunFrom(Start(records), [first, second]).log, key)
  {
    var steps := [first, second];
    assert steps[1..] == [second] && steps[1..][1..] == [];
    var s1 := Next(Start(records), steps[0]);
    var s2 := Next(s1, steps[1]);
    assert RunFrom(s2, []) == s2 && RunFrom(s1, steps[1..]) == s2;
    assert s2.log == [Started(a, key), Started(b, key)];
    assert !EndedBetween(s2.log, a, 0, 1);
    assert s2.log[0].Started? && s2.log[1].Started?;
  }

  /** Every schedule of some deliveries of a key is exclusive exactly when none of their claims errs, or
      there is one delivery, or the key was recorded before and one claim errs. */
  lemma ExclusiveWhenClaimsAnswer(records: Records, deliveries: set<nat>, erring: set<nat>, key: string)
    requires erring <= deliveries
    ensures (forall steps | Schedules(steps, deliveries, erring, key) ::
               Exclusive(RunFrom(Start(records), steps).log, key))
      <==> erring == {} || |deliveries| <= 1 || (key in records && |erring| <= 1)
  {
    AtMostOne(deliveries);
    AtMostOne(erring);
    if erring == {} {
      forall steps | Schedules(steps, deliveries, erring, key)
        ensures Exclusive(RunFrom(Start(records), steps).log, key)
      {
        assert forall i | 0 <= i < |steps| :: Scheduled(steps[i], deliveries, erring, key);
        FromAnyRecords(records, steps, key);
      }
    } else if |deliveries| <= 1 || (key in records && |erring| <= 1) {
      var one :| one in erring;
      var recorded := key in records;
      forall steps | Schedules(steps, deliveries, erring, key)
        ensures Exclusive(RunFrom(Start(records), steps).log, key)
      {
        forall i | 0 <= i < |steps| ensures StartsOnly(steps[i], one, recorded, key) {
          assert Scheduled(steps[i], deliveries, erring, key);
        }
        OneStart(Start(records), steps, one, recorded, key);
      }
    } else {
      var a, b :| a in deliveries && b in erring && a != b && (key in records ==> a in erring);
      var first := if a in erring then FailOpen(a, key, false) else Claim(a, key);
      TwoStart(records, a, b, first, FailOpen(b, key, false), key);
      assert Schedules([first, FailOpen(b, key, false)], deliveries, erring, key);
    }
  }

  lemma AtMostOne(s: set<nat>)
    ensures |s| <= 1 <==> forall a, b | a in s && b in s :: a == b
  {
    if |s| > 1 {
      var a :| a in s;
      assert |s - {a}| > 0;
      var b :| b in s - {a};
      assert a in s && b in s && a != b;
    }
    forall a, b | |s| <= 1 && a in s && b in s ensures a == b {
      if a != b { assert {a, b} <= s; SubsetSize({a, b}, s); }
    }
  }

  lemma {:induction false} SubsetSize(a: set<nat>, b: set<nat>)
    requires a <= b
    ensures |a| <= |b|
  {
    if a != {} {
      var x :| x in a;
      SubsetSize(a - {x}, b - {x});
    }
  }

  // ---------------------------------------------------------------- retry after failure, rest after success

  /** The delivery claimed the key, and its handler runs or is not settled. */
  ghost predicate Claims(st: State, id: nat, key: string) {
    || (id in st.running && st.running[id].key == key && st.running[id].claimed)
    || (id in st.settling && st.settling[id].0 == key)
  }

  /** Whatever claims err, a key has one claim at most, and the claim its record. */
  ghost predicate OneClaim(st: State, key: string) {
    && st.running.Keys <= st.used && st.settling.Keys <= st.used && st.running.Keys !! st.settling.Keys
    && (forall id | Claims(st, id, key) :: key in st.records && st.records[key] == InProgress)
    && (forall a, b | Claims(st, a, key) && Claims(st, b, key) :: a == b)
  }

  lemma OneClaimStep(st: State, step: Step, key: string)
    requires OneClaim(st, key)
    ensures OneClaim(Next(st, step), key)
  {
    var st' := Next(st, step);
    forall id | Claims(st', id, key)
      ensures Claims(st, id, key) || (step == Claim(id, key) && key !in st.records && id !in st.used)
    {
    }
    if step.Settle? && step.id in st.settling && st.settling[step.id].0 == key {
      assert Claims(st, step.id, key);
    }
  }

  lemma {:induction false} OneClaimRun(st: State, steps: seq<Step>, key: string)
    requires OneClaim(st, key)
    ensures OneClaim(RunFrom(st, steps), key)
    decreases |steps|
  {
    hide OneClaim, Next;
    if steps != [] {
      OneClaimStep(st, steps[0], key);
      OneClaimRun(Next(st, steps[0]), steps[1..], key);
    }
  }

  lemma {:induction false} RunTogether(st: State, a: seq<Step>, b: seq<Step>)
    ensures RunFrom(st, a + b) == RunFrom(RunFrom(st, a), b)
    decreases |a|
  {
    hide Next;
    if a == [] {
      assert a + b == b;
    } else {
      assert (a + b)[1..] == a[1..] + b;
      RunTogether(Next(st, a[0]), a[1..], b);
    }
  }

  ghost predicate Attempts(step: Step, key: string) { (step.Claim? || step.FailOpen?) && step.key == key }

  /** Nobody claims the key, and it is free. */
  ghost predicate Free(st: State, key: string) { key !in st.records && forall id :: !Claims(st, id, key) }

  lemma {:induction false} FreeUntilClaimed(st: State, steps: seq<Step>, key: string)
    requires Free(st, key) && forall i | 0 <= i < |steps| :: !Attempts(steps[i], key)
    ensures Free(RunFrom(st, steps), key)
    decreases |steps|
  {
    if steps != [] {
      var st' := Next(st, steps[0]);
      assert !Attempts(steps[0], key);
      forall id ensures !Claims(st', id, key) { assert !Claims(st, id, key); }
      if steps[0].Settle? && steps[0].id in st.settling { assert !Claims(st, steps[0].id, key); }
      FreeUntilClaimed(st', steps[1..], key);
    }
  }

  /** A delivery that won the key and did not succeed is retried: once it is settled, through any other steps,
      the key is unrecorded until the next attempt, and a claim then starts the handler. */
  lemma FailureIsRetried(records: Records, before: seq<Step>, id: nat, key: string, between: seq<Step>, again: nat)
    requires var st := RunFrom(Start(records), before); id in st.settling && st.settling[id] == (key, false)
    requires forall i | 0 <= i < |between| :: !Attempts(between[i], key)
    ensures var st := RunFrom(Start(records), before + [Settle(id, true)] + between);
      && key !in st.records
      && (again !in st.used ==>
            var next := RunFrom(Start(records), before + [Settle(id, true)] + between + [Claim(again, key)]);
            next.log == st.log + [Started(again, key)] && again in next.running && next.running[again].claimed)
  {
    var st := RunFrom(Start(records), before);
    OneClaimRun(Start(records), before, key);
    var settled := SettleOne(records, before, id);
    forall a ensures !Claims(settled, a, key) { assert Claims(st, id, key) && (Claims(st, a, key) ==> a == id); }
    FreeUntilClaimed(settled, between, key);
    RunTogether(Start(records), before + [Settle(id, true)], between);
    RunTogether(Start(records), before + [Settle(id, true)] + between, [Claim(again, key)]);
    OneStep(RunFrom(settled, between), Claim(again, key));
  }

  lemma OneStep(st: State, step: Step)
    ensures RunFrom(st, [step]) == Next(st, step)
  {
    assert [step][1..] == [];
  }

  lemma SettleOne(records: Records, before: seq<Step>, id: nat) returns (settled: State)
    ensures settled == Next(RunFrom(Start(records), before), Settle(id, true))
    ensures settled == RunFrom(Start(records), before + [Settle(id, true)])
  {
    settled := Next(RunFrom(Start(records), before), Settle(id, true));
    RunTogether(Start(records), before, [Settle(id, true)]);
    OneStep(RunFrom(Start(records), before), Settle(id, true));
  }

  /** The key is completed, and nobody claims it. */
  ghost predicate Done(st: State, key: string) {
    key in st.records && st.records[key] == Completed && forall id :: !Claims(st, id, key)
  }

  /** What the log says of the key from its n-th entry on: claims are answered as completed; a handler starts
      only for a claim that erred. */
  ghost predicate OnlyAnswered(log: seq<Entry>, n: nat, steps: seq<Step>, key: string) {
    forall i | n <= i < |log| && log[i].key == key ::
      match log[i]
      case Refused(_, _, status) => status == Completed
      case Started(id, _) => exists takes :: FailOpen(id, key, takes) in steps
      case Ended(_, _, _) => true
  }

  lemma {:induction false} DoneForGood(st: State, steps: seq<Step>, key: string)
    requires Done(st, key)
    ensures var st' := RunFrom(st, steps);
      Done(st', key) && st.log <= st'.log && OnlyAnswered(st'.log, |st.log|, steps, key)
    decreases |steps|
  {
    if steps != [] {
      var st' := Next(st, steps[0]);
      forall id ensures !Claims(st', id, key) { assert !Claims(st, id, key); }
      if steps[0].Settle? && steps[0].id in st.settling { assert !Claims(st, steps[0].id, key); }
      assert st.log <= st'.log;
      DoneForGood(st', steps[1..], key);
    }
  }

  /** After a success that was settled the key stays completed through any other steps: every later claim that
      is answered is answered as completed, and a handler starts only where a claim errs. */
  lemma SuccessIsFinal(records: Records, before: seq<Step>, id: nat, key: string, after: seq<Step>)
    requires var st := RunFrom(Start(records), before); id in st.settling && st.settling[id] == (key, true)
    ensures var st := RunFrom(Start(records), before + [Settle(id, true)] + after);
      && key in st.records && st.records[key] == Completed
      && OnlyAnswered(st.log, |RunFrom(Start(records), before).log|, after, key)
  {
    var st := RunFrom(Start(records), before);
    OneClaimRun(Start(records), before, key);
    var settled := SettleOne(records, before, id);
    forall a ensures !Claims(settled, a, key) { assert Claims(st, id, key) && (Claims(st, a, key) ==> a == id); }
    DoneForGood(settled, after, key);
    RunTogether(Start(records), before + [Settle(id, true)], after);
  }
}

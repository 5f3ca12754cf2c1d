/** The Kafka batch handler (awskafka/kafka.go): each partition in offset order up to the first record
    that is not settled, and one resume offset reported for it. */
module KafkaHandler {
  import opened Sorting
  import opened Options
  import opened Settlements

  /** poison: the record's value is not base64. */
  datatype Record<V> = Record(offset: int, poison: bool, value: V)

  predicate OffsetLess<V>(a: Record<V>, b: Record<V>) { a.offset < b.offset }

  /** How a partition's records are dispatched in one invocation. */
  type Dispatcher<!V> = Record<V> -> Dispatched

  /** Whether the loop goes on past a record. */
  predicate Passes<V>(s: Settlement, d: Dispatcher<V>, r: Record<V>) {
    if r.poison then s.delivery == AtMostOnce else Acknowledges(s, d(r))
  }

  function InOrder<V>(records: seq<Record<V>>): seq<Record<V>> { StableSort(records, OffsetLess) }

  /** How many records of a sorted partition the loop goes past. */
  function Passed<V>(s: Settlement, d: Dispatcher<V>, sorted: seq<Record<V>>): (n: nat)
    ensures n <= |sorted|
  {
    if sorted == [] || !Passes(s, d, sorted[0]) then 0 else 1 + Passed(s, d, sorted[1..])
  }

  /** The records the loop looks at: those it goes past, and the one it stops at. */
  function Visited<V>(s: Settlement, d: Dispatcher<V>, sorted: seq<Record<V>>): seq<Record<V>> {
    var n := Passed(s, d, sorted);
    if n < |sorted| then sorted[..n + 1] else sorted
  }

  /** The offset a partition reports, if any. */
  function Report<V>(s: Settlement, d: Dispatcher<V>, records: seq<Record<V>>): Option<int> {
    var sorted := InOrder(records);
    var n := Passed(s, d, sorted);
    if n < |sorted| then Some(sorted[n].offset) else None
  }

  datatype Failure = Failure(partition: string, offset: int)

  ghost function Failures<V>(s: Settlement, d: string -> Dispatcher<V>, event: map<string, seq<Record<V>>>)
    : set<Failure>
  {
    set p | p in event && Report(s, d(p), event[p]).Some? :: Failure(p, Report(s, d(p), event[p]).value)
  }

  // ---------------------------------------------------------------- the source's loops

  /** The loop over one partition's records, sorted in place first. */
  method HandlePartition<V>(s: Settlement, d: Dispatcher<V>, records: seq<Record<V>>)
    returns (report: Option<int>, ghost visited: seq<Record<V>>)
    ensures report == Report(s, d, records) && visited == Visited(s, d, InOrder(records))
  {
    hide InOrder;
    var sorted := InOrder(records);
    report, visited := None, [];
    var i := 0;
    assert sorted[0..] == sorted;
    while i < |sorted|
      invariant 0 <= i <= |sorted| && report == None && visited == sorted[..i]
      invariant Passed(s, d, sorted) == i + Passed(s, d, sorted[i..])
    {
      var record := sorted[i];
      assert sorted[i..][0] == record && sorted[i..][1..] == sorted[i + 1..];
      visited := visited + [record];
      if record.poison {
        if s.delivery != AtMostOnce {
          return Some(record.offset), visited;
        }
      } else if !Acknowledges(s, d(record)) {
        return Some(record.offset), visited;
      }
      i := i + 1;
    }
  }

  /** Handler: every partition, in whatever order the map yields them. The report does not depend on
      that order. */
  method Handle<V>(s: Settlement, d: string -> Dispatcher<V>, event: map<string, seq<Record<V>>>)
    returns (failures: seq<Failure>)
    ensures multiset(failures) == multiset(Failures(s, d, event))
  {
    hide Failures;
    failures := [];
    var todo := event.Keys;
    assert event - event.Keys == map[];
    NoFailures(s, d);
    while todo != {}
      invariant todo <= event.Keys
      invariant multiset(failures) == multiset(Failures(s, d, event - todo))
    {
      var partition :| partition in todo;
      OneMorePartition(s, d, event, todo, partition);
      todo := todo - {partition};
      var report, _ := HandlePartition(s, d(partition), event[partition]);
      if report.Some? {
        failures := failures + [Failure(partition, report.value)];
      }
    }
    assert event - todo == event;
  }

  lemma NoFailures<V>(s: Settlement, d: string -> Dispatcher<V>)
    ensures Failures(s, d, map[]) == {}
  {
  }

  lemma OneMorePartition<V>(s: Settlement, d: string -> Dispatcher<V>, event: map<string, seq<Record<V>>>,
      todo: set<string>, p: string)
    requires todo <= event.Keys && p in todo
    ensures multiset(Failures(s, d, event - (todo - {p}))) == multiset(Failures(s, d, event - todo))
      + var report := Report(s, d(p), event[p]); if report.Some? then multiset{Failure(p, report.value)} else multiset{}
  {
    hide Report;
    var before, after := Failures(s, d, event - todo), Failures(s, d, event - (todo - {p}));
    var report := Report(s, d(p), event[p]);
    assert after == before + if report.Some? then {Failure(p, report.value)} else {};
    assert report.Some? ==> Failure(p, report.value) !in before;
  }

  // ---------------------------------------------------------------- what a report means

  ghost predicate DistinctOffsets<V>(records: seq<Record<V>>) {
    forall i, j | 0 <= i < j < |records| :: records[i].offset != records[j].offset
  }

  ghost predicate Ascending<V>(records: seq<Record<V>>) {
    forall i, j | 0 <= i < j < |records| :: records[i].offset < records[j].offset
  }

  lemma {:induction false} PassedAll<V>(s: Settlement, d: Dispatcher<V>, sorted: seq<Record<V>>)
    ensures var n := Passed(s, d, sorted);
      (forall i | 0 <= i < n :: Passes(s, d, sorted[i])) && (n < |sorted| ==> !Passes(s, d, sorted[n]))
  {
    if sorted != [] && Passes(s, d, sorted[0]) {
      PassedAll(s, d, sorted[1..]);
      var n := Passed(s, d, sorted[1..]);
      forall i | 0 < i < n + 1 ensures Passes(s, d, sorted[i]) {
        assert sorted[i] == sorted[1..][i - 1];
      }
    }
  }

  lemma SortedAscending<V(!new)>(records: seq<Record<V>>)
    requires DistinctOffsets(records)
    ensures Ascending(InOrder(records))
    ensures forall r :: r in InOrder(records) <==> r in records
  {
    SortIsSorted(records, OffsetLess);
    var sorted := InOrder(records);
    forall r ensures r in sorted <==> r in records {
      assert r in multiset(sorted) <==> r in multiset(records);
    }
    StillDistinct(records, sorted);
  }

  /** A rearrangement of records with distinct offsets has distinct offsets. */
  lemma {:induction false} StillDistinct<V>(a: seq<Record<V>>, b: seq<Record<V>>)
    requires DistinctOffsets(a) && multiset(a) == multiset(b)
    ensures DistinctOffsets(b)
  {
    hide DistinctOffsets;
    if b == [] {
      DistinctCons(b);
    } else {
      assert b[0] in multiset(a);
      var k :| 0 <= k < |a| && a[k] == b[0];
      var rest := a[..k] + a[k + 1..];
      WithoutOne(a, k);
      Sorting.WithoutOne(b, a, k);
      StillDistinct(rest, b[1..]);
      forall r | r in b[1..] ensures r.offset != b[0].offset {
        InRearranged(rest, b[1..], r);
      }
      DistinctCons(b);
    }
  }

  lemma DistinctCons<V>(b: seq<Record<V>>)
    requires b != [] ==> DistinctOffsets(b[1..]) && forall r | r in b[1..] :: r.offset != b[0].offset
    ensures DistinctOffsets(b)
  {
    forall i, j | 0 <= i < j < |b| ensures b[i].offset != b[j].offset {
      assert b[j] == b[1..][j - 1];
      if i > 0 { assert b[i] == b[1..][i - 1]; }
    }
  }

  lemma InRearranged<V>(a: seq<Record<V>>, b: seq<Record<V>>, r: Record<V>)
    requires multiset(a) == multiset(b) && r in b
    ensures r in a
  {
    assert r in multiset(a);
  }

  lemma WithoutOne<V>(a: seq<Record<V>>, k: nat)
    requires DistinctOffsets(a) && k < |a|
    ensures DistinctOffsets(a[..k] + a[k + 1..])
    ensures forall r | r in a[..k] + a[k + 1..] :: r.offset != a[k].offset
  {
  }

  /** The record may be passed over: its dispatch may be forgotten, or it is not base64 and delivered at most
      once. */
  predicate MayPass<V>(s: Settlement, d: Dispatcher<V>, r: Record<V>) {
    if r.poison then s.delivery.AtMostOnce? else MayForget(s, d(r))
  }

  /** A report is exactly the least offset that may not be passed over: every smaller one was passed.
      Without a report, everything was passed. */
  lemma ReportMeaning<V(!new)>(s: Settlement, d: Dispatcher<V>, records: seq<Record<V>>)
    requires DistinctOffsets(records)
    ensures Report(s, d, records) == None <==> forall r | r in records :: MayPass(s, d, r)
    ensures forall offset :: Report(s, d, records) == Some(offset) <==>
      && (exists r | r in records :: r.offset == offset && !MayPass(s, d, r))
      && (forall r | r in records && r.offset < offset :: MayPass(s, d, r))
  {
    assert forall r: Record<V> :: MayPass(s, d, r) <==> Passes(s, d, r);
    hide StableSort, Passes, MayPass;
    var sorted := InOrder(records);
    var n := Passed(s, d, sorted);
    SortedAscending(records);
    PassedAll(s, d, sorted);
    assert forall r :: r in sorted <==> r in records;
    if n < |sorted| {
      assert sorted[n] in records;
      forall r | r in records && r.offset < sorted[n].offset ensures Passes(s, d, r) {
        var i :| 0 <= i < |sorted| && sorted[i] == r;
        assert i < n;
      }
    }
  }

  /** The records looked at are those up to the reported offset; all of them when nothing is reported. */
  lemma VisitedUpToReport<V(!new)>(s: Settlement, d: Dispatcher<V>, records: seq<Record<V>>, r: Record<V>)
    requires DistinctOffsets(records)
    ensures r in Visited(s, d, InOrder(records)) <==>
      r in records && (Report(s, d, records).Some? ==> r.offset <= Report(s, d, records).value)
  {
    hide StableSort, Passes;
    SortedAscending(records);
    assert r in InOrder(records) <==> r in records;
    if r in records {
      var sorted := InOrder(records);
      var i :| 0 <= i < |sorted| && sorted[i] == r;
    }
  }

  // ---------------------------------------------------------------- redelivery

  /** One invocation on a partition: how many records it is given, in what order, and how they fare. */
  datatype Delivery<!V> = Delivery(batch: seq<Record<V>>, dispatch: Dispatcher<V>)

  /** The batch holds the records from position pos on, in any order. */
  ghost predicate Delivers<V>(log: seq<Record<V>>, pos: nat, batch: seq<Record<V>>) {
    pos + |batch| <= |log| && multiset(batch) == multiset(log[pos..pos + |batch|])
  }

  /** Where the event source resumes: at the reported offset, or after the batch. */
  ghost function Resume<V>(log: seq<Record<V>>, pos: nat, batch: seq<Record<V>>, report: Option<int>): nat {
    if report.Some? && exists j :: 0 <= j < |log| && log[j].offset == report.value then
      var j :| 0 <= j < |log| && log[j].offset == report.value; j
    else pos + |batch|
  }

  /** A run of deliveries, each starting where the one before it left the partition. */
  ghost predicate IsRun<V>(s: Settlement, log: seq<Record<V>>, pos: nat, run: seq<Delivery<V>>)
    decreases |run|
  {
    run != [] ==>
      && Delivers(log, pos, run[0].batch)
      && IsRun(s, log, Resume(log, pos, run[0].batch, Report(s, run[0].dispatch, run[0].batch)), run[1..])
  }

  /** The records passed by a run, in the order they were passed. */
  ghost function PassedInRun<V>(s: Settlement, run: seq<Delivery<V>>): seq<Record<V>> {
    if run == [] then []
    else
      var sorted := InOrder(run[0].batch);
      sorted[..Passed(s, run[0].dispatch, sorted)] + PassedInRun(s, run[1..])
  }

  ghost function Position<V>(s: Settlement, log: seq<Record<V>>, pos: nat, run: seq<Delivery<V>>): nat
    decreases |run|
  {
    if run == [] then pos
    else Position(s, log, Resume(log, pos, run[0].batch, Report(s, run[0].dispatch, run[0].batch)), run[1..])
  }

  lemma BatchSorts<V(!new)>(log: seq<Record<V>>, pos: nat, batch: seq<Record<V>>)
    requires Ascending(log) && Delivers(log, pos, batch)
    ensures pos + |batch| <= |log| && |InOrder(batch)| == |batch| && InOrder(batch) == log[pos..pos + |batch|]
  {
    var part := log[pos..pos + |batch|];
    assert StrictWeakOrder<Record<V>>(OffsetLess);
    assert Separates(OffsetLess, part);
    SortForgetsOrder(part, batch, OffsetLess);
    SortOfSorted(part, OffsetLess);
  }

  lemma ResumesAt<V(!new)>(log: seq<Record<V>>, pos: nat, batch: seq<Record<V>>, j: nat)
    requires Ascending(log) && j < |log|
    ensures Resume(log, pos, batch, Some(log[j].offset)) == j
  {
    assert log[j].offset == Some(log[j].offset).value;
  }

  lemma OneDelivery<V(!new)>(s: Settlement, log: seq<Record<V>>, pos: nat, d: Delivery<V>)
    requires Ascending(log) && Delivers(log, pos, d.batch)
    ensures InOrder(d.batch) == log[pos..pos + |d.batch|]
    ensures var n := Passed(s, d.dispatch, InOrder(d.batch));
      && n <= |InOrder(d.batch)| && pos + n <= |log| && InOrder(d.batch)[..n] == log[pos..pos + n]
      && Resume(log, pos, d.batch, Report(s, d.dispatch, d.batch)) == pos + n
  {
    hide *;
    BatchSorts(log, pos, d.batch);
    ReportIs(s, d.dispatch, d.batch);
    var n := Passed(s, d.dispatch, InOrder(d.batch));
    if n < |d.batch| {
      assert InOrder(d.batch)[n] == log[pos + n];
      ResumesAt(log, pos, d.batch, pos + n);
    } else {
      ResumesAfter(log, pos, d.batch);
    }
  }

  lemma ReportIs<V>(s: Settlement, d: Dispatcher<V>, records: seq<Record<V>>)
    ensures var (sorted, n) := (InOrder(records), Passed(s, d, InOrder(records)));
      n <= |sorted| && Report(s, d, records) == if n < |sorted| then Some(sorted[n].offset) else None
  {
    hide StableSort, Passes;
  }

  lemma ResumesAfter<V>(log: seq<Record<V>>, pos: nat, batch: seq<Record<V>>)
    ensures Resume(log, pos, batch, None) == pos + |batch|
  {
  }

  /** Redelivering from each reported offset passes the partition in offset order, each record once,
      with no gap. */
  lemma {:induction false} RedeliveryHasNoGap<V(!new)>(s: Settlement, log: seq<Record<V>>, pos: nat,
      run: seq<Delivery<V>>)
    requires Ascending(log) && pos <= |log| && IsRun(s, log, pos, run)
    ensures pos <= Position(s, log, pos, run) <= |log|
    ensures PassedInRun(s, run) == log[pos..Position(s, log, pos, run)]
    decreases |run|
  {
    hide InOrder, Resume, Ascending, Report, Passed, Delivers;
    if run != [] {
      var d := run[0];
      OneDelivery(s, log, pos, d);
      var n := Passed(s, d.dispatch, InOrder(d.batch));
      RedeliveryHasNoGap(s, log, pos + n, run[1..]);
      var end := Position(s, log, pos, run);
      assert log[pos..end] == log[pos..pos + n] + log[pos + n..end];
    }
  }

  /** Under the zero settlement, however often a partition is redelivered, a record is only passed by a
      delivery that dispatched it successfully. */
  lemma {:induction false} ZeroRunPassesOnlySuccess<V(!new)>(log: seq<Record<V>>, pos: nat, run: seq<Delivery<V>>,
      r: Record<V>)
    requires Ascending(log) && pos <= |log| && IsRun(ZERO, log, pos, run) && r in PassedInRun(ZERO, run)
    ensures !r.poison && exists k :: 0 <= k < |run| && r in run[k].batch && run[k].dispatch(r).successful
    decreases |run|
  {
    hide InOrder, Resume, Ascending, Report, Passes, Delivers;
    var d := run[0];
    OneDelivery(ZERO, log, pos, d);
    var n := Passed(ZERO, d.dispatch, InOrder(d.batch));
    if r in InOrder(d.batch)[..n] {
      PassedInDelivery(d, r);
    } else {
      ZeroRunPassesOnlySuccess(log, pos + n, run[1..], r);
      var k :| 0 <= k < |run[1..]| && r in run[1..][k].batch && run[1..][k].dispatch(r).successful;
      assert run[k + 1] == run[1..][k];
    }
  }

  lemma PassedInDelivery<V(!new)>(d: Delivery<V>, r: Record<V>)
    requires r in InOrder(d.batch)[..Passed(ZERO, d.dispatch, InOrder(d.batch))]
    ensures r in d.batch && !r.poison && d.dispatch(r).successful
  {
    PassedAll(ZERO, d.dispatch, InOrder(d.batch));
    assert r in multiset(InOrder(d.batch));
  }
}

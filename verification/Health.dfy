/** Health checks (healthcheck/healthcheck.go): one report entry per registered check, whatever the
    names, and unhealthy exactly when some check failed. */
module HealthChecks {
  import opened JsonTrees
  import opened Suffixes

  datatype Status = StatusOk | StatusWarning | StatusFailed | Other(text: string)

  datatype CheckResult = CheckResult(status: Status, kind: string, data: map<string, Json>)

  /** How a check's function ends. */
  datatype Outcome = Returned(result: CheckResult) | Panicked(text: string)

  datatype Check = Check(name: string, outcome: Outcome)

  datatype Response = Response(isHealthy: bool, healthChecks: map<string, CheckResult>)

  /** runCheck: a panic becomes a failed result under the check's own name. */
  function RunCheck(check: Check): CheckResult {
    match check.outcome
    case Returned(result) => result
    case Panicked(text) => CheckResult(StatusFailed, check.name, map["panic" := Str(text)])
  }

  method DedupeKey(existing: map<string, CheckResult>, name: string) returns (key: string)
    ensures key == Unused(name, "-", existing.Keys)
  {
    if name !in existing {
      UnusedIsFirst(name, "-", existing.Keys, 1);
      return name;
    }
    var n := 2;
    var candidate := Numbered(name, "-", n);
    while candidate in existing
      invariant n >= 2 && candidate == Numbered(name, "-", n)
      invariant forall i | 1 <= i < n :: Numbered(name, "-", i) in existing.Keys
      decreases |existing| + 1 - n
    {
      TakenAreFew(name, "-", existing.Keys, n);
      n := n + 1;
      candidate := Numbered(name, "-", n);
    }
    UnusedIsFirst(name, "-", existing.Keys, n);
    key := candidate;
  }

  /** Run, once every check has ended; results[i] is what check i's goroutine stored. */
  method Run(checks: seq<Check>) returns (response: Response)
    ensures response.healthChecks == Report(checks) && EntryForEach(checks, Keys(checks), response.healthChecks)
    ensures response.isHealthy <==> forall i | 0 <= i < |checks| ::
      checks[i].outcome.Returned? && checks[i].outcome.result.status != StatusFailed
  {
    var results := seq(|checks|, i requires 0 <= i < |checks| => RunCheck(checks[i]));
    var isHealthy, healthChecks := true, map[];
    var i := 0;
    while i < |checks|
      invariant 0 <= i <= |checks|
      invariant healthChecks == Report(checks[..i])
      invariant isHealthy <==> forall j | 0 <= j < i :: RunCheck(checks[j]).status != StatusFailed
    {
      assert checks[..i + 1][..i] == checks[..i];
      var key := DedupeKey(healthChecks, checks[i].name);
      healthChecks := healthChecks[key := results[i]];
      if results[i].status == StatusFailed {
        isHealthy := false;
      }
      i := i + 1;
    }
    assert checks[..i] == checks;
    OneEntryPerCheck(checks);
    response := Response(isHealthy, healthChecks);
  }

  /** The report's entries, in registration order. */
  function Report(checks: seq<Check>): map<string, CheckResult> {
    if checks == [] then map[]
    else
      var n := |checks| - 1;
      var before := Report(checks[..n]);
      before[Unused(checks[n].name, "-", before.Keys) := RunCheck(checks[n])]
  }

  /** The key each check's entry is under. */
  ghost function Keys(checks: seq<Check>): (keys: seq<string>)
    ensures |keys| == |checks|
  {
    if checks == [] then []
    else
      var n := |checks| - 1;
      Keys(checks[..n]) + [Unused(checks[n].name, "-", Report(checks[..n]).Keys)]
  }

  /** A check's entry is what it returned; a check that panicked failed, with the panic's text. */
  predicate Records(check: Check, entry: CheckResult) {
    if check.outcome.Returned? then entry == check.outcome.result
    else entry == CheckResult(StatusFailed, check.name, map["panic" := Str(check.outcome.text)])
  }

  /** Each check has an entry of its own, under its key, and there is no other. */
  ghost predicate EntryForEach(checks: seq<Check>, keys: seq<string>, report: map<string, CheckResult>) {
    && |keys| == |checks| == |report| && AllDiffer(keys)
    && (forall key :: key in report <==> key in keys)
    && AllRecorded(checks, keys, report)
  }

  ghost predicate AllDiffer(keys: seq<string>) { forall i, j | 0 <= i < j < |keys| :: keys[i] != keys[j] }

  /** The entry under each key is that of the check in its place. */
  ghost predicate AllRecorded(checks: seq<Check>, keys: seq<string>, report: map<string, CheckResult>)
    requires |keys| == |checks|
  {
    forall i | 0 <= i < |keys| :: keys[i] in report && Records(checks[i], report[keys[i]])
  }

  lemma OneMoreEntry(checks: seq<Check>, keys: seq<string>, report: map<string, CheckResult>, check: Check, key: string)
    requires EntryForEach(checks, keys, report) && key !in report
    ensures EntryForEach(checks + [check], keys + [key], report[key := RunCheck(check)])
  {
    var result := RunCheck(check);
    assert Records(check, result);
    hide RunCheck, Records, AllDiffer, AllRecorded;
    SizeOneMore(report, key, result);
    DistinctOneMore(keys, key);
    EntriesOneMore(checks, keys, report, check, key, result);
  }

  lemma DistinctOneMore(keys: seq<string>, key: string)
    requires AllDiffer(keys) && key !in keys
    ensures AllDiffer(keys + [key])
    ensures forall k :: k in keys + [key] <==> k in keys || k == key
  {
  }

  lemma EntriesOneMore(checks: seq<Check>, keys: seq<string>, report: map<string, CheckResult>, check: Check,
      key: string, result: CheckResult)
    requires |keys| == |checks| && key !in report && Records(check, result) && AllRecorded(checks, keys, report)
    ensures AllRecorded(checks + [check], keys + [key], report[key := result])
  {
    hide Records;
    var after, now := report[key := result], keys + [key];
    forall i | 0 <= i < |now| ensures now[i] in after && Records((checks + [check])[i], after[now[i]]) {
      assert i < |keys| ==> now[i] == keys[i] && (checks + [check])[i] == checks[i];
    }
  }

  lemma SizeOneMore(report: map<string, CheckResult>, key: string, result: CheckResult)
    requires key !in report
    ensures var after := report[key := result]; |after| == |report| + 1 && after.Keys == report.Keys + {key}
  {
    var after := report[key := result];
    assert after.Keys == report.Keys + {key};
    assert |after| == |after.Keys| && |report| == |report.Keys|;
  }

  /** Every check keeps an entry of its own, whatever the names. */
  lemma {:induction false} OneEntryPerCheck(checks: seq<Check>)
    ensures EntryForEach(checks, Keys(checks), Report(checks))
    decreases |checks|
  {
    if checks != [] {
      var n := |checks| - 1;
      OneEntryPerCheck(checks[..n]);
      var before := Report(checks[..n]);
      var key := Unused(checks[n].name, "-", before.Keys);
      assert key !in before;
      hide Unused, RunCheck, EntryForEach;
      OneMoreEntry(checks[..n], Keys(checks[..n]), before, checks[n], key);
      assert checks[..n] + [checks[n]] == checks;
    }
  }

  /** The first check of a name keeps it, unless an earlier numbered name took it; a later one is
      numbered. */
  lemma KeyOfCheck(checks: seq<Check>, i: nat, m: nat)
    requires i < |checks| && 1 <= m
    requires forall k | 1 <= k < m :: Numbered(checks[i].name, "-", k) in Keys(checks[..i])
    requires Numbered(checks[i].name, "-", m) !in Keys(checks[..i])
    ensures Keys(checks)[i] == Numbered(checks[i].name, "-", m)
  {
    hide Keys, Report, Unused, Numbered, RunCheck;
    KeyOfAny(checks, i);
    OneEntryPerCheck(checks[..i]);
    UnusedIsFirst(checks[i].name, "-", Report(checks[..i]).Keys, m);
  }

  /** A check's key is the first form unused by the entries before it. */
  lemma KeyOfAny(checks: seq<Check>, i: nat)
    requires i < |checks|
    ensures |Keys(checks)| == |checks|
    ensures Keys(checks)[i] == Unused(checks[i].name, "-", Report(checks[..i]).Keys)
  {
    hide Report, Unused;
    KeysOfPrefix(checks, i + 1);
    assert checks[..i + 1][..i] == checks[..i];
  }

  lemma {:induction false} KeysOfPrefix(checks: seq<Check>, n: nat)
    requires n <= |checks|
    ensures Keys(checks[..n]) == Keys(checks)[..n]
    decreases |checks|
  {
    hide Report;
    var m := |checks| - 1;
    if n == |checks| {
      assert checks[..n] == checks;
    } else {
      KeysOfPrefix(checks[..m], n);
      assert checks[..m][..n] == checks[..n];
    }
  }
}

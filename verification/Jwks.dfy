/** The JWKS resolver (auth/jwks.go): a key cache behind a refetch throttle, with a clock and a key
    endpoint that answers in any way. */
module JwksResolver {

  /** Nanoseconds since the zero time. */
  type Time = int

  const MAX_DURATION: int := 0x7FFF_FFFF_FFFF_FFFF
  const MIN_DURATION: int := -0x8000_0000_0000_0000

  /** Time.Sub saturates. */
  function Sub(t: Time, u: Time): int {
    if t - u > MAX_DURATION then MAX_DURATION else if t - u < MIN_DURATION then MIN_DURATION else t - u
  }

  /** A fetch: an error of any kind, or a parsed key set. */
  datatype Fetch<K> = FetchError | KeySet(byKid: map<string, seq<K>>, keyless: seq<K>)

  datatype Cache<K> = Cache(byKid: map<string, seq<K>>, keyless: seq<K>, fetched: bool)

  /** stamps: when each fetch so far was attempted. */
  datatype State<K> = State(cache: Cache<K>, lastAttempt: Time, stamps: seq<Time>)

  datatype Answer<K> = Keys(keys: seq<K>) | Error

  /** One ResolveKeys call: the token's kid, the two clock readings it may take, and how a fetch would
      end. */
  datatype Call<K> = Call(kid: string, check: Time, stamp: Time, fetch: Fetch<K>)

  function Lookup<K>(cache: Cache<K>, kid: string): seq<K> {
    (if kid != "" && kid in cache.byKid then cache.byKid[kid] else []) + cache.keyless
  }

  predicate IsHit<K>(cache: Cache<K>, kid: string) { cache.fetched && Lookup(cache, kid) != [] }

  predicate Fetches<K>(minRefetch: int, st: State<K>, c: Call<K>) {
    !IsHit(st.cache, c.kid) && (!st.cache.fetched || c.kid != "") && Sub(c.check, st.lastAttempt) >= minRefetch
  }

  function Refreshed<K>(cache: Cache<K>, fetch: Fetch<K>): Cache<K> {
    match fetch
    case FetchError => cache
    case KeySet(byKid, keyless) => Cache(byKid, keyless, true)
  }

  function Step<K>(minRefetch: int, st: State<K>, c: Call<K>): (State<K>, Answer<K>) {
    if !Fetches(minRefetch, st, c) then
      (st, if st.cache.fetched then Keys(Lookup(st.cache, c.kid)) else Keys([]))
    else
      var cache := Refreshed(st.cache, c.fetch);
      (State(cache, c.stamp, st.stamps + [c.stamp]), if cache.fetched then Keys(Lookup(cache, c.kid)) else Error)
  }

  function RunFrom<K>(minRefetch: int, st: State<K>, calls: seq<Call<K>>): State<K>
    decreases |calls|
  {
    if calls == [] then st else RunFrom(minRefetch, Step(minRefetch, st, calls[0]).0, calls[1..])
  }

  // ---------------------------------------------------------------- the source's object

  class Resolver<K> {
    const minRefetch: int
    var byKid: map<string, seq<K>>
    var keyless: seq<K>
    var fetched: bool
    var lastAttempt: Time
    ghost var stamps: seq<Time>

    ghost function Abs(): State<K>
      reads this
    {
      State(Cache(byKid, keyless, fetched), lastAttempt, stamps)
    }

    constructor (minRefetch: int)
      ensures this.minRefetch == minRefetch && Abs() == New()
    {
      this.minRefetch := minRefetch;
      byKid, keyless, fetched, lastAttempt, stamps := map[], [], false, 0, [];
    }

    method LookupLocked(kid: string) returns (keys: seq<K>)
      ensures keys == Lookup(Abs().cache, kid)
    {
      keys := [];
      if kid != "" && kid in byKid {
        keys := keys + byKid[kid];
      }
      keys := keys + keyless;
    }

    /** fetch: replaces the cache, or leaves it as it was. */
    method FetchKeys(outcome: Fetch<K>) returns (err: bool)
      modifies this
      ensures err == outcome.FetchError?
      ensures Abs() == old(Abs()).(cache := Refreshed(old(Abs()).cache, outcome))
    {
      match outcome {
        case FetchError => err := true;
        case KeySet(k, l) =>
          byKid, keyless, fetched := k, l, true;
          err := false;
      }
    }

    method ResolveKeys(c: Call<K>) returns (answer: Answer<K>)
      modifies this
      ensures (Abs(), answer) == Step(minRefetch, old(Abs()), c)
    {
      if fetched {
        var keys := LookupLocked(c.kid);
        if |keys| > 0 {
          return Keys(keys);
        }
      }
      if (!fetched || c.kid != "") && Sub(c.check, lastAttempt) >= minRefetch {
        lastAttempt := c.stamp;
        stamps := stamps + [c.stamp];
        var err := FetchKeys(c.fetch);
        if err && !fetched {
          return Error;
        }
      }
      if !fetched {
        return Keys([]);
      }
      var keys := LookupLocked(c.kid);
      return Keys(keys);
    }
  }

  function New<K>(): State<K> { State(Cache(map[], [], false), 0, []) }

  // ---------------------------------------------------------------- the throttle

  /** The clock never runs backwards within a call. */
  ghost predicate Monotone<K>(calls: seq<Call<K>>) {
    forall i | 0 <= i < |calls| :: calls[i].check <= calls[i].stamp
  }

  ghost predicate Spaced(stamps: seq<Time>, gap: int) {
    forall i, j | 0 <= i < j < |stamps| :: stamps[j] - stamps[i] >= gap
  }

  ghost predicate Throttled<K>(minRefetch: int, st: State<K>) {
    Spaced(st.stamps, minRefetch) && (st.stamps != [] ==> st.lastAttempt == st.stamps[|st.stamps| - 1])
  }

  lemma StepThrottled<K>(minRefetch: int, st: State<K>, c: Call<K>)
    requires 0 < minRefetch <= MAX_DURATION && Throttled(minRefetch, st) && c.check <= c.stamp
    ensures Throttled(minRefetch, Step(minRefetch, st, c).0)
  {
    if Fetches(minRefetch, st, c) {
      var stamps := st.stamps + [c.stamp];
      forall i | 0 <= i < |st.stamps| ensures c.stamp - stamps[i] >= minRefetch {
        assert c.check - st.lastAttempt >= minRefetch;
        assert i < |st.stamps| - 1 ==> st.stamps[|st.stamps| - 1] - st.stamps[i] >= minRefetch;
      }
    }
  }

  lemma {:induction false} RunThrottled<K>(minRefetch: int, st: State<K>, calls: seq<Call<K>>)
    requires 0 < minRefetch <= MAX_DURATION && Throttled(minRefetch, st) && Monotone(calls)
    ensures Throttled(minRefetch, RunFrom(minRefetch, st, calls))
    decreases |calls|
  {
    if calls != [] {
      StepThrottled(minRefetch, st, calls[0]);
      RunThrottled(minRefetch, Step(minRefetch, st, calls[0]).0, calls[1..]);
    }
  }

  /** How many stamps fall in [from, to]. */
  function InWindow(stamps: seq<Time>, from: Time, to: Time): nat {
    if stamps == [] then 0
    else
      var n := |stamps| - 1;
      InWindow(stamps[..n], from, to) + if from <= stamps[n] <= to then 1 else 0
  }

  lemma {:induction false} NarrowWindow(stamps: seq<Time>, from: Time, to: Time, to': Time)
    requires to' <= to && forall i | 0 <= i < |stamps| :: stamps[i] <= to'
    ensures InWindow(stamps, from, to) == InWindow(stamps, from, to')
  {
    if stamps != [] {
      NarrowWindow(stamps[..|stamps| - 1], from, to, to');
    }
  }

  lemma {:induction false} Before(stamps: seq<Time>, from: Time, to: Time)
    requires forall i | 0 <= i < |stamps| :: stamps[i] < from
    ensures InWindow(stamps, from, to) == 0
  {
    if stamps != [] {
      Before(stamps[..|stamps| - 1], from, to);
    }
  }

  /** A stretch of time long enough for n stamps at least gap apart. */
  ghost predicate RoomFor(n: int, gap: int, length: int) { n > 0 ==> (n - 1) * gap <= length }

  lemma RoomForOneMore(n: nat, gap: int, length: int, length': int)
    requires RoomFor(n, gap, length - gap) && 0 < gap <= length <= length'
    ensures RoomFor(n + 1, gap, length')
  {
    if n > 0 {
      assert n * gap == (n - 1) * gap + gap;
    }
  }

  lemma RoomInLonger(n: int, gap: int, length: int, length': int)
    requires length <= length' && (n <= 1 ==> 0 <= length')
    ensures RoomFor(n, gap, length) ==> RoomFor(n, gap, length')
    ensures n <= 1 ==> RoomFor(n, gap, length')
  {
  }

  lemma {:induction false} SpacedWindow(stamps: seq<Time>, gap: int, from: Time, length: nat)
    requires gap > 0 && Spaced(stamps, gap)
    ensures RoomFor(InWindow(stamps, from, from + length), gap, length)
    decreases |stamps|
  {
    hide RoomFor;
    if stamps == [] {
      RoomInLonger(0, gap, length, length);
    } else {
      var n := |stamps| - 1;
      var last, rest := stamps[n], stamps[..n];
      forall i | 0 <= i < n ensures rest[i] <= last - gap { assert stamps[n] - stamps[i] >= gap; }
      if !(from <= last <= from + length) {
        SpacedWindow(rest, gap, from, length);
      } else if last - gap < from {
        Before(rest, from, from + length);
        RoomInLonger(1, gap, length, length);
      } else {
        NarrowWindow(rest, from, from + length, last - gap);
        SpacedWindow(rest, gap, from, last - gap - from);
        RoomForOneMore(InWindow(rest, from, last - gap), gap, last - from, length);
      }
    }
  }

  lemma MulMonotone(a: int, b: int, gap: int)
    requires gap > 0
    ensures a >= b ==> a * gap >= b * gap
  {
    if a >= b {
      assert (a - b) * gap >= 0;
      assert a * gap - b * gap == (a - b) * gap;
    }
  }

  lemma AtMostQuotient(n: int, gap: int, length: nat)
    requires gap > 0 && n * gap <= length
    ensures n <= length / gap
  {
    var q := length / gap;
    assert length < (q + 1) * gap by {
      assert length == q * gap + length % gap;
      assert (q + 1) * gap == q * gap + gap;
    }
    MulMonotone(n, q + 1, gap);
  }

  /** Any interval of a given length sees at most floor(length / minRefetch) + 1 fetches, over any calls
      with any kids and outcomes. */
  lemma FetchesAreBounded<K>(minRefetch: int, calls: seq<Call<K>>, from: Time, length: nat)
    requires 0 < minRefetch <= MAX_DURATION && Monotone(calls)
    ensures InWindow(RunFrom(minRefetch, New(), calls).stamps, from, from + length) <= length / minRefetch + 1
  {
    RunThrottled(minRefetch, New(), calls);
    var stamps := RunFrom(minRefetch, New<K>(), calls).stamps;
    SpacedWindow(stamps, minRefetch, from, length);
    var n := InWindow(stamps, from, from + length);
    if n > 0 {
      AtMostQuotient(n - 1, minRefetch, length);
    } else {
      AtMostQuotient(0, minRefetch, length);
    }
  }

  // ---------------------------------------------------------------- the cache

  /** The key sets a run fetches, in order. */
  function FetchedSets<K>(minRefetch: int, st: State<K>, calls: seq<Call<K>>): seq<Cache<K>>
    decreases |calls|
  {
    if calls == [] then []
    else
      var c := calls[0];
      (if Fetches(minRefetch, st, c) && c.fetch.KeySet? then [Cache(c.fetch.byKid, c.fetch.keyless, true)] else [])
      + FetchedSets(minRefetch, Step(minRefetch, st, c).0, calls[1..])
  }

  /** After any calls the cache is the key set of the last successful fetch among them: failed fetches,
      throttled calls and cached answers leave it. */
  lemma {:induction false} CacheIsLastFetched<K>(minRefetch: int, st: State<K>, calls: seq<Call<K>>)
    ensures var (sets, cache) := (FetchedSets(minRefetch, st, calls), RunFrom(minRefetch, st, calls).cache);
      cache == if sets == [] then st.cache else sets[|sets| - 1]
    decreases |calls|
  {
    if calls != [] {
      CacheIsLastFetched(minRefetch, Step(minRefetch, st, calls[0]).0, calls[1..]);
    }
  }

  /** Once a fetch has succeeded no call errs, and every answer is what the cache then holds. */
  lemma {:induction false} NoErrorAfterSuccess<K>(minRefetch: int, st: State<K>, calls: seq<Call<K>>, c: Call<K>)
    requires st.cache.fetched
    ensures var (after, answer) := Step(minRefetch, RunFrom(minRefetch, st, calls), c);
      after.cache.fetched && answer == Keys(Lookup(after.cache, c.kid))
    decreases |calls|
  {
    if calls != [] {
      NoErrorAfterSuccess(minRefetch, Step(minRefetch, st, calls[0]).0, calls[1..], c);
    }
  }

  /** After any calls from a new resolver, a call answers with an error exactly when no fetch has
      succeeded and its own, not throttled, fails. */
  lemma ErrorIsFailedFirstFetch<K>(minRefetch: int, calls: seq<Call<K>>, c: Call<K>)
    ensures var st := RunFrom(minRefetch, New(), calls);
      Step(minRefetch, st, c).1 == Error
      <==> (FetchedSets(minRefetch, New(), calls) == []
            && Sub(c.check, st.lastAttempt) >= minRefetch && c.fetch.FetchError?)
  {
    CacheIsLastFetched(minRefetch, New(), calls);
    AllFetched(minRefetch, New(), calls);
  }

  lemma {:induction false} AllFetched<K>(minRefetch: int, st: State<K>, calls: seq<Call<K>>)
    ensures forall i | 0 <= i < |FetchedSets(minRefetch, st, calls)| :: FetchedSets(minRefetch, st, calls)[i].fetched
    decreases |calls|
  {
    if calls != [] {
      AllFetched(minRefetch, Step(minRefetch, st, calls[0]).0, calls[1..]);
    }
  }

  /** The keys of a set that may have signed a token: those with the token's kid, when it has one, and those
      without any, in that order. */
  function Candidates<K>(keySet: Cache<K>, kid: string): (keys: seq<K>) {
    if kid == "" || kid !in keySet.byKid then keySet.keyless else keySet.byKid[kid] + keySet.keyless
  }

  lemma {:induction false} FetchedSetsMore<K>(minRefetch: int, st: State<K>, calls: seq<Call<K>>, c: Call<K>)
    ensures RunFrom(minRefetch, st, calls + [c]) == Step(minRefetch, RunFrom(minRefetch, st, calls), c).0
    ensures var now := RunFrom(minRefetch, st, calls);
      FetchedSets(minRefetch, st, calls + [c]) == FetchedSets(minRefetch, st, calls)
        + if Fetches(minRefetch, now, c) && c.fetch.KeySet?
          then [Cache(c.fetch.byKid, c.fetch.keyless, true)] else []
    decreases |calls|
  {
    hide Step, Fetches;
    if calls == [] {
      assert calls + [c] == [c] && [c][1..] == [];
      assert RunFrom(minRefetch, Step(minRefetch, st, c).0, []) == Step(minRefetch, st, c).0;
      assert FetchedSets(minRefetch, Step(minRefetch, st, c).0, []) == [];
    } else {
      assert (calls + [c])[1..] == calls[1..] + [c];
      FetchedSetsMore(minRefetch, Step(minRefetch, st, calls[0]).0, calls[1..], c);
    }
  }

  /** A call asks the endpoint exactly when it is not throttled and what was fetched last cannot answer it: no
      fetch has succeeded, or the token has a kid and no key of the set may have signed it. Its answer is the
      keys of the last set fetched, its own fetch included; none, or an error, while there is no set. */
  lemma AnswersAreOfLastSet<K>(minRefetch: int, calls: seq<Call<K>>, c: Call<K>)
    ensures var st := RunFrom(minRefetch, New(), calls);
      var (sets, now) := (FetchedSets(minRefetch, New(), calls), FetchedSets(minRefetch, New(), calls + [c]));
      var (after, answer) := Step(minRefetch, st, c);
      && (|after.stamps| > |st.stamps| <==>
            && Sub(c.check, st.lastAttempt) >= minRefetch
            && (sets == [] || (c.kid != "" && Candidates(sets[|sets| - 1], c.kid) == [])))
      && (now != [] ==> answer == Keys(Candidates(now[|now| - 1], c.kid)))
      && (now == [] ==> answer == Error || answer == Keys([]))
  {
    CacheIsLastFetched(minRefetch, New(), calls);
    AllFetched(minRefetch, New(), calls);
    CacheIsLastFetched(minRefetch, New(), calls + [c]);
    AllFetched(minRefetch, New(), calls + [c]);
    FetchedSetsMore(minRefetch, New(), calls, c);
    hide RunFrom, FetchedSets;
  }
}

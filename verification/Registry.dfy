/** The versioned handler registry (registry.go): what its three indexes say about the registrations it
    accepted, and the selection rule stated over these registrations alone. */
module Registries {
  import opened Options
  import opened Sorting
  import opened SortedNames

  datatype Topic = Topic(id: string, version: string)

  /** One Register call. */
  datatype Registration<H> = Registration(topic: Topic, handler: H, asDefault: bool)

  datatype RegisterError = AlreadyRegistered(topic: Topic) | SecondDefault(id: string, existing: string)

  datatype Selection<H> = Selected(handler: H) | UnknownTopic | UnknownVersion | NoDefault

  datatype Indexes<H> = Indexes(handlers: map<Topic, H>, versions: map<string, nat>, defaults: map<string, string>)

  function Count(versions: map<string, nat>, id: string): nat { if id in versions then versions[id] else 0 }

  predicate DeclaresDefault<H>(r: Registration<H>) { r.asDefault && r.topic.version != "" }

  function Refusal<H>(x: Indexes<H>, r: Registration<H>): Option<RegisterError> {
    if r.topic in x.handlers then Some(AlreadyRegistered(r.topic))
    else if r.topic.id in x.defaults && DeclaresDefault(r) then Some(SecondDefault(r.topic.id, x.defaults[r.topic.id]))
    else None
  }

  function Registered<H>(x: Indexes<H>, r: Registration<H>): Indexes<H> {
    if Refusal(x, r).Some? then x
    else
      Indexes(x.handlers[r.topic := r.handler], x.versions[r.topic.id := Count(x.versions, r.topic.id) + 1],
              if DeclaresDefault(r) then x.defaults[r.topic.id := r.topic.version] else x.defaults)
  }

  function DefaultOf<H>(x: Indexes<H>, id: string): Option<string> {
    if Topic(id, "") in x.handlers then Some("")
    else if id in x.defaults then Some(x.defaults[id]) else None
  }

  function LookedUp<H>(x: Indexes<H>, topic: Topic): Selection<H> {
    if topic in x.handlers then Selected(x.handlers[topic])
    else if Count(x.versions, topic.id) == 0 then UnknownTopic
    else if topic.version != "" then UnknownVersion
    else if topic.id in x.defaults && Topic(topic.id, x.defaults[topic.id]) in x.handlers then
      Selected(x.handlers[Topic(topic.id, x.defaults[topic.id])])
    else NoDefault
  }

  class Registry<H> {
    var handlers: map<Topic, H>
    var versions: map<string, nat>
    var defaults: map<string, string>

    ghost predicate Valid()
      reads this
    {
      DefaultsAreRegistered(Contents())
    }

    constructor ()
      ensures Valid() && Contents() == Indexes(map[], map[], map[])
    {
      handlers, versions, defaults := map[], map[], map[];
    }

    function Contents(): Indexes<H>
      reads this
    {
      Indexes(handlers, versions, defaults)
    }

    /** Register: a refused registration changes nothing. */
    method Register(topic: Topic, handler: H, asDefault: bool) returns (err: Option<RegisterError>)
      requires Valid()
      modifies this
      ensures Valid()
      ensures err == Refusal(old(Contents()), Registration(topic, handler, asDefault))
      ensures err.Some? ==> Contents() == old(Contents())
      ensures Contents() == Registered(old(Contents()), Registration(topic, handler, asDefault))
    {
      if topic in handlers {
        return Some(AlreadyRegistered(topic));
      }
      var declareDefault := asDefault && topic.version != "";
      if topic.id in defaults && declareDefault {
        return Some(SecondDefault(topic.id, defaults[topic.id]));
      }
      handlers := handlers[topic := handler];
      versions := versions[topic.id := Count(versions, topic.id) + 1];
      if declareDefault {
        defaults := defaults[topic.id := topic.version];
      }
      err := None;
    }

    method Lookup(topic: Topic) returns (selection: Selection<H>)
      requires Valid()
      ensures selection == LookedUp(Contents(), topic)
    {
      if topic in handlers {
        return Selected(handlers[topic]);
      }
      if Count(versions, topic.id) == 0 {
        return UnknownTopic;
      }
      if topic.version != "" {
        return UnknownVersion;
      }
      if topic.id in defaults {
        return Selected(handlers[Topic(topic.id, defaults[topic.id])]);
      }
      selection := NoDefault;
    }

    method DefaultVersion(id: string) returns (version: string, ok: bool)
      ensures ok <==> DefaultOf(Contents(), id).Some?
      ensures ok ==> DefaultOf(Contents(), id) == Some(version)
    {
      if Topic(id, "") in handlers {
        return "", true;
      }
      if id in defaults {
        return defaults[id], true;
      }
      version, ok := "", false;
    }

    /** TopicsWithoutDefault, reading the versions map in any order. */
    method TopicsWithoutDefault() returns (ids: seq<string>)
      ensures IsSortedListing(ids, set id | id in versions && DefaultOf(Contents(), id).None?)
    {
      ids := [];
      var todo := versions.Keys;
      while todo != {}
        invariant todo <= versions.Keys
        invariant Lists(ids, set id | id in versions && id !in todo && DefaultOf(Contents(), id).None?)
      {
        ghost var seen := set id | id in versions && id !in todo && DefaultOf(Contents(), id).None?;
        var id :| id in todo;
        todo := todo - {id};
        var _, ok := DefaultVersion(id);
        ghost var now := set id | id in versions && id !in todo && DefaultOf(Contents(), id).None?;
        if !ok {
          assert now == seen + {id};
          ListOneMore(ids, seen, id);
          ids := ids + [id];
        } else {
          assert now == seen;
        }
      }
      ghost var without := set id | id in versions && DefaultOf(Contents(), id).None?;
      assert without == set id | id in versions && id !in todo && DefaultOf(Contents(), id).None?;
      SortGivesListing(ids, without);
      ids := StableSort(ids, CodePointLess);
    }
  }

  // ---------------------------------------------------------------- any sequence of registrations

  function After<H>(calls: seq<Registration<H>>): Indexes<H> {
    if calls == [] then Indexes(map[], map[], map[])
    else Registered(After(calls[..|calls| - 1]), calls[|calls| - 1])
  }

  /** A registration clashes with an accepted one: the same topic, or a second default for its id. */
  predicate Clashes<H>(a: Registration<H>, r: Registration<H>) {
    a.topic == r.topic || (a.topic.id == r.topic.id && DeclaresDefault(a) && DeclaresDefault(r))
  }

  /** The registrations of a sequence that clash with none accepted before them. */
  function Accepted<H>(calls: seq<Registration<H>>): seq<Registration<H>> {
    if calls == [] then []
    else
      var before, r := Accepted(calls[..|calls| - 1]), calls[|calls| - 1];
      if exists i | 0 <= i < |before| :: Clashes(before[i], r) then before else before + [r]
  }

  function CountOf<H>(accepted: seq<Registration<H>>, id: string): nat {
    if accepted == [] then 0
    else CountOf(accepted[..|accepted| - 1], id) + if accepted[|accepted| - 1].topic.id == id then 1 else 0
  }

  ghost predicate DefaultsAreRegistered<H>(x: Indexes<H>) {
    forall id | id in x.defaults :: Topic(id, x.defaults[id]) in x.handlers && x.defaults[id] != ""
  }

  /** Registration i is the one for the topic. */
  ghost predicate IsFor<H>(accepted: seq<Registration<H>>, i: int, topic: Topic) {
    0 <= i < |accepted| && accepted[i].topic == topic
  }

  /** Registration i declares the default of the id. */
  ghost predicate IsDefaultOf<H>(accepted: seq<Registration<H>>, i: int, id: string) {
    0 <= i < |accepted| && accepted[i].topic.id == id && DeclaresDefault(accepted[i])
  }

  /** The indexes say what the accepted registrations say, and nothing else. */
  ghost predicate Index<H>(x: Indexes<H>, accepted: seq<Registration<H>>) {
    && (forall t :: t in x.handlers <==> exists i :: IsFor(accepted, i, t))
    && (forall i | 0 <= i < |accepted| ::
          accepted[i].topic in x.handlers && x.handlers[accepted[i].topic] == accepted[i].handler)
    && (forall id :: Count(x.versions, id) == CountOf(accepted, id))
    && (forall id :: id in x.versions ==> x.versions[id] > 0)
    && (forall id :: id in x.defaults <==> exists i :: IsDefaultOf(accepted, i, id))
    && (forall i | 0 <= i < |accepted| && DeclaresDefault(accepted[i]) ::
          accepted[i].topic.id in x.defaults && x.defaults[accepted[i].topic.id] == accepted[i].topic.version)
  }

  lemma RefusedWhenClashing<H>(x: Indexes<H>, accepted: seq<Registration<H>>, r: Registration<H>)
    requires Index(x, accepted)
    ensures Refusal(x, r).Some? <==> exists i :: 0 <= i < |accepted| && Clashes(accepted[i], r)
  {
    if r.topic in x.handlers {
      var i :| IsFor(accepted, i, r.topic);
      assert Clashes(accepted[i], r);
    } else if r.topic.id in x.defaults && DeclaresDefault(r) {
      var i :| IsDefaultOf(accepted, i, r.topic.id);
      assert Clashes(accepted[i], r);
    }
  }

  lemma IndexStep<H>(x: Indexes<H>, accepted: seq<Registration<H>>, r: Registration<H>)
    requires Index(x, accepted) && Refusal(x, r).None?
    ensures Index(Registered(x, r), accepted + [r])
  {
    HandlersStep(x, accepted, r);
    DefaultsStep(x, accepted, r);
    CountsStep(x, accepted, r);
    ValuesStep(x, accepted, r);
    hide IsFor, IsDefaultOf, Registered, CountOf, Count, Refusal;
  }

  lemma CountsStep<H>(x: Indexes<H>, accepted: seq<Registration<H>>, r: Registration<H>)
    requires Refusal(x, r).None?
    requires forall id :: Count(x.versions, id) == CountOf(accepted, id)
    requires forall id :: id in x.versions ==> x.versions[id] > 0
    ensures var y := Registered(x, r);
      && (forall id :: Count(y.versions, id) == CountOf(accepted + [r], id))
      && (forall id :: id in y.versions ==> y.versions[id] > 0)
  {
    assert (accepted + [r])[..|accepted|] == accepted;
  }

  lemma ValuesStep<H>(x: Indexes<H>, accepted: seq<Registration<H>>, r: Registration<H>)
    requires Index(x, accepted) && Refusal(x, r).None?
    ensures var y, now := Registered(x, r), accepted + [r];
      && (forall i | 0 <= i < |now| :: now[i].topic in y.handlers && y.handlers[now[i].topic] == now[i].handler)
      && (forall i | 0 <= i < |now| && DeclaresDefault(now[i]) ::
            now[i].topic.id in y.defaults && y.defaults[now[i].topic.id] == now[i].topic.version)
  {
    var y, now := Registered(x, r), accepted + [r];
    hide IsFor, IsDefaultOf, CountOf, Count;
    forall i | 0 <= i < |now|
      ensures now[i].topic in y.handlers && y.handlers[now[i].topic] == now[i].handler
      ensures DeclaresDefault(now[i]) ==>
        now[i].topic.id in y.defaults && y.defaults[now[i].topic.id] == now[i].topic.version
    {
      assert i < |accepted| ==> now[i] == accepted[i];
    }
  }

  lemma HandlersStep<H>(x: Indexes<H>, accepted: seq<Registration<H>>, r: Registration<H>)
    requires Refusal(x, r).None? && forall t :: t in x.handlers <==> exists i :: IsFor(accepted, i, t)
    ensures forall t :: t in Registered(x, r).handlers <==> exists i :: IsFor(accepted + [r], i, t)
  {
    var now := accepted + [r];
    forall t ensures t in Registered(x, r).handlers <==> exists i :: IsFor(now, i, t) {
      if t == r.topic { assert IsFor(now, |accepted|, t); }
      if t in x.handlers { var i :| IsFor(accepted, i, t); assert IsFor(now, i, t); }
      if i :| IsFor(now, i, t) { assert i < |accepted| ==> IsFor(accepted, i, t); }
    }
  }

  lemma DefaultsStep<H>(x: Indexes<H>, accepted: seq<Registration<H>>, r: Registration<H>)
    requires Refusal(x, r).None? && forall id :: id in x.defaults <==> exists i :: IsDefaultOf(accepted, i, id)
    ensures forall id :: id in Registered(x, r).defaults <==> exists i :: IsDefaultOf(accepted + [r], i, id)
  {
    var now := accepted + [r];
    forall id ensures id in Registered(x, r).defaults <==> exists i :: IsDefaultOf(now, i, id) {
      if id in x.defaults { var i :| IsDefaultOf(accepted, i, id); assert IsDefaultOf(now, i, id); }
      if i :| IsDefaultOf(now, i, id) { assert i < |accepted| ==> IsDefaultOf(accepted, i, id); }
      if DeclaresDefault(r) && id == r.topic.id { assert IsDefaultOf(now, |accepted|, id); }
    }
  }

  /** After any sequence of registrations, refused ones included, the indexes are those of the accepted
      ones. */
  lemma {:induction false} IndexesFollowRegistrations<H>(calls: seq<Registration<H>>)
    ensures Index(After(calls), Accepted(calls))
    decreases |calls|
  {
    hide Index, Registered, Clashes;
    if calls == [] {
      NothingRegistered<H>();
    } else {
      var before := calls[..|calls| - 1];
      IndexesFollowRegistrations(before);
      RefusedWhenClashing(After(before), Accepted(before), calls[|calls| - 1]);
      if Refusal(After(before), calls[|calls| - 1]).None? {
        IndexStep(After(before), Accepted(before), calls[|calls| - 1]);
      } else {
        RefusedChangesNothing(After(before), calls[|calls| - 1]);
      }
    }
  }

  lemma NothingRegistered<H>()
    ensures Index<H>(Indexes(map[], map[], map[]), [])
  {
  }

  lemma RefusedChangesNothing<H>(x: Indexes<H>, r: Registration<H>)
    requires Refusal(x, r).Some?
    ensures Registered(x, r) == x
  {
  }

  /** No two accepted registrations clash: topics are distinct, and an id has one default at most. */
  lemma {:induction false} AcceptedAgree<H>(calls: seq<Registration<H>>)
    ensures forall i, j | 0 <= i < j < |Accepted(calls)| :: !Clashes(Accepted(calls)[i], Accepted(calls)[j])
    decreases |calls|
  {
    if calls != [] {
      AcceptedAgree(calls[..|calls| - 1]);
    }
  }

  // ---------------------------------------------------------------- the selection rule

  /** The rule, over the registrations alone: the handler for the topic itself; for a message without
      a version, else the handler of the declared default; no handler otherwise, and why. */
  ghost predicate Selects<H>(accepted: seq<Registration<H>>, topic: Topic, selection: Selection<H>) {
    if exists i :: IsFor(accepted, i, topic) then
      exists i :: IsFor(accepted, i, topic) && selection == Selected(accepted[i].handler)
    else if forall i | 0 <= i < |accepted| :: accepted[i].topic.id != topic.id then selection == UnknownTopic
    else if topic.version != "" then selection == UnknownVersion
    else if exists i :: IsDefaultOf(accepted, i, topic.id) then
      exists i :: IsDefaultOf(accepted, i, topic.id) && selection == Selected(accepted[i].handler)
    else selection == NoDefault
  }

  lemma {:induction false} CountIsZero<H>(accepted: seq<Registration<H>>, id: string)
    ensures CountOf(accepted, id) == 0 <==> forall i | 0 <= i < |accepted| :: accepted[i].topic.id != id
    decreases |accepted|
  {
    if accepted != [] {
      CountIsZero(accepted[..|accepted| - 1], id);
    }
  }

  /** A declared default names a registered version of its id. */
  lemma DefaultsNameVersions<H>(calls: seq<Registration<H>>)
    ensures DefaultsAreRegistered(After(calls))
  {
    IndexesFollowRegistrations(calls);
    var x, accepted := After(calls), Accepted(calls);
    forall id | id in x.defaults ensures Topic(id, x.defaults[id]) in x.handlers && x.defaults[id] != "" {
      var i :| IsDefaultOf(accepted, i, id);
      assert accepted[i].topic == Topic(id, x.defaults[id]);
    }
  }

  /** lookup over the indexes is the rule over the accepted registrations, for every topic. */
  lemma LookupFollowsRule<H>(calls: seq<Registration<H>>, topic: Topic)
    ensures Selects(Accepted(calls), topic, LookedUp(After(calls), topic))
  {
    var x, accepted := After(calls), Accepted(calls);
    IndexesFollowRegistrations(calls);
    DefaultsNameVersions(calls);
    CountIsZero(accepted, topic.id);
    hide After, Accepted, CountOf;
    if topic in x.handlers {
      var i :| IsFor(accepted, i, topic);
      assert x.handlers[accepted[i].topic] == accepted[i].handler;
    } else if topic.id in x.defaults && topic.version == "" {
      var i :| IsDefaultOf(accepted, i, topic.id);
      assert accepted[i].topic == Topic(topic.id, x.defaults[topic.id]);
      assert x.handlers[accepted[i].topic] == accepted[i].handler;
    }
  }

  /** The rule allows one answer only. */
  lemma RuleIsDeterministic<H>(calls: seq<Registration<H>>, topic: Topic, s: Selection<H>, t: Selection<H>)
    requires Selects(Accepted(calls), topic, s) && Selects(Accepted(calls), topic, t)
    ensures s == t
  {
    AcceptedAgree(calls);
  }

  /** The version count of an id is the number of handlers it has. */
  lemma {:induction false} CountsAreHandlers<H>(calls: seq<Registration<H>>, id: string)
    ensures Count(After(calls).versions, id) == |set t | t in After(calls).handlers && t.id == id|
    decreases |calls|
  {
    if calls != [] {
      CountsAreHandlers(calls[..|calls| - 1], id);
      CountStep(After(calls[..|calls| - 1]), calls[|calls| - 1], id);
    }
  }

  lemma CountStep<H>(x: Indexes<H>, r: Registration<H>, id: string)
    requires Count(x.versions, id) == |set t | t in x.handlers && t.id == id|
    ensures Count(Registered(x, r).versions, id) == |set t | t in Registered(x, r).handlers && t.id == id|
  {
    var now := set t | t in Registered(x, r).handlers && t.id == id;
    var was := set t | t in x.handlers && t.id == id;
    if Refusal(x, r).None? && r.topic.id == id {
      assert now == was + {r.topic};
    } else {
      assert now == was;
    }
  }

  /** TopicsWithoutDefault lists exactly the ids whose unversioned lookup finds no default. */
  lemma WithoutDefaultMeansNoDefault<H>(calls: seq<Registration<H>>, id: string)
    ensures var x := After(calls);
      (id in x.versions && DefaultOf(x, id).None?) <==> LookedUp(x, Topic(id, "")) == NoDefault
  {
    IndexesFollowRegistrations(calls);
    DefaultsNameVersions(calls);
  }

  /** DefaultVersion names the version whose handler an unversioned message gets. */
  lemma DefaultVersionIsUsed<H>(calls: seq<Registration<H>>, id: string)
    ensures var x := After(calls);
      match DefaultOf(x, id)
      case Some(version) => Topic(id, version) in x.handlers
        && LookedUp(x, Topic(id, "")) == Selected(x.handlers[Topic(id, version)])
      case None => !LookedUp(x, Topic(id, "")).Selected?
  {
    IndexesFollowRegistrations(calls);
    DefaultsNameVersions(calls);
    CountIsZero(Accepted(calls), id);
    if id in After(calls).defaults {
      var i :| IsDefaultOf(Accepted(calls), i, id);
    }
  }
}

/** The AsyncAPI document (asyncapi/asyncapi.go): channels keyed by sanitized address, operations keyed
    by slug, and the entry loops of Generate. */
module AsyncApi {
  import opened JsonTrees
  import opened Options
  import opened JsonSchemaTranslation
  import opened Slugs
  import opened Suffixes
  import Hash

  /** A schema member that may be absent (a nil map). */
  type Schema = Option<map<string, Json>>

  datatype Message = Message(name: string, payload: Schema)

  datatype Channel = Channel(address: string, messages: map<string, Message>)

  datatype Operation = Operation(action: string, channel: string, reply: Option<string>)

  function ChannelRef(channelKey: string): string { "#/channels/" + channelKey }

  // ---------------------------------------------------------------- the channel book

  datatype Book = Book(byAddress: map<string, string>, usedKeys: set<string>, channels: map<string, Channel>)

  const NEW_BOOK := Book(map[], {}, map[])

  /** Addresses and channels are in one-to-one correspondence, and every key is one AsyncAPI allows. */
  ghost predicate Consistent(b: Book) {
    && b.usedKeys == b.channels.Keys
    && (forall a | a in b.byAddress :: b.byAddress[a] in b.channels && b.channels[b.byAddress[a]].address == a)
    && (forall k | k in b.channels :: b.channels[k].address in b.byAddress && b.byAddress[b.channels[k].address] == k)
    && (forall k | k in b.channels :: IsKey(k))
  }

  /** The letters, digits and underscores of an AsyncAPI map key; never empty. */
  predicate IsKey(k: string) { k != "" && forall i | 0 <= i < |k| :: IsAlphanumeric(k[i]) || k[i] == '_' }

  function Base(address: string): string { if Slug(address) == "" then "channel" else Slug(address) }

  function KeyIn(b: Book, address: string): string {
    if address in b.byAddress then b.byAddress[address] else Unused(Base(address), "_", b.usedKeys)
  }

  /** The book once address has a channel. */
  function Opened(b: Book, address: string): Book {
    if address in b.byAddress then b
    else
      var key := KeyIn(b, address);
      Book(b.byAddress[address := key], b.usedKeys + {key}, b.channels[key := Channel(address, map[])])
  }

  /** A message put on a channel by address, under its own name. */
  datatype Post = Post(address: string, message: Message)

  function Posted(b: Book, p: Post): Book {
    var key, o := KeyIn(b, p.address), Opened(b, p.address);
    if key !in o.channels then o
    else
      var c := o.channels[key];
      o.(channels := o.channels[key := c.(messages := c.messages[p.message.name := p.message])])
  }

  class ChannelBook {
    var byAddress: map<string, string>
    var usedKeys: set<string>
    var channels: map<string, Channel>

    constructor ()
      ensures Contents() == NEW_BOOK
    {
      byAddress, usedKeys, channels := map[], {}, map[];
    }

    function Contents(): Book
      reads this
    {
      Book(byAddress, usedKeys, channels)
    }

    method KeyFor(address: string) returns (key: string)
      modifies this
      ensures key == KeyIn(old(Contents()), address) && Contents() == Opened(old(Contents()), address)
    {
      if address in byAddress {
        return byAddress[address];
      }
      var base := OperationSlug(address);
      if base == "" {
        base := "channel";
      }
      key := base;
      var n := 2;
      while key in usedKeys
        invariant n >= 2 && key == Numbered(base, "_", n - 1) && base == Base(address)
        invariant forall i | 1 <= i < n - 1 :: Numbered(base, "_", i) in usedKeys
        invariant Contents() == old(Contents())
        decreases |usedKeys| + 2 - n
      {
        TakenAreFew(base, "_", usedKeys, n - 1);
        key := base + "_" + Itoa(n);
        n := n + 1;
      }
      UnusedIsFirst(base, "_", usedKeys, n - 1);
      usedKeys := usedKeys + {key};
      byAddress := byAddress[address := key];
      channels := channels[key := Channel(address, map[])];
    }

    method AddMessage(address: string, name: string, msg: Message) returns (key: string)
      requires Consistent(Contents()) && msg.name == name
      modifies this
      ensures key == KeyIn(old(Contents()), address)
      ensures Contents() == Posted(old(Contents()), Post(address, msg)) && Consistent(Contents())
    {
      PostedIsConsistent(Contents(), Post(address, msg));
      OpenedIsConsistent(Contents(), address);
      key := KeyFor(address);
      var c := channels[key];
      channels := channels[key := c.(messages := c.messages[name := msg])];
    }
  }

  lemma KeyIsFresh(b: Book, address: string)
    requires Consistent(b) && address !in b.byAddress
    ensures KeyIn(b, address) !in b.channels && IsKey(KeyIn(b, address))
  {
    var m := UnusedIsNumbered(Base(address), "_", b.usedKeys);
    SlugIsIdentifier(address);
    NumberedIsKey(Base(address), m);
  }

  lemma {:induction false} ItoaIsKey(n: nat)
    ensures IsKey(Itoa(n))
  {
    if n >= 10 {
      ItoaIsKey(n / 10);
    }
  }

  lemma NumberedIsKey(base: string, n: nat)
    requires IsKey(base)
    ensures IsKey(Numbered(base, "_", n))
  {
    ItoaIsKey(n);
  }

  lemma OpenedIsConsistent(b: Book, address: string)
    requires Consistent(b)
    ensures Consistent(Opened(b, address)) && KeyIn(b, address) in Opened(b, address).channels
    ensures address in Opened(b, address).byAddress && Opened(b, address).byAddress[address] == KeyIn(b, address)
  {
    if address !in b.byAddress {
      KeyIsFresh(b, address);
    }
  }

  lemma PostedIsConsistent(b: Book, p: Post)
    requires Consistent(b)
    ensures Consistent(Posted(b, p))
    ensures p.address in Posted(b, p).byAddress && Posted(b, p).byAddress[p.address] == KeyIn(b, p.address)
  {
    OpenedIsConsistent(b, p.address);
  }

  // ---------------------------------------------------------------- Generate

  datatype Request = Request(topic: string, request: Schema, response: Schema)

  datatype Event = Event(topic: string, message: Schema)

  datatype Send = Send(topic: string, request: Schema, response: Schema)

  datatype Contract = Contract(requests: seq<Request>, events: seq<Event>, sends: seq<Send>, schemas: map<string, Json>)

  datatype Document = Document(channels: map<string, Channel>, operations: map<string, Operation>,
    components: Option<map<string, Json>>)

  function TranslateSchema(s: Schema): Schema {
    match s
    case None => None
    case Some(m) => Some(AsObject(Translate(Obj(m))))
  }

  /** One call of Generate's add. */
  datatype Entry = Entry(action: string, topic: string, name: string, payload: Schema, reply: Schema)

  function RequestEntry(r: Request): Entry { Entry("receive", r.topic, "request", r.request, r.response) }

  function EventEntry(e: Event): Entry { Entry("send", e.topic, "event", e.message, None) }

  function SendEntry(s: Send): Entry { Entry("send", s.topic, "request", s.request, s.response) }

  function Served(entries: seq<Entry>): seq<Entry> {
    if entries == [] then []
    else
      var n := |entries| - 1;
      Served(entries[..n]) + if Hash.IsReserved(entries[n].topic) then [] else [entries[n]]
  }

  function Map<T, U>(f: T -> U, s: seq<T>): seq<U> { seq(|s|, i requires 0 <= i < |s| => f(s[i])) }

  /** The document's entries that are not reserved: requests, then events, then sends. */
  function EntriesOf(doc: Contract): seq<Entry> {
    Served(Map(RequestEntry, doc.requests) + Map(EventEntry, doc.events) + Map(SendEntry, doc.sends))
  }

  datatype Building = Building(book: Book, operations: map<string, Operation>, usedOps: set<string>)

  const NOTHING := Building(NEW_BOOK, map[], {})

  function MessagePost(e: Entry): Post { Post(e.topic, Message(e.name, TranslateSchema(e.payload))) }

  function ReplyPost(e: Entry, suffix: string): Post {
    Post(e.topic + ":" + suffix, Message("response", TranslateSchema(e.reply)))
  }

  function OperationBase(e: Entry): string { e.action + "_" + Slug(e.topic) }

  /** Generate's add. */
  function Added(s: Building, e: Entry, suffix: string): Building {
    var key, book := KeyIn(s.book, e.topic), Posted(s.book, MessagePost(e));
    var opKey := Unused(OperationBase(e), "_", s.usedOps);
    if e.reply.None? then
      Building(book, s.operations[opKey := Operation(e.action, ChannelRef(key), None)], s.usedOps + {opKey})
    else
      var replyKey := KeyIn(book, e.topic + ":" + suffix);
      Building(Posted(book, ReplyPost(e, suffix)),
               s.operations[opKey := Operation(e.action, ChannelRef(key), Some(ChannelRef(replyKey)))],
               s.usedOps + {opKey})
  }

  function AddedAll(entries: seq<Entry>, suffix: string): Building {
    if entries == [] then NOTHING
    else Added(AddedAll(entries[..|entries| - 1], suffix), entries[|entries| - 1], suffix)
  }

  method UniqueOp(base: string, used: set<string>) returns (key: string, nowUsed: set<string>)
    ensures key == Unused(base, "_", used) && nowUsed == used + {key}
  {
    key := base;
    var n := 2;
    while key in used
      invariant n >= 2 && key == Numbered(base, "_", n - 1)
      invariant forall i | 1 <= i < n - 1 :: Numbered(base, "_", i) in used
      decreases |used| + 2 - n
    {
      TakenAreFew(base, "_", used, n - 1);
      key := base + "_" + Itoa(n);
      n := n + 1;
    }
    UnusedIsFirst(base, "_", used, n - 1);
    nowUsed := used + {key};
  }

  method CopySchema(s: Schema) returns (copied: Schema)
    ensures copied == TranslateSchema(s)
  {
    if s.None? {
      return None;
    }
    var out := ToJSONSchema(s.value);
    copied := Some(out);
  }

  method Add(book: ChannelBook, operations: map<string, Operation>, usedOps: set<string>, e: Entry, suffix: string)
    returns (nowOperations: map<string, Operation>, nowUsed: set<string>)
    requires Consistent(book.Contents())
    modifies book
    ensures Consistent(book.Contents())
    ensures Building(book.Contents(), nowOperations, nowUsed)
      == Added(Building(old(book.Contents()), operations, usedOps), e, suffix)
  {
    hide Posted, Consistent, KeyIn, Slug, TranslateSchema;
    var payload := CopySchema(e.payload);
    var key := book.AddMessage(e.topic, e.name, Message(e.name, payload));
    var op := Operation(e.action, ChannelRef(key), None);
    if e.reply.Some? {
      var reply := CopySchema(e.reply);
      var replyKey := book.AddMessage(e.topic + ":" + suffix, "response", Message("response", reply));
      op := op.(reply := Some(ChannelRef(replyKey)));
    }
    var slug := OperationSlug(e.topic);
    var opKey;
    opKey, nowUsed := UniqueOp(e.action + "_" + slug, usedOps);
    nowOperations := operations[opKey := op];
  }

  lemma ServedStep(entries: seq<Entry>, e: Entry)
    ensures Served(entries + [e]) == Served(entries) + if Hash.IsReserved(e.topic) then [] else [e]
  {
    assert (entries + [e])[..|entries|] == entries;
  }

  /** Generate, as far as channels, operations and components go; suffix is the reply suffix. */
  method Generate(doc: Contract, suffix: string) returns (out: Document)
    ensures var s := AddedAll(EntriesOf(doc), suffix);
      && out.channels == s.book.channels && out.operations == s.operations
      && out.components == if doc.schemas == map[] then None else Some(TranslateComponents(doc.schemas))
  {
    hide Added, AddedAll, Served, Hash.IsReserved, Consistent, Translate;
    var book := new ChannelBook();
    var operations: map<string, Operation>, usedOps: set<string> := map[], {};
    ghost var entries: seq<Entry> := [];
    NothingYet(suffix);
    for i := 0 to |doc.requests|
      invariant Consistent(book.Contents()) && fresh(book)
      invariant entries == Map(RequestEntry, doc.requests[..i])
      invariant Building(book.Contents(), operations, usedOps) == AddedAll(Served(entries), suffix)
    {
      var e := RequestEntry(doc.requests[i]);
      operations, usedOps := AddIfServed(book, operations, usedOps, e, suffix, entries);
      entries := entries + [e];
      assert entries == Map(RequestEntry, doc.requests[..i + 1]);
    }
    ghost var requests := entries;
    assert doc.requests[..|doc.requests|] == doc.requests;
    for i := 0 to |doc.events|
      invariant Consistent(book.Contents()) && fresh(book)
      invariant entries == requests + Map(EventEntry, doc.events[..i])
      invariant Building(book.Contents(), operations, usedOps) == AddedAll(Served(entries), suffix)
    {
      var e := EventEntry(doc.events[i]);
      operations, usedOps := AddIfServed(book, operations, usedOps, e, suffix, entries);
      entries := entries + [e];
      assert entries == requests + Map(EventEntry, doc.events[..i + 1]);
    }
    ghost var received := entries;
    assert doc.events[..|doc.events|] == doc.events;
    for i := 0 to |doc.sends|
      invariant Consistent(book.Contents()) && fresh(book)
      invariant entries == received + Map(SendEntry, doc.sends[..i])
      invariant Building(book.Contents(), operations, usedOps) == AddedAll(Served(entries), suffix)
    {
      var e := SendEntry(doc.sends[i]);
      operations, usedOps := AddIfServed(book, operations, usedOps, e, suffix, entries);
      entries := entries + [e];
      assert entries == received + Map(SendEntry, doc.sends[..i + 1]);
    }
    assert doc.sends[..|doc.sends|] == doc.sends;
    var components: Option<map<string, Json>> := None;
    if doc.schemas != map[] {
      var schemas := CopyComponents(doc.schemas);
      components := Some(schemas);
    }
    out := Document(book.channels, operations, components);
  }

  method AddIfServed(book: ChannelBook, operations: map<string, Operation>, usedOps: set<string>, e: Entry,
      suffix: string, ghost before: seq<Entry>)
    returns (nowOperations: map<string, Operation>, nowUsed: set<string>)
    requires Consistent(book.Contents())
    requires Building(book.Contents(), operations, usedOps) == AddedAll(Served(before), suffix)
    modifies book
    ensures Consistent(book.Contents())
    ensures Building(book.Contents(), nowOperations, nowUsed) == AddedAll(Served(before + [e]), suffix)
  {
    hide Added, Consistent;
    ServedStep(before, e);
    nowOperations, nowUsed := operations, usedOps;
    if !Hash.IsReserved(e.topic) {
      nowOperations, nowUsed := Add(book, operations, usedOps, e, suffix);
      assert (Served(before) + [e])[..|Served(before)|] == Served(before);
    } else {
      assert Served(before) + [] == Served(before);
    }
  }

  method CopyComponents(schemas: map<string, Json>) returns (out: map<string, Json>)
    ensures out == TranslateComponents(schemas)
  {
    out := map[];
    var todo := schemas.Keys;
    while todo != {}
      invariant todo <= schemas.Keys
      invariant out == map n | n in schemas && n !in todo :: Translate(schemas[n])
    {
      var n :| n in todo;
      todo := todo - {n};
      var copied := CopyValue(schemas[n]);
      out := out[n := copied];
    }
    assert out == map n | n in schemas :: Translate(schemas[n]);
  }

  lemma NothingYet(suffix: string)
    ensures Consistent(NEW_BOOK) && AddedAll(Served([]), suffix) == NOTHING
  {
  }
}

/** What a generated AsyncAPI document holds: one channel per address, one operation per entry, and
    references that lead where the entry says. */
module AsyncApiLaws {
  import opened JsonTrees
  import opened Options
  import opened Suffixes
  import opened Slugs
  import opened AsyncApi
  import opened JsonSchemaTranslation
  import Hash

  // ---------------------------------------------------------------- channels

  /** A schema as JSON Schema has it; none stays none. */
  function Translated(s: Schema): Schema {
    if s.None? then None else Some(AsObject(Translate(Obj(s.value))))
  }

  /** The messages the entries put on channels, in order: each its own on its topic's channel, a reply on the
      channel of the reply topic. */
  function Posts(entries: seq<Entry>, suffix: string): seq<Post> {
    if entries == [] then []
    else
      var e := entries[|entries| - 1];
      Posts(entries[..|entries| - 1], suffix) + [Post(e.topic, Message(e.name, Translated(e.payload)))]
        + if e.reply.None? then []
          else [Post(e.topic + ":" + suffix, Message("response", Translated(e.reply)))]
  }

  function BookOf(posts: seq<Post>): Book {
    if posts == [] then NEW_BOOK else Posted(BookOf(posts[..|posts| - 1]), posts[|posts| - 1])
  }

  lemma BookOfOneMore(posts: seq<Post>, p: Post)
    ensures BookOf(posts + [p]) == Posted(BookOf(posts), p)
  {
    assert (posts + [p])[..|posts|] == posts;
  }

  lemma {:induction false} BookIsOfPosts(entries: seq<Entry>, suffix: string)
    ensures AddedAll(entries, suffix).book == BookOf(Posts(entries, suffix))
    decreases |entries|
  {
    hide Posted;
    if entries != [] {
      var n := |entries| - 1;
      var e, posts := entries[n], Posts(entries[..n], suffix);
      BookIsOfPosts(entries[..n], suffix);
      BookOfOneMore(posts, MessagePost(e));
      if e.reply.Some? {
        BookOfOneMore(posts + [MessagePost(e)], ReplyPost(e, suffix));
      } else {
        assert posts + [MessagePost(e)] + [] == posts + [MessagePost(e)];
      }
    }
  }

  lemma {:induction false} BookIsConsistent(posts: seq<Post>)
    ensures Consistent(BookOf(posts))
    decreases |posts|
  {
    hide Posted;
    if posts == [] {
      NothingYet("");
    } else {
      BookIsConsistent(posts[..|posts| - 1]);
      PostedIsConsistent(BookOf(posts[..|posts| - 1]), posts[|posts| - 1]);
    }
  }

  /** The last message put on an address under a name. */
  function LastMessage(posts: seq<Post>, address: string, name: string): Option<Message> {
    if posts == [] then None
    else
      var p := posts[|posts| - 1];
      if p.address == address && p.message.name == name then Some(p.message)
      else LastMessage(posts[..|posts| - 1], address, name)
  }

  /** The channel holds, for each name, the last message posted to its address under that name. */
  ghost predicate HoldsLast(c: Channel, posts: seq<Post>) {
    forall name ::
      (name in c.messages <==> LastMessage(posts, c.address, name).Some?)
      && (name in c.messages ==> Some(c.messages[name]) == LastMessage(posts, c.address, name))
  }

  ghost predicate IsPostedTo(posts: seq<Post>, address: string) {
    exists i :: 0 <= i < |posts| && posts[i].address == address
  }

  /** The book has a channel for exactly the addresses posted to, and every channel holds the last
      messages posted there. */
  ghost predicate BookHoldsLast(b: Book, posts: seq<Post>) {
    && (forall a :: a in b.byAddress <==> IsPostedTo(posts, a))
    && (forall k | k in b.channels :: HoldsLast(b.channels[k], posts))
  }

  lemma PostedChannels(b: Book, p: Post)
    requires Consistent(b)
    ensures var after, key := Posted(b, p), KeyIn(b, p.address);
      && after.byAddress == b.byAddress[p.address := key] && after.channels.Keys == b.channels.Keys + {key}
      && (forall k | k in b.channels && k != key :: after.channels[k] == b.channels[k])
      && after.channels[key].address == p.address
      && after.channels[key].messages ==
           (if p.address in b.byAddress then b.channels[key].messages else map[])[p.message.name := p.message]
  {
    OpenedIsConsistent(b, p.address);
    if p.address !in b.byAddress {
      KeyIsFresh(b, p.address);
    } else {
      assert b.byAddress[p.address := KeyIn(b, p.address)] == b.byAddress;
    }
  }

  lemma {:induction false} NeverPosted(posts: seq<Post>, address: string, name: string)
    requires !IsPostedTo(posts, address)
    ensures LastMessage(posts, address, name).None?
    decreases |posts|
  {
    if posts != [] {
      assert forall i | 0 <= i < |posts| - 1 :: posts[..|posts| - 1][i] == posts[i];
      NeverPosted(posts[..|posts| - 1], address, name);
    }
  }

  lemma EmptyHoldsLast(posts: seq<Post>, address: string)
    requires !IsPostedTo(posts, address)
    ensures HoldsLast(Channel(address, map[]), posts)
  {
    forall name ensures LastMessage(posts, address, name).None? {
      NeverPosted(posts, address, name);
    }
  }

  lemma OtherHoldsLast(c: Channel, posts: seq<Post>, p: Post)
    requires HoldsLast(c, posts) && c.address != p.address
    ensures HoldsLast(c, posts + [p])
  {
    assert (posts + [p])[..|posts|] == posts;
  }

  lemma SameHoldsLast(c: Channel, posts: seq<Post>, p: Post)
    requires HoldsLast(c, posts) && c.address == p.address
    ensures HoldsLast(c.(messages := c.messages[p.message.name := p.message]), posts + [p])
  {
    assert (posts + [p])[..|posts|] == posts;
  }

  lemma PostedTo(posts: seq<Post>, p: Post, address: string)
    ensures IsPostedTo(posts + [p], address) <==> IsPostedTo(posts, address) || p.address == address
  {
    if IsPostedTo(posts, address) {
      var i :| 0 <= i < |posts| && posts[i].address == address;
      assert (posts + [p])[i].address == address;
    }
    if p.address == address {
      assert (posts + [p])[|posts|].address == address;
    }
  }

  lemma PostedHoldsLast(b: Book, posts: seq<Post>, p: Post)
    requires Consistent(b) && BookHoldsLast(b, posts)
    ensures BookHoldsLast(Posted(b, p), posts + [p])
  {
    hide Posted, KeyIn, HoldsLast, IsPostedTo;
    var after, key, now := Posted(b, p), KeyIn(b, p.address), posts + [p];
    PostedChannels(b, p);
    forall a ensures a in after.byAddress <==> IsPostedTo(now, a) {
      PostedTo(posts, p, a);
    }
    forall k | k in after.channels ensures HoldsLast(after.channels[k], now) {
      if k != key {
        if b.channels[k].address == p.address {
          KeyOfAddress(b, p.address, k);
          assert false;
        }
        OtherHoldsLast(b.channels[k], posts, p);
      } else {
        if p.address in b.byAddress {
          KeyOfAddress(b, p.address, b.byAddress[p.address]);
        }
        var c := Channel(p.address, if p.address in b.byAddress then b.channels[key].messages else map[]);
        if p.address in b.byAddress {
          assert c == b.channels[key];
        } else {
          EmptyHoldsLast(posts, p.address);
        }
        SameHoldsLast(c, posts, p);
        assert after.channels[k] == c.(messages := c.messages[p.message.name := p.message]);
      }
    }
  }

  lemma KeyOfAddress(b: Book, address: string, k: string)
    requires Consistent(b) && k in b.channels && b.channels[k].address == address
    ensures k == KeyIn(b, address)
  {
  }

  lemma {:induction false} BooksHoldLast(posts: seq<Post>)
    ensures BookHoldsLast(BookOf(posts), posts)
    decreases |posts|
  {
    hide Posted, HoldsLast;
    if posts != [] {
      var n := |posts| - 1;
      BooksHoldLast(posts[..n]);
      BookIsConsistent(posts[..n]);
      PostedHoldsLast(BookOf(posts[..n]), posts[..n], posts[n]);
      assert posts[..n] + [posts[n]] == posts;
    }
  }

  /** The base, or the base and a number. */
  ghost predicate IsNumbered(key: string, base: string) { exists m :: key == Numbered(base, "_", m) }

  /** Channels are keyed by the slugs of their addresses. */
  ghost predicate KeyedBySlug(b: Book) {
    forall k | k in b.channels ::
      var slug := Slug(b.channels[k].address); IsNumbered(k, if slug == "" then "channel" else slug)
  }

  lemma {:induction false} BooksAreKeyedBySlug(posts: seq<Post>)
    ensures KeyedBySlug(BookOf(posts))
    decreases |posts|
  {
    hide Posted, KeyIn, IsNumbered, Slug;
    if posts != [] {
      var b, p := BookOf(posts[..|posts| - 1]), posts[|posts| - 1];
      BooksAreKeyedBySlug(posts[..|posts| - 1]);
      BookIsConsistent(posts[..|posts| - 1]);
      PostedChannels(b, p);
      var key := KeyIn(b, p.address);
      if p.address in b.byAddress {
        KeyOfAddress(b, p.address, b.byAddress[p.address]);
      } else {
        NewKeyIsNumbered(b, p.address);
      }
    }
  }

  lemma NewKeyIsNumbered(b: Book, address: string)
    requires address !in b.byAddress
    ensures IsNumbered(KeyIn(b, address), if Slug(address) == "" then "channel" else Slug(address))
  {
    hide Slug;
    var m := UnusedIsNumbered(Base(address), "_", b.usedKeys);
  }

  /** The channels of a generated document: keys and addresses in one-to-one correspondence, each key the slug
      of its address, a channel for exactly the addresses some entry or its reply uses, each holding the last
      message put there under each name. */
  lemma ChannelsAreByAddress(entries: seq<Entry>, suffix: string)
    ensures var b := AddedAll(entries, suffix).book;
      && (forall k, l | k in b.channels && l in b.channels && b.channels[k].address == b.channels[l].address :: k == l)
      && (forall k | k in b.channels :: IsKey(k)) && KeyedBySlug(b)
      && BookHoldsLast(b, Posts(entries, suffix)) && Consistent(b)
  {
    BookIsOfPosts(entries, suffix);
    BookIsConsistent(Posts(entries, suffix));
    BooksHoldLast(Posts(entries, suffix));
    BooksAreKeyedBySlug(Posts(entries, suffix));
    hide HoldsLast, KeyedBySlug, BookHoldsLast;
  }

  // ---------------------------------------------------------------- operations

  /** A reference leads to the channel with the address. */
  ghost predicate Resolves(channels: map<string, Channel>, reference: string, address: string) {
    exists k :: k in channels && reference == "#/channels/" + k && channels[k].address == address
  }

  /** Operation key is the entry's own: its action, on the channel with its topic, with a reply exactly
      when the entry has a response, on the channel with the reply address. */
  ghost predicate OperationOf(s: Building, key: string, e: Entry, suffix: string) {
    && key in s.operations
    && var op := s.operations[key];
    && op.action == e.action && Resolves(s.book.channels, op.channel, e.topic)
    && (op.reply.Some? <==> e.reply.Some?)
    && (op.reply.Some? ==> Resolves(s.book.channels, op.reply.value, e.topic + ":" + suffix))
  }

  /** The key of each entry's operation. */
  ghost function OperationKeys(entries: seq<Entry>, suffix: string): (keys: seq<string>)
    ensures |keys| == |entries|
  {
    if entries == [] then []
    else
      var n := |entries| - 1;
      OperationKeys(entries[..n], suffix)
        + [Unused(OperationBase(entries[n]), "_", AddedAll(entries[..n], suffix).usedOps)]
  }

  lemma PostedKeepsReferences(b: Book, p: Post, reference: string, address: string)
    requires Consistent(b) && Resolves(b.channels, reference, address)
    ensures Resolves(Posted(b, p).channels, reference, address)
  {
    hide Posted, KeyIn;
    PostedChannels(b, p);
    var k :| k in b.channels && reference == "#/channels/" + k && b.channels[k].address == address;
    if k == KeyIn(b, p.address) && p.address !in b.byAddress {
      KeyIsFresh(b, p.address);
    }
    assert k in Posted(b, p).channels && Posted(b, p).channels[k].address == address by {
      PostedIsConsistent(b, p);
      if k == KeyIn(b, p.address) {
        SameAddress(b, p, k);
      }
    }
  }

  lemma SameAddress(b: Book, p: Post, k: string)
    requires Consistent(b) && k in b.channels && k == KeyIn(b, p.address)
    ensures b.channels[k].address == p.address
  {
    if p.address !in b.byAddress {
      KeyIsFresh(b, p.address);
    }
  }

  lemma PostedResolves(b: Book, p: Post)
    requires Consistent(b)
    ensures Resolves(Posted(b, p).channels, ChannelRef(KeyIn(b, p.address)), p.address)
  {
    hide Posted, KeyIn;
    PostedChannels(b, p);
  }

  lemma AddedOperations(s: Building, e: Entry, suffix: string, opKey: string)
    requires Consistent(s.book) && opKey == Unused(OperationBase(e), "_", s.usedOps)
    ensures var after := Added(s, e, suffix);
      && Consistent(after.book)
      && after.usedOps == s.usedOps + {opKey} && after.operations.Keys == s.operations.Keys + {opKey}
      && OperationOf(after, opKey, e, suffix)
      && (forall key | key in s.operations && key != opKey :: after.operations[key] == s.operations[key])
      && (forall r, a | Resolves(s.book.channels, r, a) :: Resolves(after.book.channels, r, a))
  {
    hide Posted, KeyIn, Consistent, Resolves, OperationBase;
    var post := MessagePost(e);
    var book := Posted(s.book, post);
    PostedIsConsistent(s.book, post);
    PostedResolves(s.book, post);
    forall r, a | Resolves(s.book.channels, r, a) ensures Resolves(book.channels, r, a) {
      PostedKeepsReferences(s.book, post, r, a);
    }
    if e.reply.Some? {
      var reply := ReplyPost(e, suffix);
      PostedIsConsistent(book, reply);
      PostedResolves(book, reply);
      forall r, a | Resolves(book.channels, r, a) ensures Resolves(Posted(book, reply).channels, r, a) {
        PostedKeepsReferences(book, reply, r, a);
      }
    }
  }

  /** Every entry keeps an operation of its own. */
  ghost predicate OperationForEach(s: Building, entries: seq<Entry>, keys: seq<string>, suffix: string) {
    && |keys| == |entries|
    && (forall i, j | 0 <= i < j < |keys| :: keys[i] != keys[j])
    && (forall key :: key in s.operations <==> key in keys)
    && (forall i | 0 <= i < |keys| :: OperationOf(s, keys[i], entries[i], suffix))
  }

  lemma OneMoreOperation(s: Building, entries: seq<Entry>, keys: seq<string>, e: Entry, suffix: string, opKey: string)
    requires Consistent(s.book) && opKey == Unused(OperationBase(e), "_", s.usedOps)
    requires OperationForEach(s, entries, keys, suffix) && s.usedOps == s.operations.Keys
    ensures OperationForEach(Added(s, e, suffix), entries + [e], keys + [opKey], suffix)
    ensures Added(s, e, suffix).usedOps == Added(s, e, suffix).operations.Keys
    ensures Consistent(Added(s, e, suffix).book)
  {
    hide Added, Consistent, Resolves, OperationBase;
    var after := Added(s, e, suffix);
    AddedOperations(s, e, suffix, opKey);
    forall i | 0 <= i < |keys| ensures OperationOf(after, keys[i], entries[i], suffix) {
      assert keys[i] in s.operations;
    }
  }

  /** Every entry that is not reserved keeps an operation of its own in the document, under a key no
      other entry has; the operation has the entry's action and its references lead to the channels with
      the entry's topic and reply address. There are no other operations. */
  lemma {:induction false} EveryEntryKeepsItsOperation(entries: seq<Entry>, suffix: string)
    ensures OperationForEach(AddedAll(entries, suffix), entries, OperationKeys(entries, suffix), suffix)
    ensures AddedAll(entries, suffix).usedOps == AddedAll(entries, suffix).operations.Keys
    ensures Consistent(AddedAll(entries, suffix).book)
    decreases |entries|
  {
    hide Added, Consistent, OperationOf;
    if entries == [] {
      NothingYet(suffix);
    } else {
      var n := |entries| - 1;
      EveryEntryKeepsItsOperation(entries[..n], suffix);
      var before := AddedAll(entries[..n], suffix);
      var opKey := Unused(OperationBase(entries[n]), "_", before.usedOps);
      OneMoreOperation(before, entries[..n], OperationKeys(entries[..n], suffix), entries[n], suffix, opKey);
      assert entries[..n] + [entries[n]] == entries;
    }
  }

  /** The entries that are kept: exactly the document's own that are not reserved, in order. */
  lemma {:induction false} ServedAreUnreserved(entries: seq<Entry>)
    ensures forall e :: e in Served(entries) <==> e in entries && !Hash.IsReserved(e.topic)
    decreases |entries|
  {
    if entries != [] {
      ServedAreUnreserved(entries[..|entries| - 1]);
      assert entries == entries[..|entries| - 1] + [entries[|entries| - 1]];
    }
  }

  // ---------------------------------------------------------------- the document's own entries

  /** The unreserved requests, events and sends, in order. */
  function KeptRequests(rs: seq<Request>): seq<Request> {
    if rs == [] then []
    else
      var n := |rs| - 1;
      KeptRequests(rs[..n]) + if "benzene:" <= rs[n].topic then [] else [rs[n]]
  }

  function KeptEvents(es: seq<Event>): seq<Event> {
    if es == [] then []
    else
      var n := |es| - 1;
      KeptEvents(es[..n]) + if "benzene:" <= es[n].topic then [] else [es[n]]
  }

  function KeptSends(ss: seq<Send>): seq<Send> {
    if ss == [] then []
    else
      var n := |ss| - 1;
      KeptSends(ss[..n]) + if "benzene:" <= ss[n].topic then [] else [ss[n]]
  }

  lemma {:induction false} ServedTogether(a: seq<Entry>, b: seq<Entry>)
    ensures Served(a + b) == Served(a) + Served(b)
    decreases |b|
  {
    if b == [] {
      assert a + b == a;
    } else {
      var n := |b| - 1;
      ServedTogether(a, b[..n]);
      assert a + b == a + b[..n] + [b[n]] && b == b[..n] + [b[n]];
      hide Served, Hash.IsReserved;
      ServedStep(a + b[..n], b[n]);
      ServedStep(b[..n], b[n]);
    }
  }

  lemma {:induction false} ServedRequests(rs: seq<Request>)
    ensures Served(Map(RequestEntry, rs)) == Map(RequestEntry, KeptRequests(rs))
    decreases |rs|
  {
    if rs != [] {
      var n := |rs| - 1;
      ServedRequests(rs[..n]);
      assert Map(RequestEntry, rs) == Map(RequestEntry, rs[..n]) + [RequestEntry(rs[n])];
      ServedStep(Map(RequestEntry, rs[..n]), RequestEntry(rs[n]));
    }
  }

  lemma {:induction false} ServedEvents(es: seq<Event>)
    ensures Served(Map(EventEntry, es)) == Map(EventEntry, KeptEvents(es))
    decreases |es|
  {
    if es != [] {
      var n := |es| - 1;
      ServedEvents(es[..n]);
      assert Map(EventEntry, es) == Map(EventEntry, es[..n]) + [EventEntry(es[n])];
      ServedStep(Map(EventEntry, es[..n]), EventEntry(es[n]));
    }
  }

  lemma {:induction false} ServedSends(ss: seq<Send>)
    ensures Served(Map(SendEntry, ss)) == Map(SendEntry, KeptSends(ss))
    decreases |ss|
  {
    if ss != [] {
      var n := |ss| - 1;
      ServedSends(ss[..n]);
      assert Map(SendEntry, ss) == Map(SendEntry, ss[..n]) + [SendEntry(ss[n])];
      ServedStep(Map(SendEntry, ss[..n]), SendEntry(ss[n]));
    }
  }

  /** The address has a channel with a message of the name. */
  ghost predicate HasMessage(channels: map<string, Channel>, address: string, name: string) {
    exists k :: k in channels && channels[k].address == address && name in channels[k].messages
  }

  /** The operation at key: what the application does with the message on the topic, and where its reply goes,
      if there is one. */
  ghost predicate Operates(s: Building, key: string, action: string, topic: string, name: string, replies: bool,
      suffix: string)
  {
    && IsNumbered(key, action + "_" + Slug(topic))
    && key in s.operations && s.operations[key].action == action
    && Resolves(s.book.channels, s.operations[key].channel, topic) && HasMessage(s.book.channels, topic, name)
    && (s.operations[key].reply.Some? <==> replies)
    && (replies ==>
          && Resolves(s.book.channels, s.operations[key].reply.value, topic + ":" + suffix)
          && HasMessage(s.book.channels, topic + ":" + suffix, "response"))
  }

  lemma {:induction false} KeysAreNumbered(entries: seq<Entry>, suffix: string, i: nat)
    requires i < |entries|
    ensures IsNumbered(OperationKeys(entries, suffix)[i], entries[i].action + "_" + Slug(entries[i].topic))
    decreases |entries|
  {
    var n := |entries| - 1;
    if i == n {
      var m := UnusedIsNumbered(OperationBase(entries[n]), "_", AddedAll(entries[..n], suffix).usedOps);
    } else {
      KeysAreNumbered(entries[..n], suffix, i);
    }
  }

  /** Some post puts a message of the name on the address. */
  ghost predicate Puts(posts: seq<Post>, address: string, name: string) {
    exists i :: 0 <= i < |posts| && posts[i].address == address && posts[i].message.name == name
  }

  lemma PutsMore(a: seq<Post>, b: seq<Post>, address: string, name: string)
    requires Puts(a, address, name) || Puts(b, address, name)
    ensures Puts(a + b, address, name)
  {
    if i :| 0 <= i < |a| && a[i].address == address && a[i].message.name == name {
      assert (a + b)[i] == a[i];
    } else {
      var j :| 0 <= j < |b| && b[j].address == address && b[j].message.name == name;
      assert (a + b)[|a| + j] == b[j];
    }
  }

  lemma {:induction false} EntryPuts(entries: seq<Entry>, suffix: string, i: nat)
    requires i < |entries|
    ensures Puts(Posts(entries, suffix), entries[i].topic, entries[i].name)
    ensures entries[i].reply.Some? ==> Puts(Posts(entries, suffix), entries[i].topic + ":" + suffix, "response")
    decreases |entries|
  {
    var n := |entries| - 1;
    var e, before := entries[n], Posts(entries[..n], suffix);
    var own := [Post(e.topic, Message(e.name, Translated(e.payload)))];
    var reply := if e.reply.None? then [] else [Post(e.topic + ":" + suffix, Message("response", Translated(e.reply)))];
    assert Posts(entries, suffix) == before + own + reply;
    hide Posts, Translated;
    if i == n {
      assert own[0].address == e.topic && own[0].message.name == e.name;
      PutsMore(before, own, e.topic, e.name);
      PutsMore(before + own, reply, e.topic, e.name);
      if e.reply.Some? {
        assert reply[0].address == e.topic + ":" + suffix;
        PutsMore(before + own, reply, e.topic + ":" + suffix, "response");
      }
    } else {
      EntryPuts(entries[..n], suffix, i);
      PutsMore(before, own, entries[i].topic, entries[i].name);
      PutsMore(before + own, reply, entries[i].topic, entries[i].name);
      if entries[i].reply.Some? {
        PutsMore(before, own, entries[i].topic + ":" + suffix, "response");
        PutsMore(before + own, reply, entries[i].topic + ":" + suffix, "response");
      }
    }
  }

  lemma {:induction false} PutIsLast(posts: seq<Post>, address: string, name: string)
    requires Puts(posts, address, name)
    ensures LastMessage(posts, address, name).Some?
    decreases |posts|
  {
    var i :| 0 <= i < |posts| && posts[i].address == address && posts[i].message.name == name;
    var n := |posts| - 1;
    if i < n {
      assert posts[..n][i] == posts[i];
      PutIsLast(posts[..n], address, name);
    }
  }

  lemma PutIsHeld(b: Book, posts: seq<Post>, address: string, name: string)
    requires BookHoldsLast(b, posts) && Consistent(b) && Puts(posts, address, name)
    ensures HasMessage(b.channels, address, name)
  {
    PutIsLast(posts, address, name);
    hide LastMessage;
    assert IsPostedTo(posts, address);
    var k := b.byAddress[address];
    assert HoldsLast(b.channels[k], posts) && b.channels[k].address == address;
  }

  lemma OperationIsOwn(entries: seq<Entry>, suffix: string, i: nat)
    requires i < |entries|
    ensures OperationOf(AddedAll(entries, suffix), OperationKeys(entries, suffix)[i], entries[i], suffix)
  {
    hide AddedAll, OperationKeys, OperationOf, Consistent;
    EveryEntryKeepsItsOperation(entries, suffix);
  }

  lemma EntryOperates(entries: seq<Entry>, suffix: string, i: nat)
    requires i < |entries|
    ensures var e := entries[i];
      Operates(AddedAll(entries, suffix), OperationKeys(entries, suffix)[i], e.action, e.topic, e.name,
               e.reply.Some?, suffix)
  {
    var s, e, posts := AddedAll(entries, suffix), entries[i], Posts(entries, suffix);
    hide *;
    OperationIsOwn(entries, suffix, i);
    KeysAreNumbered(entries, suffix, i);
    ChannelsAreByAddress(entries, suffix);
    EntryPuts(entries, suffix, i);
    PutIsHeld(s.book, posts, e.topic, e.name);
    if e.reply.Some? {
      PutIsHeld(s.book, posts, e.topic + ":" + suffix, "response");
    }
    EntryOperatesBy(s, OperationKeys(entries, suffix)[i], e, suffix);
  }

  lemma EntryOperatesBy(s: Building, key: string, e: Entry, suffix: string)
    requires OperationOf(s, key, e, suffix) && IsNumbered(key, e.action + "_" + Slug(e.topic))
    requires HasMessage(s.book.channels, e.topic, e.name)
    requires e.reply.Some? ==> HasMessage(s.book.channels, e.topic + ":" + suffix, "response")
    ensures Operates(s, key, e.action, e.topic, e.name, e.reply.Some?, suffix)
  {
    hide Resolves, HasMessage, IsNumbered, Slug;
  }

  /** Each request is received on its topic, and replied to exactly when it has a response. */
  ghost predicate Receives(s: Building, keys: seq<string>, rs: seq<Request>, suffix: string) {
    |keys| == |rs| && forall i | 0 <= i < |rs| ::
      Operates(s, keys[i], "receive", rs[i].topic, "request", rs[i].response.Some?, suffix)
  }

  ghost predicate SendsEvents(s: Building, keys: seq<string>, es: seq<Event>, suffix: string) {
    |keys| == |es| && forall i | 0 <= i < |es| :: Operates(s, keys[i], "send", es[i].topic, "event", false, suffix)
  }

  /** Each send goes out on its topic, and takes a reply exactly when it has a response. */
  ghost predicate SendsRequests(s: Building, keys: seq<string>, ss: seq<Send>, suffix: string) {
    |keys| == |ss| && forall i | 0 <= i < |ss| ::
      Operates(s, keys[i], "send", ss[i].topic, "request", ss[i].response.Some?, suffix)
  }

  /** A generated document has one operation for each unreserved request, event and send, in that order, and no
      other, each under a key of its own made of its action and the topic's slug. */
  lemma OperationsAreTheDocuments(doc: Contract, suffix: string)
    ensures var s, keys := AddedAll(EntriesOf(doc), suffix), OperationKeys(EntriesOf(doc), suffix);
      var rs, es, ss := KeptRequests(doc.requests), KeptEvents(doc.events), KeptSends(doc.sends);
      && |keys| == |rs| + |es| + |ss| && (forall key :: key in s.operations <==> key in keys)
      && (forall i, j | 0 <= i < j < |keys| :: keys[i] != keys[j])
      && Receives(s, keys[..|rs|], rs, suffix) && SendsEvents(s, keys[|rs|..|rs| + |es|], es, suffix)
      && SendsRequests(s, keys[|rs| + |es|..], ss, suffix)
  {
    hide *;
    var entries := EntriesOf(doc);
    var rs, es, ss := KeptRequests(doc.requests), KeptEvents(doc.events), KeptSends(doc.sends);
    EntriesAreKept(doc);
    KeysAreOwn(entries, suffix);
    var keys := OperationKeys(entries, suffix);
    MapLengths(rs, es, ss);
    RequestsOperate(entries, suffix, keys[..|rs|], rs);
    EventsOperate(entries, suffix, |rs|, keys[|rs|..|rs| + |es|], es);
    SendsOperate(entries, suffix, |rs| + |es|, keys[|rs| + |es|..], ss);
  }

  lemma MapLengths(rs: seq<Request>, es: seq<Event>, ss: seq<Send>)
    ensures |Map(RequestEntry, rs)| == |rs| && |Map(EventEntry, es)| == |es| && |Map(SendEntry, ss)| == |ss|
  {
  }

  lemma KeysAreOwn(entries: seq<Entry>, suffix: string)
    ensures var s, keys := AddedAll(entries, suffix), OperationKeys(entries, suffix);
      && |keys| == |entries| && (forall key :: key in s.operations <==> key in keys)
      && (forall i, j | 0 <= i < j < |keys| :: keys[i] != keys[j])
  {
    hide AddedAll, OperationKeys, OperationOf, Consistent;
    EveryEntryKeepsItsOperation(entries, suffix);
  }

  lemma RequestsOperate(entries: seq<Entry>, suffix: string, keys: seq<string>, rs: seq<Request>)
    requires |rs| <= |entries| && entries[..|rs|] == Map(RequestEntry, rs)
    requires keys == OperationKeys(entries, suffix)[..|rs|]
    ensures Receives(AddedAll(entries, suffix), keys, rs, suffix)
  {
    hide AddedAll, OperationKeys, Operates;
    forall i | 0 <= i < |rs|
      ensures Operates(AddedAll(entries, suffix), keys[i], "receive", rs[i].topic, "request", rs[i].response.Some?,
          suffix)
    {
      EntryOperates(entries, suffix, i);
      assert entries[i] == entries[..|rs|][i] == RequestEntry(rs[i]);
    }
  }

  lemma EventsOperate(entries: seq<Entry>, suffix: string, n: nat, keys: seq<string>, es: seq<Event>)
    requires n + |es| <= |entries| && entries[n..n + |es|] == Map(EventEntry, es)
    requires keys == OperationKeys(entries, suffix)[n..n + |es|]
    ensures SendsEvents(AddedAll(entries, suffix), keys, es, suffix)
  {
    hide AddedAll, OperationKeys, Operates;
    forall i | 0 <= i < |es|
      ensures Operates(AddedAll(entries, suffix), keys[i], "send", es[i].topic, "event", false, suffix)
    {
      EntryOperates(entries, suffix, n + i);
      assert entries[n + i] == entries[n..n + |es|][i] == EventEntry(es[i]);
    }
  }

  lemma SendsOperate(entries: seq<Entry>, suffix: string, n: nat, keys: seq<string>, ss: seq<Send>)
    requires n + |ss| == |entries| && entries[n..] == Map(SendEntry, ss)
    requires keys == OperationKeys(entries, suffix)[n..]
    ensures SendsRequests(AddedAll(entries, suffix), keys, ss, suffix)
  {
    hide AddedAll, OperationKeys, Operates;
    forall i | 0 <= i < |ss|
      ensures Operates(AddedAll(entries, suffix), keys[i], "send", ss[i].topic, "request", ss[i].response.Some?,
          suffix)
    {
      EntryOperates(entries, suffix, n + i);
      assert entries[n + i] == entries[n..][i] == SendEntry(ss[i]);
    }
  }

  lemma EntriesAreKept(doc: Contract)
    ensures EntriesOf(doc) == Map(RequestEntry, KeptRequests(doc.requests)) + Map(EventEntry, KeptEvents(doc.events))
      + Map(SendEntry, KeptSends(doc.sends))
  {
    hide Served, Map;
    var (rs, es, ss) := (Map(RequestEntry, doc.requests), Map(EventEntry, doc.events), Map(SendEntry, doc.sends));
    ServedTogether(rs + es, ss);
    ServedTogether(rs, es);
    ServedRequests(doc.requests);
    ServedEvents(doc.events);
    ServedSends(doc.sends);
  }
}

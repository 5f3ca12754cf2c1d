/** DynamoDB AttributeValues: plain JSON encoded into the type-descriptor format
    (benzenetest/events.go) and converted back (awsdynamodb/attributevalue.go). */
module DynamoDb {
  import opened JsonTrees
  import opened Options

  // ---------------------------------------------------------------- encoding

  /** jsonToAttributeValue. */
  function Encode(v: Json): Json {
    match v
    case Null => Obj(map["NULL" := Bool(true)])
    case Obj(m) => Obj(map["M" := Obj(map k | k in m :: Encode(m[k]))])
    case Arr(items) => Obj(map["L" := Arr(seq(|items|, i requires 0 <= i < |items| => Encode(items[i])))])
    case Str(s) => Obj(map["S" := Str(s)])
    case Bool(b) => Obj(map["BOOL" := Bool(b)])
    case Num(literal) => Obj(map["N" := Str(literal)])
  }

  /** An item image: every field of the document, encoded. */
  function EncodeImage(fields: map<string, Json>): Json { Obj(map k | k in fields :: Encode(fields[k])) }

  method JsonToAttributeValue(v: Json) returns (out: Json)
    ensures out == Encode(v)
    decreases v, 1
  {
    match v {
      case Null => out := Obj(map["NULL" := Bool(true)]);
      case Obj(m) =>
        var image := BuildImage(m);
        out := Obj(map["M" := image]);
      case Arr(items) =>
        var list: seq<Json> := [];
        var i := 0;
        while i < |items|
          invariant 0 <= i <= |items| && |list| == i
          invariant forall j | 0 <= j < i :: list[j] == Encode(items[j])
        {
          var item := JsonToAttributeValue(items[i]);
          list := list + [item];
          i := i + 1;
        }
        assert list == seq(|items|, i requires 0 <= i < |items| => Encode(items[i]));
        out := Obj(map["L" := Arr(list)]);
      case Str(s) => out := Obj(map["S" := Str(s)]);
      case Bool(b) => out := Obj(map["BOOL" := Bool(b)]);
      case Num(literal) => out := Obj(map["N" := Str(literal)]);
    }
  }

  /** The loop over an object's fields: of a nested map, and of the image itself. */
  method BuildImage(fields: map<string, Json>) returns (image: Json)
    ensures image == EncodeImage(fields)
    decreases Obj(fields), 0
  {
    var m: map<string, Json> := map[];
    var todo := fields.Keys;
    while todo != {}
      invariant todo <= fields.Keys
      invariant m == map k | k in fields && k !in todo :: Encode(fields[k])
    {
      var name :| name in todo;
      todo := todo - {name};
      var value := JsonToAttributeValue(fields[name]);
      m := m[name := value];
    }
    image := Obj(m);
  }

  // ---------------------------------------------------------------- converting back

  /** A number's text, read as JSON: none when json.Valid refuses it. */
  type Reader = string -> Option<Json>

  /** attributeMapToJSON may answer r; None is any error. A null map unmarshals to an empty one. */
  ghost predicate MapGives(v: Json, read: Reader, r: Option<Json>)
    decreases v, 1
  {
    match v
    case Null => r == Some(EMPTY)
    case Obj(m) =>
      if r.None? then exists k :: k in m && ValueGives(m[k], read, None)
      else
        && r.value.Obj? && r.value.members.Keys == m.Keys
        && forall k | k in m :: ValueGives(m[k], read, Some(r.value.members[k]))
    case _ => r == None
  }

  /** convertAttributeValue may answer r: of several descriptors the map yields any one first. */
  ghost predicate ValueGives(v: Json, read: Reader, r: Option<Json>)
    decreases v, 0
  {
    match v
    case Null => r == Some(Null)
    case Obj(m) => if m == map[] then r == Some(Null) else exists d :: d in m && DescriptorGives(d, m[d], read, r)
    case _ => r == None
  }

  ghost predicate DescriptorGives(d: string, v: Json, read: Reader, r: Option<Json>)
    decreases v, 2
  {
    if d == "N" then r == ReadNumber(v, read)
    else if d == "NULL" then r == Some(Null)
    else if d == "M" then MapGives(v, read, r)
    else if d == "L" then ListGives(v, read, r)
    else if d == "NS" then r == ConvertNumberSet(v, read)
    else r == Some(v)  // S, B, BOOL, SS, BS, and descriptors not known: as they stand
  }

  /** numberLiteral: null unmarshals into an empty string. */
  function ReadNumber(v: Json, read: Reader): Option<Json> {
    match v
    case Str(s) => read(s)
    case Null => read("")
    case _ => None
  }

  ghost predicate ListGives(v: Json, read: Reader, r: Option<Json>)
    decreases v, 1
  {
    match v
    case Null => r == Some(Arr([]))
    case Arr(items) =>
      if r.None? then exists i :: 0 <= i < |items| && ValueGives(items[i], read, None)
      else
        && r.value.Arr? && |r.value.items| == |items|
        && forall i | 0 <= i < |items| :: ValueGives(items[i], read, Some(r.value.items[i]))
    case _ => r == None
  }

  ghost function ConvertNumberSet(v: Json, read: Reader): Option<Json> {
    match v
    case Null => Some(Arr([]))
    case Arr(items) =>
      if forall i | 0 <= i < |items| :: ReadNumber(items[i], read).Some? then
        Some(Arr(seq(|items|, i requires 0 <= i < |items| => ReadNumber(items[i], read).value)))
      else None
    case _ => None
  }

  // ---------------------------------------------------------------- the source's loops

  method AttributeMapToJSON(v: Json, read: Reader) returns (r: Option<Json>)
    ensures MapGives(v, read, r)
    decreases v, 1
  {
    hide ValueGives;
    match v {
      case Null => r := Some(EMPTY);
      case Obj(m) =>
        var out: map<string, Json> := map[];
        var todo := m.Keys;
        while todo != {}
          invariant todo <= m.Keys && out.Keys == m.Keys - todo
          invariant forall k | k in out :: ValueGives(m[k], read, Some(out[k]))
        {
          var name :| name in todo;
          todo := todo - {name};
          var converted := ConvertAttributeValue(m[name], read);
          if converted.None? {
            return None;
          }
          out := out[name := converted.value];
        }
        r := Some(Obj(out));
      case _ => r := None;
    }
  }

  method ConvertAttributeValue(v: Json, read: Reader) returns (r: Option<Json>)
    ensures ValueGives(v, read, r)
    decreases v, 0
  {
    match v {
      case Null => r := Some(Null);
      case Obj(m) =>
        if m.Keys == {} {
          assert m == map[];
          return Some(Null);
        }
        var d :| d in m.Keys;
        if d == "N" {
          r := ReadNumber(m[d], read);
        } else if d == "NULL" {
          r := Some(Null);
        } else if d == "M" {
          r := AttributeMapToJSON(m[d], read);
        } else if d == "L" {
          r := ConvertListItems(m[d], read);
        } else if d == "NS" {
          r := ConvertNumbers(m[d], read);
        } else {
          r := Some(m[d]);
        }
        assert DescriptorGives(d, m[d], read, r);
      case _ => r := None;
    }
  }

  method ConvertListItems(v: Json, read: Reader) returns (r: Option<Json>)
    ensures ListGives(v, read, r)
    decreases v, 1
  {
    hide ValueGives;
    match v {
      case Null => r := Some(Arr([]));
      case Arr(items) =>
        var out: seq<Json> := [];
        var i := 0;
        while i < |items|
          invariant 0 <= i <= |items| && |out| == i
          invariant forall j | 0 <= j < i :: ValueGives(items[j], read, Some(out[j]))
        {
          var converted := ConvertAttributeValue(items[i], read);
          if converted.None? {
            return None;
          }
          out := out + [converted.value];
          i := i + 1;
        }
        r := Some(Arr(out));
      case _ => r := None;
    }
  }

  method ConvertNumbers(v: Json, read: Reader) returns (r: Option<Json>)
    ensures r == ConvertNumberSet(v, read)
  {
    match v {
      case Null => r := Some(Arr([]));
      case Arr(items) =>
        var out: seq<Json> := [];
        var i := 0;
        while i < |items|
          invariant 0 <= i <= |items| && |out| == i
          invariant forall j | 0 <= j < i :: ReadNumber(items[j], read) == Some(out[j])
        {
          var number := ReadNumber(items[i], read);
          if number.None? {
            return None;
          }
          out := out + [number.value];
          i := i + 1;
        }
        assert out == seq(|items|, i requires 0 <= i < |items| => ReadNumber(items[i], read).value);
        r := Some(Arr(out));
      case _ => r := None;
    }
  }

  // ---------------------------------------------------------------- map order

  /** Every AttributeValue in v carries at most one descriptor. */
  ghost predicate SingleDescriptors(v: Json)
    decreases v, 0
  {
    v.Obj? ==>
      && |v.members| <= 1
      && forall d | d in v.members :: SingleBelow(d, v.members[d])
  }

  ghost predicate SingleBelow(d: string, v: Json)
    decreases v, 1
  {
    && (d == "M" && v.Obj? ==> forall k | k in v.members :: SingleDescriptors(v.members[k]))
    && (d == "L" && v.Arr? ==> forall i | 0 <= i < |v.items| :: SingleDescriptors(v.items[i]))
  }

  lemma OnlyKey(m: map<string, Json>, d: string)
    requires |m| <= 1 && d in m
    ensures forall e | e in m :: e == d
  {
    assert |m.Keys| == |m|;
    assert |m.Keys - {d}| == 0;
    forall e | e in m ensures e == d {
      assert e !in m.Keys - {d};
    }
  }

  /** With one descriptor each, the answer does not depend on map order. */
  lemma {:induction false} SingleGivesOne(v: Json, read: Reader, r: Option<Json>, q: Option<Json>)
    requires SingleDescriptors(v) && ValueGives(v, read, r) && ValueGives(v, read, q)
    ensures r == q
    decreases v
  {
    if v.Obj? && v.members != map[] {
      var m := v.members;
      var d :| d in m && DescriptorGives(d, m[d], read, r);
      OnlyKey(m, d);
      assert DescriptorGives(d, m[d], read, q) && SingleBelow(d, m[d]);
      if d == "M" && m[d].Obj? {
        forall k, a, b | k in m[d].members && ValueGives(m[d].members[k], read, a)
          && ValueGives(m[d].members[k], read, b)
          ensures a == b
        {
          SingleGivesOne(m[d].members[k], read, a, b);
        }
        MapGivesOne(m[d], read, r, q);
      } else if d == "L" && m[d].Arr? {
        forall i, a, b | 0 <= i < |m[d].items| && ValueGives(m[d].items[i], read, a)
          && ValueGives(m[d].items[i], read, b)
          ensures a == b
        {
          SingleGivesOne(m[d].items[i], read, a, b);
        }
        ListGivesOne(m[d], read, r, q);
      } else {
        FlatGivesOne(d, m[d], read, r, q);
      }
    }
  }

  lemma FlatGivesOne(d: string, v: Json, read: Reader, r: Option<Json>, q: Option<Json>)
    requires !(d == "M" && v.Obj?) && !(d == "L" && v.Arr?)
    requires DescriptorGives(d, v, read, r) && DescriptorGives(d, v, read, q)
    ensures r == q
  {
  }

  lemma MapGivesOne(v: Json, read: Reader, r: Option<Json>, q: Option<Json>)
    requires v.Obj? && MapGives(v, read, r) && MapGives(v, read, q)
    requires forall k, a, b | k in v.members && ValueGives(v.members[k], read, a)
      && ValueGives(v.members[k], read, b) :: a == b
    ensures r == q
  {
    hide ValueGives;
    if r.Some? && q.Some? {
      assert r.value.members == q.value.members;
    }
  }

  lemma ListGivesOne(v: Json, read: Reader, r: Option<Json>, q: Option<Json>)
    requires v.Arr? && ListGives(v, read, r) && ListGives(v, read, q)
    requires forall i, a, b | 0 <= i < |v.items| && ValueGives(v.items[i], read, a)
      && ValueGives(v.items[i], read, b) :: a == b
    ensures r == q
  {
    hide ValueGives;
    if r.Some? && q.Some? {
      assert r.value.items == q.value.items;
    }
  }

  // ---------------------------------------------------------------- the round trip

  /** Every number literal in v reads back as itself. */
  ghost predicate NumbersRead(v: Json, read: Reader) {
    match v
    case Num(literal) => read(literal) == Some(v)
    case Obj(m) => forall k | k in m :: NumbersRead(m[k], read)
    case Arr(items) => forall i | 0 <= i < |items| :: NumbersRead(items[i], read)
    case _ => true
  }

  lemma OneDescriptor(d: string, v: Json, read: Reader, r: Option<Json>)
    requires DescriptorGives(d, v, read, r)
    ensures ValueGives(Obj(map[d := v]), read, r)
  {
    OnlyDescriptor(d, v, read, r);
  }

  lemma OnlyDescriptor(d: string, v: Json, read: Reader, r: Option<Json>)
    ensures ValueGives(Obj(map[d := v]), read, r) <==> DescriptorGives(d, v, read, r)
  {
    assert d in map[d := v];
  }

  lemma {:induction false} GivesBack(v: Json, read: Reader)
    requires NumbersRead(v, read)
    ensures ValueGives(Encode(v), read, Some(v))
    decreases v
  {
    match v
    case Null => OneDescriptor("NULL", Bool(true), read, Some(v));
    case Bool(b) => OneDescriptor("BOOL", Bool(b), read, Some(v));
    case Str(s) => OneDescriptor("S", Str(s), read, Some(v));
    case Num(literal) => OneDescriptor("N", Str(literal), read, Some(v));
    case Obj(m) =>
      forall k | k in m ensures ValueGives(Encode(m[k]), read, Some(m[k])) {
        GivesBack(m[k], read);
      }
      OneDescriptor("M", EncodeImage(m), read, Some(v));
    case Arr(items) =>
      forall i | 0 <= i < |items| ensures ValueGives(Encode(items[i]), read, Some(items[i])) {
        GivesBack(items[i], read);
      }
      OneDescriptor("L", Arr(seq(|items|, i requires 0 <= i < |items| => Encode(items[i]))), read, Some(v));
  }

  /** Encoding a value and converting it back gives the value, through any nesting and in any map order. */
  lemma RoundTrip(v: Json, read: Reader, r: Option<Json>)
    requires NumbersRead(v, read)
    ensures ValueGives(Encode(v), read, r) <==> r == Some(v)
  {
    GivesBack(v, read);
    EncodedIsSingle(v);
    if ValueGives(Encode(v), read, r) {
      SingleGivesOne(Encode(v), read, r, Some(v));
    }
  }

  /** Encoding a document as an item image and converting the image back gives the document. */
  lemma ImageRoundTrip(fields: map<string, Json>, read: Reader, r: Option<Json>)
    requires NumbersRead(Obj(fields), read)
    ensures MapGives(EncodeImage(fields), read, r) <==> r == Some(Obj(fields))
  {
    var image := EncodeImage(fields).members;
    forall k, q | k in fields ensures ValueGives(image[k], read, q) <==> q == Some(fields[k]) {
      RoundTrip(fields[k], read, q);
    }
    EachGives(fields, image, read, r);
  }

  lemma EachGives(fields: map<string, Json>, image: map<string, Json>, read: Reader, r: Option<Json>)
    requires image.Keys == fields.Keys
    requires forall k, q | k in fields :: ValueGives(image[k], read, q) <==> q == Some(fields[k])
    ensures MapGives(Obj(image), read, r) <==> r == Some(Obj(fields))
  {
    if r.Some? && MapGives(Obj(image), read, r) {
      forall k | k in fields ensures r.value.members[k] == fields[k] {
        assert ValueGives(image[k], read, Some(r.value.members[k]));
      }
      assert r.value.members == fields;
    }
  }

  /** Encoded values carry one descriptor each, so the conversion never depends on map order. */
  lemma {:induction false} EncodedIsSingle(v: Json)
    ensures SingleDescriptors(Encode(v))
  {
    match v
    case Obj(m) =>
      var inner := EncodeImage(m);
      forall k | k in m ensures SingleDescriptors(inner.members[k]) {
        EncodedIsSingle(m[k]);
      }
      SingleOne("M", inner);
    case Arr(items) =>
      var encoded := seq(|items|, i requires 0 <= i < |items| => Encode(items[i]));
      forall i | 0 <= i < |items| ensures SingleDescriptors(encoded[i]) {
        EncodedIsSingle(items[i]);
      }
      SingleOne("L", Arr(encoded));
    case Null => SingleOne("NULL", Bool(true));
    case Bool(b) => SingleOne("BOOL", Bool(b));
    case Str(s) => SingleOne("S", Str(s));
    case Num(literal) => SingleOne("N", Str(literal));
  }

  /** The descriptor of each JSON type. */
  function DescriptorOf(v: Json): string {
    if v.Null? then "NULL" else if v.Bool? then "BOOL" else if v.Num? then "N" else if v.Str? then "S"
    else if v.Arr? then "L" else "M"
  }

  /** An encoded value carries the one descriptor of its type; a descriptor of text or of a number holds text. */
  lemma EncodedNamesItsType(v: Json)
    ensures Encode(v).Obj? && Encode(v).members.Keys == {DescriptorOf(v)}
    ensures v.Str? ==> Encode(v).members["S"] == v
    ensures v.Num? ==> Encode(v).members["N"] == Str(v.literal)
  {
  }

  lemma SingleOne(d: string, v: Json)
    requires SingleBelow(d, v)
    ensures SingleDescriptors(Obj(map[d := v]))
  {
    var m := map[d := v];
    assert m.Keys == {d};
  }

  // ---------------------------------------------------------------- sets

  /** A set of numbers converts to an array of them, in order, or fails when one of them does not read. */
  lemma NumberSetIsRead(texts: seq<string>, read: Reader, r: Option<Json>)
    ensures ValueGives(Obj(map["NS" := Arr(seq(|texts|, i requires 0 <= i < |texts| => Str(texts[i])))]), read, r) <==>
      if exists i :: 0 <= i < |texts| && read(texts[i]).None? then r.None?
      else
        && r.Some? && r.value.Arr? && |r.value.items| == |texts|
        && forall i | 0 <= i < |texts| :: Some(r.value.items[i]) == read(texts[i])
  {
    var numbers := Arr(seq(|texts|, i requires 0 <= i < |texts| => Str(texts[i])));
    OnlyDescriptor("NS", numbers, read, r);
    hide ValueGives;
    forall i | 0 <= i < |texts| ensures ReadNumber(numbers.items[i], read) == read(texts[i]) {}
    if !exists i :: 0 <= i < |texts| && read(texts[i]).None? {
      assert ConvertNumberSet(numbers, read).Some?;
      if r.Some? && r.value.Arr? && |r.value.items| == |texts|
        && forall i | 0 <= i < |texts| :: Some(r.value.items[i]) == read(texts[i])
      {
        assert r.value.items == ConvertNumberSet(numbers, read).value.items;
      }
    }
  }

  /** Strings, binary text, booleans and their sets convert to what they hold. */
  lemma PlainDescriptorsStand(d: string, v: Json, read: Reader, r: Option<Json>)
    requires d in {"S", "B", "BOOL", "SS", "BS"}
    ensures ValueGives(Obj(map[d := v]), read, r) <==> r == Some(v)
  {
    OnlyDescriptor(d, v, read, r);
  }

  /** A number converts to what its text reads as. */
  lemma NumberIsRead(text: string, read: Reader, r: Option<Json>)
    ensures ValueGives(Obj(map["N" := Str(text)]), read, r) <==> r == read(text)
  {
    OnlyDescriptor("N", Str(text), read, r);
  }
}

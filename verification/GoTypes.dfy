/** Go types as reflection shows them to the deriver: a finite table of types, referring to one
    another by index. */
module GoTypes {

  type TypeId = nat

  datatype Kind =
    | StringKind
    | BoolKind
    | IntKind
    | Int8Kind
    | Int16Kind
    | Int32Kind
    | Int64Kind
    | UintKind
    | Uint8Kind
    | Uint16Kind
    | Uint32Kind
    | Uint64Kind
    | UintptrKind
    | Float32Kind
    | Float64Kind
    | InterfaceKind
    | Pointer(elem: TypeId)
    | Slice(elem: TypeId)
    | Array(elem: TypeId)
    | MapOf(key: TypeId, elem: TypeId)
    | Struct(fields: seq<JsonField>, hollow: bool)  // hollow: no Go field at all
    | Unmarshalable  // chan, func, complex, unsafe.Pointer

  /** One JSON property of a struct, as jsonFields resolves it. */
  datatype JsonField = JsonField(name: string, typ: TypeId, quoted: bool, omittable: bool)

  /** name is "" for an unnamed type; component is what componentName returns. */
  datatype GoType = GoType(
    kind: Kind, name: string, qualified: string, component: string,
    time: bool, rawMessage: bool, jsonMarshaler: bool, textMarshaler: bool)

  type Types = seq<GoType>

  /** A named struct type other than time.Time. */
  predicate Hoistable(t: GoType) { t.kind.Struct? && t.name != "" && !t.time }

  /** A named struct type that gets a component of its own. */
  predicate Hoisted(t: GoType) { Hoistable(t) && t.component != "" }

  /** A type encoding/json marshals field by field. */
  predicate Plain(t: GoType) { !t.time && !t.rawMessage && !t.jsonMarshaler && !t.textMarshaler }

  predicate SignedKind(k: Kind) { k.IntKind? || k.Int8Kind? || k.Int16Kind? || k.Int32Kind? || k.Int64Kind? }

  predicate UnsignedKind(k: Kind) {
    k.UintKind? || k.Uint8Kind? || k.Uint16Kind? || k.Uint32Kind? || k.Uint64Kind? || k.UintptrKind?
  }

  predicate IntegerKind(k: Kind) { SignedKind(k) || UnsignedKind(k) }

  predicate StringKeyed(k: GoType) { k.kind.StringKind? || IntegerKind(k.kind) || k.textMarshaler }

  /** Every type referred to is in the table. */
  predicate InRange(env: Types) {
    forall t | 0 <= t < |env| ::
      match env[t].kind
      case Pointer(e) => e < |env|
      case Slice(e) => e < |env|
      case Array(e) => e < |env|
      case MapOf(k, e) => k < |env| && e < |env|
      case Struct(fields, _) => forall f | f in fields :: f.typ < |env|
      case _ => true
  }

  /** Types whose schema needs no other type's. */
  predicate IsLeaf(env: Types, t: TypeId)
    requires InRange(env) && t < |env|
  {
    var ty := env[t];
    ty.time || ty.rawMessage
    || (!ty.kind.Pointer? && (ty.jsonMarshaler || ty.textMarshaler))
    || match ty.kind
       case Pointer(e) =>
         (!env[e].time && !env[e].jsonMarshaler && ty.jsonMarshaler) || (!env[e].textMarshaler && ty.textMarshaler)
       case Slice(e) => env[e].kind.Uint8Kind? && !env[e].jsonMarshaler && !env[e].textMarshaler
       case Array(_) => false
       case MapOf(k, _) => !StringKeyed(env[k])
       case Struct(_, _) => false
       case _ => true
  }

  /** A property whose type, where its schema is needed, comes before bound. */
  predicate Fits(env: Types, f: JsonField, bound: nat) { f.typ < |env| && (f.quoted || f.typ < bound) }

  /** Tables in which every cycle of types that need each other's schemas passes a named struct: the
      table is ordered so that any other type only needs the schemas of earlier ones. */
  ghost predicate Finite(env: Types) {
    && InRange(env)
    && (forall t | 0 <= t < |env| && Hoisted(env[t]) :: env[t].qualified != "")
    && (forall t: TypeId | t < |env| && !IsLeaf(env, t) :: NeedsEarlier(env, t))
  }

  predicate NeedsEarlier(env: Types, t: TypeId)
    requires t < |env|
  {
    match env[t].kind
    case Pointer(e) => e < t
    case Slice(e) => e < t
    case Array(e) => e < t
    case MapOf(_, e) => e < t
    case Struct(fields, _) => Hoistable(env[t]) || forall f | f in fields :: Fits(env, f, t)
    case _ => true
  }

  /** The provisional keys of the table's components. */
  function Keys(env: Types): set<string> {
    set t | 0 <= t < |env| && Hoisted(env[t]) :: env[t].qualified
  }

  /** The named struct types of the table. */
  function NamedStructs(env: Types): set<TypeId> {
    set t | 0 <= t < |env| && Hoistable(env[t]) :: t
  }
}

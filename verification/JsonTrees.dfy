/** Generic JSON values as the repository holds them after decoding: objects are finite maps from
    member names to values, numbers keep their literal text, strings are sequences of Unicode scalar
    values. */
module JsonTrees {

  datatype Json =
    | Null
    | Bool(b: bool)
    | Num(literal: string)
    | Str(s: string)
    | Arr(items: seq<Json>)
    | Obj(members: map<string, Json>)

  const EMPTY := Obj(map[])

  /** A type assertion to an object, with the nil map when it fails. */
  function AsObject(v: Json): map<string, Json> {
    if v.Obj? then v.members else map[]
  }

  /** Member lookup followed by a type assertion to an object. */
  function MemberObject(m: map<string, Json>, key: string): map<string, Json> {
    if key in m then AsObject(m[key]) else map[]
  }

  /** Member lookup followed by a type assertion to an array. */
  function MemberItems(m: map<string, Json>, key: string): seq<Json> {
    if key in m && m[key].Arr? then m[key].items else []
  }

  /** Member lookup followed by a type assertion to a string: "" when absent or not a string. */
  function MemberString(m: map<string, Json>, key: string): string {
    if key in m && m[key].Str? then m[key].s else ""
  }
}

/** JSON values with unordered objects (section 4 of RFC 8259). Number literals are kept as text. */
module Json {

  datatype Json =
    | Null
    | Bool(b: bool)
    | Num(literal: string)
    | Str(s: string)
    | Arr(items: seq<Json>)
    | Obj(fields: map<string, Json>)

  /** The string member of an object, empty when it is absent or not a string. */
  function StringField(v: Json, key: string): string {
    if v.Obj? && key in v.fields && v.fields[key].Str? then v.fields[key].s else ""
  }

  function TagOf(v: Json): string {
    StringField(v, "tag")
  }

  function WithTag(v: Json, tag: string): Json
    requires v.Obj?
  {
    Obj(v.fields["tag" := Str(tag)])
  }

  /** An outbound apart from its tag. */
  function Untagged(v: Json): Json {
    if v.Obj? then Obj(v.fields - {"tag"}) else v
  }

  lemma RetaggedSame(v: Json, tag: string)
    requires v.Obj?
    ensures Untagged(WithTag(v, tag)) == Untagged(v) && TagOf(WithTag(v, tag)) == tag
  {
    assert v.fields["tag" := Str(tag)] - {"tag"} == v.fields - {"tag"};
  }
}

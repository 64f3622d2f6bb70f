/** Documents as the artifact's serialized form sees them: trees of JSON values. */
module Documents {
  import opened Outcomes

  datatype Doc =
    | Null
    | Flag(value: bool)
    | Number(amount: real)
    | Text(text: string)
    | Items(items: seq<Doc>)
    | Dict(fields: map<string, Doc>)

  /** `d.get(key)` on a mapping, `None` and an absent key being one. */
  function Get(d: Doc, key: string): Doc {
    if d.Dict? && key in d.fields then d.fields[key] else Null
  }

  function TextAt(d: Doc, key: string): string {
    if Get(d, key).Text? then Get(d, key).text else ""
  }

  function ItemsAt(d: Doc, key: string): seq<Doc> {
    if Get(d, key).Items? then Get(d, key).items else []
  }

  function Set(d: Doc, key: string, value: Doc): (out: Doc)
    ensures Get(out, key) == value
    ensures forall other | other != key :: Get(out, other) == Get(d, other)
  {
    Dict((if d.Dict? then d.fields else map[])[key := value])
  }

  /** `d.update(patch)` */
  function Update(d: Doc, patch: map<string, Doc>): (out: Doc)
    ensures forall key :: Get(out, key) == if key in patch then patch[key] else Get(d, key)
  {
    Dict((if d.Dict? then d.fields else map[]) + patch)
  }
}

/** `domain/serde.py`: a reviewed artifact is written without what it would get back
    anyway. What that costs, and when it costs nothing. */
module Serde {
  import opened Outcomes
  import opened Documents

  // ---------------------------------------------------------------- models and their values

  datatype Type =
    | TRaw                                              // scalars and value expressions, taken as they stand
    | TOption(of: Type)
    | TModel(name: string)
    | TTagged(key: string, classes: map<string, string>) // a union told apart by one field
    | TList(of: Type)
    | TMap(of: Type)                                    // a free-form mapping

  /** One field of a model; `None` as default means the field is required. */
  datatype Field = Field(key: string, of: Type, default: Option<Value>)

  datatype Value =
    | VNone
    | VRaw(doc: Doc)
    | VModel(name: string, values: seq<Value>)
    | VList(items: seq<Value>)
    | VMap(entries: map<string, Value>)

  type Schemas = map<string, seq<Field>>

  ghost predicate DistinctKeys(schemas: Schemas) {
    forall name | name in schemas ::
      forall i, j | 0 <= i < j < |schemas[name]| :: schemas[name][i].key != schemas[name][j].key
  }

  ghost predicate HasType(schemas: Schemas, v: Value, t: Type)
    decreases v, 1, t
  {
    match t
    case TRaw => v.VRaw? && !v.doc.Null?
    case TOption(of) => v.VNone? || HasType(schemas, v, of)
    case TModel(name) => v.VModel? && v.name == name && FieldsTyped(schemas, v)
    case TTagged(key, classes) =>
      v.VModel? && FieldsTyped(schemas, v) && exists tag :: tag in classes && IsTagged(schemas, v, key, tag, classes)
    case TList(of) => v.VList? && forall i | 0 <= i < |v.items| :: HasType(schemas, v.items[i], of)
    case TMap(of) => v.VMap? && forall key | key in v.entries :: HasType(schemas, v.entries[key], of)
  }

  ghost predicate FieldsTyped(schemas: Schemas, v: Value)
    requires v.VModel?
    decreases v, 0
  {
    && v.name in schemas && |v.values| == |schemas[v.name]|
    && forall i | 0 <= i < |v.values| :: HasType(schemas, v.values[i], schemas[v.name][i].of)
  }

  ghost predicate IsTagged(schemas: Schemas, v: Value, key: string, tag: string, classes: map<string, string>)
    requires v.VModel? && v.name in schemas && |v.values| == |schemas[v.name]|
  {
    && tag in classes && classes[tag] == v.name
    && exists i :: 0 <= i < |v.values| && schemas[v.name][i].key == key && v.values[i] == VRaw(Text(tag))
  }

  // ---------------------------------------------------------------- dumping

  predicate WellMade(schemas: Schemas, v: Value) {
    v.VModel? && v.name in schemas && |v.values| == |schemas[v.name]|
  }

  function Dump(schemas: Schemas, v: Value): Doc
    decreases v, 1
  {
    match v
    case VNone => Null
    case VRaw(doc) => doc
    case VModel(_, values) => if WellMade(schemas, v) then Dict(DumpFirst(schemas, v, |values|)) else Null
    case VList(items) => Items(seq(|items|, i requires 0 <= i < |items| => Dump(schemas, items[i])))
    case VMap(entries) => Dict(map key | key in entries :: Dump(schemas, entries[key]))
  }

  function DumpFirst(schemas: Schemas, v: Value, n: nat): map<string, Doc>
    requires WellMade(schemas, v) && n <= |v.values|
    decreases v, 0, n
  {
    if n == 0 then map[]
    else DumpFirst(schemas, v, n - 1)[schemas[v.name][n - 1].key := Dump(schemas, v.values[n - 1])]
  }

  // ---------------------------------------------------------------- pruning

  predicate IsEmpty(d: Doc) {
    d == Dict(map[]) || d == Items([])
  }

  /** `_prune`: without looking at any model. */
  function PruneDoc(d: Doc): Doc {
    match d
    case Dict(fields) =>
      Dict(map key | key in fields && !fields[key].Null? && !IsEmpty(PruneDoc(fields[key])) :: PruneDoc(fields[key]))
    case Items(items) => Items(seq(|items|, i requires 0 <= i < |items| => PruneDoc(items[i])))
    case _ => d
  }

  predicate DefaultIsEmptyContainer(field: Field) {
    field.default == Some(VList([])) || field.default == Some(VMap(map[]))
  }

  /** Whether a field is left out. Default-aware pruning keeps an empty container that
      the field would not come back as; the other kind drops every one. */
  predicate Dropped(schemas: Schemas, aware: bool, field: Field, v: Value)
    decreases v, 2
  {
    v.VNone? || (IsEmpty(Prune(schemas, aware, v)) && (!aware || DefaultIsEmptyContainer(field)))
  }

  predicate DroppedEntry(schemas: Schemas, v: Value)
    decreases v, 2
  {
    v.VNone? || IsEmpty(Prune(schemas, false, v))
  }

  /** `_prune_value` on a value and its dump. Below a free-form mapping no defaults are
      known any more. */
  function Prune(schemas: Schemas, aware: bool, v: Value): Doc
    decreases v, 1
  {
    match v
    case VNone => Null
    case VRaw(doc) => PruneDoc(doc)
    case VModel(_, values) => if WellMade(schemas, v) then Dict(PruneFirst(schemas, aware, v, |values|)) else Null
    case VList(items) => Items(seq(|items|, i requires 0 <= i < |items| => Prune(schemas, aware, items[i])))
    case VMap(entries) =>
      Dict(map key | key in entries && !DroppedEntry(schemas, entries[key]) :: Prune(schemas, false, entries[key]))
  }

  function PruneFirst(schemas: Schemas, aware: bool, v: Value, n: nat): map<string, Doc>
    requires WellMade(schemas, v) && n <= |v.values|
    decreases v, 0, n
  {
    if n == 0 then map[]
    else
      var before, field := PruneFirst(schemas, aware, v, n - 1), schemas[v.name][n - 1];
      if Dropped(schemas, aware, field, v.values[n - 1]) then before
      else before[field.key := Prune(schemas, aware, v.values[n - 1])]
  }

  /** `_prune_model`: the kept fields, collected in a loop. */
  method PruneModel(schemas: Schemas, v: Value) returns (out: map<string, Doc>)
    requires WellMade(schemas, v)
    ensures Dict(out) == Prune(schemas, true, v)
  {
    var fields := schemas[v.name];
    out := map[];
    for i := 0 to |fields|
      invariant out == PruneFirst(schemas, true, v, i)
    {
      if v.values[i].VNone? {
        continue;
      }
      var value := Prune(schemas, true, v.values[i]);
      if IsEmpty(value) && DefaultIsEmptyContainer(fields[i]) {
        continue;
      }
      out := out[fields[i].key := value];
    }
  }

  // ---------------------------------------------------------------- loading

  function Load(schemas: Schemas, t: Type, d: Doc): Option<Value>
    decreases d, 1, t
  {
    match t
    case TRaw => if d.Null? then None else Some(VRaw(d))
    case TOption(of) => if d.Null? then Some(VNone) else Load(schemas, of, d)
    case TModel(name) => LoadModel(schemas, name, d)
    case TTagged(key, classes) =>
      var tag := Get(d, key);
      if tag.Text? && tag.text in classes then LoadModel(schemas, classes[tag.text], d) else None
    case TList(of) =>
      if d.Items? && forall i | 0 <= i < |d.items| :: Load(schemas, of, d.items[i]).Some? then
        Some(VList(seq(|d.items|, i requires 0 <= i < |d.items| => Load(schemas, of, d.items[i]).value)))
      else None
    case TMap(of) =>
      if d.Dict? && forall key | key in d.fields :: Load(schemas, of, d.fields[key]).Some? then
        Some(VMap(map key | key in d.fields :: Load(schemas, of, d.fields[key]).value))
      else None
  }

  /** A mapping with no unknown keys, missing ones taken from their defaults. */
  function LoadModel(schemas: Schemas, name: string, d: Doc): Option<Value>
    decreases d, 0, 1
  {
    if name in schemas && d.Dict?
       && forall key | key in d.fields :: exists i :: 0 <= i < |schemas[name]| && schemas[name][i].key == key then
      var loaded := LoadFields(schemas, schemas[name], d);
      if loaded.Some? then Some(VModel(name, loaded.value)) else None
    else None
  }

  function LoadField(schemas: Schemas, field: Field, d: Doc): Option<Value>
    requires d.Dict?
    decreases d, 0, 0, 0
  {
    if field.key in d.fields then Load(schemas, field.of, d.fields[field.key]) else field.default
  }

  function LoadFields(schemas: Schemas, fields: seq<Field>, d: Doc): (r: Option<seq<Value>>)
    requires d.Dict?
    ensures r.Some? ==> |r.value| == |fields|
                        && forall i | 0 <= i < |fields| :: LoadField(schemas, fields[i], d) == Some(r.value[i])
    ensures r.None? ==> exists i :: 0 <= i < |fields| && LoadField(schemas, fields[i], d).None?
    decreases d, 0, 0, |fields| + 1
  {
    if fields == [] then Some([])
    else
      var n := |fields| - 1;
      var before, last := LoadFields(schemas, fields[..n], d), LoadField(schemas, fields[n], d);
      if before.None? || last.None? then None else Some(before.value + [last.value])
  }

  // ---------------------------------------------------------------- what pruning costs

  /** Everything left out would come back as it was. */
  ghost predicate Survives(schemas: Schemas, aware: bool, v: Value)
    decreases v
  {
    match v
    case VNone => true
    case VRaw(doc) => PruneDoc(doc) == doc
    case VModel(_, values) =>
      WellMade(schemas, v) ==>
        forall i | 0 <= i < |values| ::
          if Dropped(schemas, aware, schemas[v.name][i], values[i]) then schemas[v.name][i].default == Some(values[i])
          else Survives(schemas, aware, values[i])
    case VList(items) => forall i | 0 <= i < |items| :: Survives(schemas, aware, items[i])
    case VMap(entries) =>
      forall key | key in entries :: !DroppedEntry(schemas, entries[key]) && Survives(schemas, false, entries[key])
  }

  lemma {:induction false} KeptFields(schemas: Schemas, aware: bool, v: Value, n: nat)
    requires DistinctKeys(schemas) && WellMade(schemas, v) && n <= |v.values|
    ensures var out, fields := PruneFirst(schemas, aware, v, n), schemas[v.name];
            && (forall i | 0 <= i < n :: fields[i].key in out <==> !Dropped(schemas, aware, fields[i], v.values[i]))
            && (forall i | 0 <= i < n
                   && fields[i].key in out :: out[fields[i].key] == Prune(schemas, aware, v.values[i]))
            && (forall key | key in out :: exists i :: 0 <= i < n && fields[i].key == key)
  {
    hide Dropped, Prune;
    if n > 0 { KeptFields(schemas, aware, v, n - 1); }
  }

  /** Pruning and loading again gives the same value exactly when everything pruned
      would have come back by itself. */
  lemma {:induction false} RoundTrip(schemas: Schemas, aware: bool, v: Value, t: Type)
    requires DistinctKeys(schemas) && HasType(schemas, v, t)
    ensures Load(schemas, t, Prune(schemas, aware, v)) == Some(v) <==> Survives(schemas, aware, v)
    decreases v, 1, t
  {
    match t
    case TRaw =>
      RawStaysThere(v.doc);
    case TOption(of) =>
      if !v.VNone? {
        RoundTrip(schemas, aware, v, of);
        SomethingIsKept(schemas, aware, v, of);
      }
    case TModel(name) =>
      ModelRoundTrip(schemas, aware, v);
    case TTagged(key, classes) =>
      var tag :| tag in classes && IsTagged(schemas, v, key, tag, classes);
      TagIsKept(schemas, aware, v, key, tag, classes);
      ModelRoundTrip(schemas, aware, v);
    case TList(of) =>
      ListRoundTrip(schemas, aware, v, of);
    case TMap(of) =>
      MapRoundTrip(schemas, aware, v, of);
  }

  lemma RawStaysThere(d: Doc)
    requires !d.Null?
    ensures !PruneDoc(d).Null?
  {
  }

  lemma {:induction false} SomethingIsKept(schemas: Schemas, aware: bool, v: Value, t: Type)
    requires HasType(schemas, v, t) && !v.VNone?
    ensures !Prune(schemas, aware, v).Null?
    decreases t
  {
    hide PruneFirst;
    match t
    case TRaw => RawStaysThere(v.doc);
    case TOption(of) => SomethingIsKept(schemas, aware, v, of);
    case _ =>
  }

  lemma {:induction false} TagIsKept(schemas: Schemas, aware: bool, v: Value, key: string, tag: string,
                                     classes: map<string, string>)
    requires DistinctKeys(schemas) && v.VModel? && FieldsTyped(schemas, v) && IsTagged(schemas, v, key, tag, classes)
    ensures Get(Prune(schemas, aware, v), key) == Text(tag)
  {
    var i :| 0 <= i < |v.values| && schemas[v.name][i].key == key && v.values[i] == VRaw(Text(tag));
    KeptFields(schemas, aware, v, |v.values|);
    assert Prune(schemas, aware, v.values[i]) == Text(tag);
  }

  lemma {:induction false} ModelRoundTrip(schemas: Schemas, aware: bool, v: Value)
    requires DistinctKeys(schemas) && v.VModel? && FieldsTyped(schemas, v)
    ensures LoadModel(schemas, v.name, Prune(schemas, aware, v)) == Some(v) <==> Survives(schemas, aware, v)
    decreases v, 0
  {
    hide DistinctKeys;
    var fields, d := schemas[v.name], Prune(schemas, aware, v);
    KeptFields(schemas, aware, v, |v.values|);
    forall i | 0 <= i < |fields|
      ensures LoadField(schemas, fields[i], d) == Some(v.values[i]) <==>
                if Dropped(schemas, aware, fields[i], v.values[i]) then fields[i].default == Some(v.values[i])
                else Survives(schemas, aware, v.values[i])
    {
      RoundTrip(schemas, aware, v.values[i], fields[i].of);
    }
    assert d.fields == PruneFirst(schemas, aware, v, |v.values|);
    FieldsAreTheModel(schemas, v, d);
  }

  lemma {:induction false} FieldsAreTheModel(schemas: Schemas, v: Value, d: Doc)
    requires WellMade(schemas, v) && d.Dict?
    requires forall key | key in d.fields :: exists i :: 0 <= i < |v.values| && schemas[v.name][i].key == key
    ensures LoadModel(schemas, v.name, d) == Some(v) <==>
              forall i | 0 <= i < |v.values| :: LoadField(schemas, schemas[v.name][i], d) == Some(v.values[i])
  {
    var fields := schemas[v.name];
    var loaded := LoadFields(schemas, fields, d);
    if forall i | 0 <= i < |v.values| :: LoadField(schemas, fields[i], d) == Some(v.values[i]) {
      assert loaded.Some? && loaded.value == v.values;
    }
  }

  lemma {:induction false} ListRoundTrip(schemas: Schemas, aware: bool, v: Value, of: Type)
    requires DistinctKeys(schemas) && HasType(schemas, v, TList(of))
    ensures Load(schemas, TList(of), Prune(schemas, aware, v)) == Some(v) <==> Survives(schemas, aware, v)
    decreases v, 0
  {
    hide DistinctKeys;
    var d := Prune(schemas, aware, v);
    forall i | 0 <= i < |v.items|
      ensures Load(schemas, of, d.items[i]) == Some(v.items[i]) <==> Survives(schemas, aware, v.items[i])
    {
      RoundTrip(schemas, aware, v.items[i], of);
    }
    var loaded := Load(schemas, TList(of), d);
    if Survives(schemas, aware, v) {
      assert loaded.Some? && loaded.value.items == v.items;
    }
  }

  lemma {:induction false} MapRoundTrip(schemas: Schemas, aware: bool, v: Value, of: Type)
    requires DistinctKeys(schemas) && HasType(schemas, v, TMap(of))
    ensures Load(schemas, TMap(of), Prune(schemas, aware, v)) == Some(v) <==> Survives(schemas, aware, v)
    decreases v, 0
  {
    hide DistinctKeys;
    var d := Prune(schemas, aware, v);
    forall key | key in d.fields
      ensures Load(schemas, of, d.fields[key]) == Some(v.entries[key]) <==> Survives(schemas, false, v.entries[key])
    {
      RoundTrip(schemas, false, v.entries[key], of);
    }
    var loaded := Load(schemas, TMap(of), d);
    if Survives(schemas, aware, v) {
      assert d.fields.Keys == v.entries.Keys;
      assert loaded.Some? && loaded.value.entries == v.entries;
    }
    if loaded == Some(v) {
      assert d.fields.Keys == v.entries.Keys;
    }
  }

  // ---------------------------------------------------------------- dumps

  lemma {:induction false} DumpedFields(schemas: Schemas, v: Value, n: nat)
    requires DistinctKeys(schemas) && WellMade(schemas, v) && n <= |v.values|
    ensures var out, fields := DumpFirst(schemas, v, n), schemas[v.name];
            && (forall i | 0 <= i < n :: fields[i].key in out && out[fields[i].key] == Dump(schemas, v.values[i]))
            && (forall key | key in out :: exists i :: 0 <= i < n && fields[i].key == key)
  {
    hide Dump;
    if n > 0 { DumpedFields(schemas, v, n - 1); }
  }

  lemma {:induction false} OnlyNoneDumpsToNull(schemas: Schemas, v: Value, t: Type)
    requires HasType(schemas, v, t)
    ensures Dump(schemas, v).Null? <==> v.VNone?
    decreases t
  {
    hide DumpFirst;
    match t
    case TOption(of) => if !v.VNone? { OnlyNoneDumpsToNull(schemas, v, of); }
    case _ =>
  }

  /** Where no defaults are known, pruning a value is pruning its dump. */
  lemma {:induction false} BlindPruningIsPlain(schemas: Schemas, v: Value, t: Type)
    requires DistinctKeys(schemas) && HasType(schemas, v, t)
    ensures Prune(schemas, false, v) == PruneDoc(Dump(schemas, v))
    decreases v, 1, t
  {
    match t
    case TRaw =>
    case TOption(of) => if !v.VNone? { BlindPruningIsPlain(schemas, v, of); }
    case TList(of) =>
      forall i | 0 <= i < |v.items| { BlindPruningIsPlain(schemas, v.items[i], of); }
    case TMap(of) =>
      forall key | key in v.entries ensures Prune(schemas, false, v.entries[key]) == PruneDoc(Dump(schemas,
             v.entries[key]))
                                            && (Dump(schemas, v.entries[key]).Null? <==> v.entries[key].VNone?) {
        BlindPruningIsPlain(schemas, v.entries[key], of);
        OnlyNoneDumpsToNull(schemas, v.entries[key], of);
      }
    case _ => BlindFields(schemas, v);
  }

  lemma {:induction false} BlindFields(schemas: Schemas, v: Value)
    requires DistinctKeys(schemas) && v.VModel? && FieldsTyped(schemas, v)
    ensures Prune(schemas, false, v) == PruneDoc(Dump(schemas, v))
    decreases v, 0
  {
    hide DistinctKeys;
    var n, fields := |v.values|, schemas[v.name];
    KeptFields(schemas, false, v, n);
    DumpedFields(schemas, v, n);
    forall i | 0 <= i < n
      ensures Prune(schemas, false, v.values[i]) == PruneDoc(Dump(schemas, v.values[i]))
      ensures Dump(schemas, v.values[i]).Null? <==> v.values[i].VNone?
    {
      BlindPruningIsPlain(schemas, v.values[i], fields[i].of);
      OnlyNoneDumpsToNull(schemas, v.values[i], fields[i].of);
    }
    SameMap(PruneFirst(schemas, false, v, n), DumpFirst(schemas, v, n));
  }

  lemma SameMap(pruned: map<string, Doc>, dumped: map<string, Doc>)
    requires forall key | key in pruned :: key in dumped
    requires forall key | key in dumped ::
               && (key in pruned <==> !dumped[key].Null? && !IsEmpty(PruneDoc(dumped[key])))
               && (key in pruned ==> pruned[key] == PruneDoc(dumped[key]))
    ensures Dict(pruned) == PruneDoc(Dict(dumped))
  {
    hide IsEmpty;
    assert PruneDoc(Dict(dumped)).fields == pruned;
  }

  // ---------------------------------------------------------------- the schema the repository has

  ghost predicate DefaultsFit(schemas: Schemas) {
    forall name, i | name in schemas && 0 <= i < |schemas[name]| :: DefaultFits(schemas, schemas[name][i])
  }

  /** A default is a value of the field, and of an optional field the null. */
  ghost predicate DefaultFits(schemas: Schemas, field: Field) {
    && (field.default.Some? ==> HasType(schemas, field.default.value, field.of))
    && (field.of.TOption? ==> field.default == Some(VNone))
  }

  /** No free-form mapping holds a null or anything empty. */
  ghost predicate NothingEmptyInside(v: Value)
    decreases v
  {
    match v
    case VNone => true
    case VRaw(doc) => PruneDoc(doc) == doc
    case VModel(_, values) => forall i | 0 <= i < |values| :: NothingEmptyInside(values[i])
    case VList(items) => forall i | 0 <= i < |items| :: NothingEmptyInside(items[i])
    case VMap(entries) =>
      forall key | key in entries ::
        entries[key].VRaw? && NothingEmptyInside(entries[key]) && !IsEmpty(entries[key].doc)
  }

  /** Under such a schema every tidy document comes back, explicit empty containers
      and all. */
  lemma {:induction false} TidyDocumentsSurvive(schemas: Schemas, v: Value, t: Type)
    requires DefaultsFit(schemas) && HasType(schemas, v, t) && NothingEmptyInside(v)
    ensures Survives(schemas, true, v)
    decreases v, 1, t
  {
    match t
    case TRaw =>
    case TOption(of) => if !v.VNone? { TidyDocumentsSurvive(schemas, v, of); }
    case TList(of) =>
      forall i | 0 <= i < |v.items| { TidyDocumentsSurvive(schemas, v.items[i], of); }
    case TMap(of) =>
    case _ => TidyFields(schemas, v);
  }

  // a document that is not tidy

  const OUTCOME := "BusinessOutcome"

  /** `domain/result.py`: a code, and whatever data the screen gave. */
  const OUTCOMES: Schemas := map[OUTCOME := [Field("code", TRaw, None), Field("data", TMap(TRaw), Some(VMap(map[])))]]

  function OutcomeWith(code: string, data: map<string, Value>): Value {
    VModel(OUTCOME, [VRaw(Text(code)), VMap(data)])
  }

  function NoRows(): map<string, Value> {
    map["rows" := VRaw(Items([]))]
  }

  lemma NoRowsIsNothing()
    ensures "rows" in NoRows() && Prune(OUTCOMES, true, VMap(NoRows())) == Dict(map[])
    ensures HasType(OUTCOMES, VMap(NoRows()), TMap(TRaw))
  {
    assert Prune(OUTCOMES, false, VRaw(Items([]))) == Items([]);
  }

  lemma OutcomeIsWritten(code: string)
    ensures Prune(OUTCOMES, true, OutcomeWith(code, NoRows())) == Dict(map["code" := Text(code)])
  {
    var said, fields := OutcomeWith(code, NoRows()), OUTCOMES[OUTCOME];
    NoRowsIsNothing();
    hide NoRows;
    assert Prune(OUTCOMES, true, said.values[0]) == Text(code);
    assert !Dropped(OUTCOMES, true, fields[0], said.values[0]) && Dropped(OUTCOMES, true, fields[1], said.values[1]);
    hide Dropped, Prune;
    assert PruneFirst(OUTCOMES, true, said, 0) == map[];
    assert PruneFirst(OUTCOMES, true, said, 1) == map["code" := Text(code)];
    assert PruneFirst(OUTCOMES, true, said, 2) == map["code" := Text(code)];
    assert |said.values| == 2 && WellMade(OUTCOMES, said);
    PruneOf(said);
  }

  lemma PruneOf(v: Value)
    requires WellMade(OUTCOMES, v)
    ensures Prune(OUTCOMES, true, v) == Dict(PruneFirst(OUTCOMES, true, v, |v.values|))
  {
  }

  lemma OutcomeIsRead(code: string)
    ensures Load(OUTCOMES, TModel(OUTCOME), Dict(map["code" := Text(code)])) == Some(OutcomeWith(code, map[]))
  {
    var fields, d := OUTCOMES[OUTCOME], Dict(map["code" := Text(code)]);
    assert fields[1].key[0] != "code"[0];
    assert LoadField(OUTCOMES, fields[0], d) == Some(VRaw(Text(code)));
    assert LoadField(OUTCOMES, fields[1], d) == Some(VMap(map[]));
    var loaded := LoadFields(OUTCOMES, fields, d);
    assert loaded.Some? && loaded.value == [VRaw(Text(code)), VMap(map[])];
    assert forall key | key in d.fields :: fields[0].key == key;
  }

  /** An outcome that says there are no rows is written without its rows, and read back,
      without an error, as one that says nothing about them. */
  lemma AnEmptyAnswerIsReadBackAsNone(code: string)
    ensures var said, read := OutcomeWith(code, NoRows()), OutcomeWith(code, map[]);
            && HasType(OUTCOMES, said, TModel(OUTCOME)) && said != read
            && Prune(OUTCOMES, true, said) == Dict(map["code" := Text(code)])
            && Load(OUTCOMES, TModel(OUTCOME), Prune(OUTCOMES, true, said)) == Some(read)
  {
    NoRowsIsNothing();
    var said := OutcomeWith(code, NoRows());
    assert HasType(OUTCOMES, said.values[0], TRaw) && HasType(OUTCOMES, said.values[1], TMap(TRaw));
    hide NoRows, Prune, Load;
    assert FieldsTyped(OUTCOMES, said) && HasType(OUTCOMES, said, TModel(OUTCOME));
    OutcomeIsWritten(code);
    OutcomeIsRead(code);
    var none: map<string, Value> := map[];
    assert "rows" !in none;
  }

  lemma {:induction false} TidyFields(schemas: Schemas, v: Value)
    requires DefaultsFit(schemas) && v.VModel? && FieldsTyped(schemas, v) && NothingEmptyInside(v)
    ensures Survives(schemas, true, v)
    decreases v, 0
  {
    var fields := schemas[v.name];
    forall i | 0 <= i < |fields|
      ensures if Dropped(schemas, true, fields[i], v.values[i]) then fields[i].default == Some(v.values[i])
              else Survives(schemas, true, v.values[i])
    {
      assert DefaultFits(schemas, fields[i]);
      if Dropped(schemas, true, fields[i], v.values[i]) { DroppedIsDefault(schemas, fields[i], v.values[i]); }
      TidyDocumentsSurvive(schemas, v.values[i], fields[i].of);
    }
  }

  lemma {:induction false} DroppedIsDefault(schemas: Schemas, field: Field, v: Value)
    requires DefaultFits(schemas, field) && HasType(schemas, v, field.of) && NothingEmptyInside(v)
    requires Dropped(schemas, true, field, v)
    ensures field.default == Some(v)
  {
    if field.of.TMap? {
      forall key | key in v.entries ensures !DroppedEntry(schemas, v.entries[key]) {
        assert Prune(schemas, false, v.entries[key]) == v.entries[key].doc;
      }
      assert Prune(schemas, true, v).fields.Keys == v.entries.Keys;
    }
  }

  // ---------------------------------------------------------------- sealed capabilities

  const CAPABILITY := "Capability"

  /** The capability's model ends in its content hash. */
  ghost predicate SealsLast(schemas: Schemas) {
    && CAPABILITY in schemas && schemas[CAPABILITY] != []
    && schemas[CAPABILITY][|schemas[CAPABILITY]| - 1] == Field("content_hash", TRaw, Some(VRaw(Text(""))))
  }

  predicate IsCapability(schemas: Schemas, v: Value) {
    v.VModel? && v.name == CAPABILITY && WellMade(schemas, v) && v.values != []
  }

  function ContentHash(schemas: Schemas, v: Value): string
    requires IsCapability(schemas, v)
  {
    var last := v.values[|v.values| - 1];
    if last.VRaw? && last.doc.Text? then last.doc.text else ""
  }

  /** The hash of everything but the hash. */
  function ComputeHash(schemas: Schemas, hash: Doc -> string, v: Value): string
    requires IsCapability(schemas, v)
  {
    hash(Dict(DumpFirst(schemas, v, |v.values| - 1)))
  }

  function WithHash(schemas: Schemas, hash: Doc -> string, v: Value): (sealed: Value)
    requires IsCapability(schemas, v)
    ensures IsCapability(schemas, sealed) && ContentHash(schemas, sealed) == ComputeHash(schemas, hash, v)
  {
    VModel(v.name, v.values[..|v.values| - 1] + [VRaw(Text(ComputeHash(schemas, hash, v)))])
  }

  datatype LoadError = DoesNotValidate | Tampered

  function DumpCapability(schemas: Schemas, hash: Doc -> string, v: Value): Doc
    requires IsCapability(schemas, v)
  {
    Prune(schemas, true, WithHash(schemas, hash, v))
  }

  function LoadCapability(schemas: Schemas, hash: Doc -> string, d: Doc): Result<Value, LoadError> {
    var loaded := Load(schemas, TModel(CAPABILITY), d);
    if loaded.None? || !IsCapability(schemas, loaded.value) then Err(DoesNotValidate)
    else if ContentHash(schemas, loaded.value) != ""
            && ContentHash(schemas, loaded.value) != ComputeHash(schemas, hash, loaded.value) then Err(Tampered)
    else Ok(loaded.value)
  }

  lemma {:induction false} FrontDumpsAlike(schemas: Schemas, v: Value, w: Value, n: nat)
    requires WellMade(schemas, v) && WellMade(schemas, w) && v.name == w.name && n <= |v.values|
    requires forall i | 0 <= i < n :: v.values[i] == w.values[i]
    ensures DumpFirst(schemas, v, n) == DumpFirst(schemas, w, n)
  {
    hide Dump;
    if n > 0 { FrontDumpsAlike(schemas, v, w, n - 1); }
  }

  lemma SealingIsStable(schemas: Schemas, hash: Doc -> string, v: Value)
    requires IsCapability(schemas, v)
    ensures var sealed := WithHash(schemas, hash, v); ComputeHash(schemas, hash, sealed) == ContentHash(schemas, sealed)
  {
    hide DumpFirst;
    FrontDumpsAlike(schemas, v, WithHash(schemas, hash, v), |v.values| - 1);
  }

  // ---------------------------------------------------------------- a dump tells its value

  /** Of values of one type, no two have the same dump. */
  lemma {:induction false} DumpsTell(schemas: Schemas, v: Value, w: Value, t: Type)
    requires DistinctKeys(schemas) && HasType(schemas, v, t) && HasType(schemas, w, t)
    requires Dump(schemas, v) == Dump(schemas, w)
    ensures v == w
    decreases v, 1, t
  {
    match t
    case TRaw =>
    case TOption(of) =>
      OnlyNoneDumpsToNull(schemas, v, t);
      OnlyNoneDumpsToNull(schemas, w, t);
      if !v.VNone? { DumpsTell(schemas, v, w, of); }
    case TModel(name) => ModelDumpsTell(schemas, v, w, |v.values|);
    case TTagged(key, classes) =>
      SameClass(schemas, v, w, key, classes);
      ModelDumpsTell(schemas, v, w, |v.values|);
    case TList(of) => ListDumpsTell(schemas, v, w, of);
    case TMap(of) => MapDumpsTell(schemas, v, w, of);
  }

  lemma {:induction false} ListDumpsTell(schemas: Schemas, v: Value, w: Value, of: Type)
    requires DistinctKeys(schemas) && HasType(schemas, v, TList(of)) && HasType(schemas, w, TList(of))
    requires Dump(schemas, v) == Dump(schemas, w)
    ensures v == w
    decreases v, 0
  {
    hide DistinctKeys;
    var d, e := Dump(schemas, v), Dump(schemas, w);
    forall i | 0 <= i < |v.items| ensures v.items[i] == w.items[i] {
      assert d.items[i] == e.items[i];
      DumpsTell(schemas, v.items[i], w.items[i], of);
    }
    assert v.items == w.items;
  }

  lemma {:induction false} MapDumpsTell(schemas: Schemas, v: Value, w: Value, of: Type)
    requires DistinctKeys(schemas) && HasType(schemas, v, TMap(of)) && HasType(schemas, w, TMap(of))
    requires Dump(schemas, v) == Dump(schemas, w)
    ensures v == w
    decreases v, 0
  {
    hide DistinctKeys;
    var d, e := Dump(schemas, v), Dump(schemas, w);
    assert v.entries.Keys == d.fields.Keys && e.fields.Keys == w.entries.Keys;
    forall key | key in v.entries ensures v.entries[key] == w.entries[key] {
      assert d.fields[key] == e.fields[key];
      DumpsTell(schemas, v.entries[key], w.entries[key], of);
    }
    assert v.entries == w.entries;
  }

  lemma SameClass(schemas: Schemas, v: Value, w: Value, key: string, classes: map<string, string>)
    requires DistinctKeys(schemas) && HasType(schemas, v, TTagged(key, classes))
             && HasType(schemas, w, TTagged(key, classes))
    requires Dump(schemas, v) == Dump(schemas, w)
    ensures v.name == w.name
  {
    hide DistinctKeys, Dump;
    var tag :| tag in classes && IsTagged(schemas, v, key, tag, classes);
    var other :| other in classes && IsTagged(schemas, w, key, other, classes);
    TagIsDumped(schemas, v, key, tag, classes);
    TagIsDumped(schemas, w, key, other, classes);
  }

  lemma TagIsDumped(schemas: Schemas, v: Value, key: string, tag: string, classes: map<string, string>)
    requires DistinctKeys(schemas) && v.VModel? && FieldsTyped(schemas, v) && IsTagged(schemas, v, key, tag, classes)
    ensures Get(Dump(schemas, v), key) == Text(tag)
  {
    var i :| 0 <= i < |v.values| && schemas[v.name][i].key == key && v.values[i] == VRaw(Text(tag));
    DumpedFields(schemas, v, |v.values|);
  }

  lemma {:induction false} ModelDumpsTell(schemas: Schemas, v: Value, w: Value, n: nat)
    requires DistinctKeys(schemas) && v.VModel? && w.VModel? && FieldsTyped(schemas, v) && FieldsTyped(schemas, w)
    requires v.name == w.name && n <= |v.values| && DumpFirst(schemas, v, n) == DumpFirst(schemas, w, n)
    ensures v.values[..n] == w.values[..n]
    decreases v, 0
  {
    hide DistinctKeys;
    DumpedFields(schemas, v, n);
    DumpedFields(schemas, w, n);
    forall i | 0 <= i < n ensures v.values[i] == w.values[i] {
      DumpsTell(schemas, v.values[i], w.values[i], schemas[v.name][i].of);
    }
  }

  /** The classes of a union carry the field that tells them apart. */
  ghost predicate TypeFits(schemas: Schemas, t: Type)
    decreases t
  {
    match t
    case TTagged(key, classes) =>
      forall tag | tag in classes ::
        && classes[tag] in schemas
        && exists i :: 0 <= i < |schemas[classes[tag]]| && TagField(schemas[classes[tag]][i], key)
    case TOption(of) => TypeFits(schemas, of)
    case TList(of) => TypeFits(schemas, of)
    case TMap(of) => TypeFits(schemas, of)
    case _ => true
  }

  predicate TagField(field: Field, key: string) {
    field.key == key && field.of == TRaw
  }

  ghost predicate TypesFit(schemas: Schemas) {
    forall name, i | name in schemas && 0 <= i < |schemas[name]| :: TypeFits(schemas, schemas[name][i].of)
  }

  /** What loads has the type it was loaded at. */
  lemma {:induction false} LoadedIsTyped(schemas: Schemas, t: Type, d: Doc)
    requires DefaultsFit(schemas) && TypesFit(schemas) && TypeFits(schemas, t) && Load(schemas, t, d).Some?
    ensures HasType(schemas, Load(schemas, t, d).value, t)
    decreases d, 1, t
  {
    match t
    case TRaw =>
    case TOption(of) => if !d.Null? { LoadedIsTyped(schemas, of, d); }
    case TModel(name) => LoadedFieldsAreTyped(schemas, name, d);
    case TTagged(key, classes) =>
      var tag := Get(d, key).text;
      LoadedFieldsAreTyped(schemas, classes[tag], d);
      var v, fields := Load(schemas, t, d).value, schemas[classes[tag]];
      var i :| 0 <= i < |fields| && TagField(fields[i], key);
      assert LoadField(schemas, fields[i], d) == Some(v.values[i]);
      assert Load(schemas, TRaw, Text(tag)) == Some(VRaw(Text(tag)));
      assert v.values[i] == VRaw(Text(tag));
      assert IsTagged(schemas, v, key, tag, classes);
    case TList(of) =>
      forall i | 0 <= i < |d.items| { LoadedIsTyped(schemas, of, d.items[i]); }
    case TMap(of) =>
      forall key | key in d.fields { LoadedIsTyped(schemas, of, d.fields[key]); }
  }

  lemma {:induction false} LoadedFieldsAreTyped(schemas: Schemas, name: string, d: Doc)
    requires DefaultsFit(schemas) && TypesFit(schemas) && LoadModel(schemas, name, d).Some?
    ensures var v := LoadModel(schemas, name, d).value; v.VModel? && v.name == name && FieldsTyped(schemas, v)
    decreases d, 0
  {
    var v, fields := LoadModel(schemas, name, d).value, schemas[name];
    forall i | 0 <= i < |fields| ensures HasType(schemas, v.values[i], fields[i].of) {
      assert LoadField(schemas, fields[i], d) == Some(v.values[i]);
      assert DefaultFits(schemas, fields[i]) && TypeFits(schemas, fields[i].of);
      if fields[i].key in d.fields { LoadedIsTyped(schemas, fields[i].of, d.fields[fields[i].key]); }
    }
  }

  // ---------------------------------------------------------------- what a dump is worth

  ghost predicate Injective(hash: Doc -> string) {
    && (forall a, b :: hash(a) == hash(b) ==> a == b)
    && forall a :: hash(a) != ""
  }

  /** A dumped capability reloads, its hash valid, exactly when nothing was lost in
      pruning; when something was, loading refuses it rather than run something else. */
  lemma {:induction false} DumpedCapabilitiesReload(schemas: Schemas, hash: Doc -> string, v: Value)
    requires DistinctKeys(schemas) && DefaultsFit(schemas) && TypesFit(schemas) && SealsLast(schemas) && Injective(hash)
    requires IsCapability(schemas, v) && HasType(schemas, v, TModel(CAPABILITY))
    ensures var sealed, r := WithHash(schemas, hash, v), LoadCapability(schemas, hash, DumpCapability(schemas, hash,
           v));
            && (r == Ok(sealed) <==> Survives(schemas, true, sealed))
            && (r.Ok? ==> r.value == sealed)
            && ContentHash(schemas, sealed) == ComputeHash(schemas, hash, sealed)
  {
    hide DistinctKeys, DefaultsFit, TypesFit, SealsLast, Prune, Load, Survives, HasType, ComputeHash, WithHash;
    var sealed := WithHash(schemas, hash, v);
    SealingIsStable(schemas, hash, v);
    SealedIsTyped(schemas, hash, v);
    RoundTrip(schemas, true, sealed, TModel(CAPABILITY));
    var loaded := Load(schemas, TModel(CAPABILITY), Prune(schemas, true, sealed));
    if loaded.Some? {
      assert TypeFits(schemas, TModel(CAPABILITY));
      LoadedIsTyped(schemas, TModel(CAPABILITY), Prune(schemas, true, sealed));
      HashIsKept(schemas, hash, v);
      if IsCapability(schemas, loaded.value) {
        SameHashSameCapability(schemas, hash, loaded.value, sealed);
      }
    }
  }

  lemma SealedIsTyped(schemas: Schemas, hash: Doc -> string, v: Value)
    requires SealsLast(schemas) && IsCapability(schemas, v) && HasType(schemas, v, TModel(CAPABILITY))
    ensures HasType(schemas, WithHash(schemas, hash, v), TModel(CAPABILITY))
  {
    hide ComputeHash;
    var sealed := WithHash(schemas, hash, v);
    var n := |v.values| - 1;
    assert forall i | 0 <= i < n :: sealed.values[i] == v.values[i];
    assert HasType(schemas, sealed.values[n], TRaw) && schemas[CAPABILITY][n].of == TRaw;
  }

  /** The hash itself is written, never empty, and read back. */
  lemma {:induction false} HashIsKept(schemas: Schemas, hash: Doc -> string, v: Value)
    requires DistinctKeys(schemas) && SealsLast(schemas) && Injective(hash) && IsCapability(schemas, v)
    requires Load(schemas, TModel(CAPABILITY), Prune(schemas, true, WithHash(schemas, hash, v))).Some?
    ensures var sealed := WithHash(schemas, hash, v);
            var loaded := Load(schemas, TModel(CAPABILITY), Prune(schemas, true, sealed)).value;
            IsCapability(schemas, loaded) && ContentHash(schemas, loaded) == ContentHash(schemas, sealed) != ""
  {
    hide DistinctKeys;
    var sealed, fields := WithHash(schemas, hash, v), schemas[CAPABILITY];
    var d, n := Prune(schemas, true, sealed), |fields| - 1;
    KeptFields(schemas, true, sealed, n + 1);
    var loaded := LoadModel(schemas, CAPABILITY, d).value;
    assert sealed.values[n] == VRaw(Text(ComputeHash(schemas, hash, v)));
    assert Prune(schemas, true, sealed.values[n]) == sealed.values[n].doc;
    assert Load(schemas, TRaw, sealed.values[n].doc) == Some(sealed.values[n]);
    assert LoadField(schemas, fields[n], d) == Some(loaded.values[n]);
  }

  lemma {:induction false} SameHashSameCapability(schemas: Schemas, hash: Doc -> string, a: Value, b: Value)
    requires DistinctKeys(schemas) && SealsLast(schemas) && Injective(hash)
    requires IsCapability(schemas, a) && IsCapability(schemas, b)
    requires HasType(schemas, a, TModel(CAPABILITY)) && HasType(schemas, b, TModel(CAPABILITY))
    requires ContentHash(schemas, a) == ContentHash(schemas, b) != ""
    ensures ComputeHash(schemas, hash, a) == ComputeHash(schemas, hash, b) ==> a == b
  {
    hide DistinctKeys, DumpFirst;
    var n := |a.values| - 1;
    if ComputeHash(schemas, hash, a) == ComputeHash(schemas, hash, b) {
      assert Dict(DumpFirst(schemas, a, n)) == Dict(DumpFirst(schemas, b, n));
      ModelDumpsTell(schemas, a, b, n);
      assert a.values == a.values[..n] + [a.values[n]] && b.values == b.values[..n] + [b.values[n]];
    }
  }
}

/** What is written and what is read, field by field. */
module SerdeLaws {
  import opened Outcomes
  import opened Documents
  import opened Serde

  // ---------------------------------------------------------------- pruning a document

  /** Nothing is said here: null, an empty list, or a mapping of nothing but such. */
  ghost predicate Vacant(d: Doc)
    decreases d
  {
    match d
    case Null => true
    case Items(items) => items == []
    case Dict(fields) => forall key | key in fields :: Vacant(fields[key])
    case _ => false
  }

  /** No mapping in it holds a null or an empty container. */
  ghost predicate Tidy(d: Doc)
    decreases d
  {
    match d
    case Items(items) => forall i | 0 <= i < |items| :: Tidy(items[i])
    case Dict(fields) =>
      forall key | key in fields ::
        !fields[key].Null? && fields[key] != Dict(map[]) && fields[key] != Items([]) && Tidy(fields[key])
    case _ => true
  }

  /** `r` is `d` but for entries of mappings that say nothing. */
  ghost predicate Keeps(d: Doc, r: Doc)
    decreases d
  {
    match d
    case Items(items) =>
      r.Items? && |r.items| == |items| && forall i | 0 <= i < |items| :: Keeps(items[i], r.items[i])
    case Dict(fields) =>
      && r.Dict? && r.fields.Keys <= fields.Keys
      && forall key | key in fields ::
           if key in r.fields then Keeps(fields[key], r.fields[key]) else Vacant(fields[key])
    case _ => r == d
  }

  lemma {:induction false} VacantIsPrunedAway(d: Doc)
    ensures Vacant(d) <==> d.Null? || IsEmpty(PruneDoc(d))
    decreases d
  {
    if d.Dict? {
      forall key | key in d.fields { VacantIsPrunedAway(d.fields[key]); }
      var r := PruneDoc(d);
      if Vacant(d) {
        assert r.fields == map[];
      } else {
        var key :| key in d.fields && !Vacant(d.fields[key]);
        assert key in r.fields;
      }
    }
  }

  /** Pruning leaves a tidy document that says all the given one said, and there is only
      one such. */
  lemma {:induction false} PruningTidies(d: Doc, r: Doc)
    ensures r == PruneDoc(d) <==> Keeps(d, r) && Tidy(r)
    decreases d
  {
    match d
    case Items(items) =>
      if r.Items? && |r.items| == |items| {
        forall i | 0 <= i < |items| { PruningTidies(items[i], r.items[i]); }
        if Keeps(d, r) && Tidy(r) { assert r.items == PruneDoc(d).items; }
      }
    case Dict(fields) =>
      forall key | key in fields { VacantIsPrunedAway(fields[key]); }
      if r.Dict? && r.fields.Keys <= fields.Keys {
        forall key | key in r.fields { PruningTidies(fields[key], r.fields[key]); }
        if Keeps(d, r) && Tidy(r) { SameEntries(d, r); }
      }
    case _ =>
  }

  lemma {:induction false} SameEntries(d: Doc, r: Doc)
    requires d.Dict? && r.Dict? && Keeps(d, r) && Tidy(r)
    requires forall key | key in d.fields ::
               Vacant(d.fields[key]) <==> d.fields[key].Null? || IsEmpty(PruneDoc(d.fields[key]))
    requires forall key | key in r.fields :: key in d.fields && r.fields[key] == PruneDoc(d.fields[key])
    ensures r == PruneDoc(d)
  {
    var pruned := PruneDoc(d).fields;
    forall key | key in d.fields ensures key in r.fields <==> key in pruned {
      if key in r.fields {
        assert !IsEmpty(r.fields[key]) && !r.fields[key].Null?;
      }
    }
    assert r.fields == pruned;
  }

  // ---------------------------------------------------------------- writing a model

  /** The field is left out: it is null, or comes out empty and either nothing is known of
      defaults or its default is an empty list or mapping. */
  ghost predicate LeftOut(aware: bool, default: Option<Value>, v: Value, written: Doc) {
    || v.VNone?
    || ((written == Dict(map[]) || written == Items([]))
        && (!aware || default == Some(VList([])) || default == Some(VMap(map[]))))
  }

  /** A model is written as one entry for each field that is not left out. */
  lemma {:induction false} AModelIsWrittenFieldByField(schemas: Schemas, aware: bool, v: Value)
    requires DistinctKeys(schemas) && v.VModel? && FieldsTyped(schemas, v)
    ensures var fields, d := schemas[v.name], Prune(schemas, aware, v);
            && d.Dict?
            && (forall key | key in d.fields :: exists i :: 0 <= i < |fields| && fields[i].key == key)
            && forall i | 0 <= i < |fields| ::
                 var written := Prune(schemas, aware, v.values[i]);
                 && (fields[i].key in d.fields <==> !LeftOut(aware, fields[i].default, v.values[i], written))
                 && (fields[i].key in d.fields ==> d.fields[fields[i].key] == written)
  {
    KeptFields(schemas, aware, v, |v.values|);
    hide PruneFirst, DistinctKeys;
    var fields := schemas[v.name];
    forall i | 0 <= i < |fields|
      ensures Dropped(schemas, aware, fields[i], v.values[i]) <==>
                LeftOut(aware, fields[i].default, v.values[i], Prune(schemas, aware, v.values[i]))
    {
    }
  }

  /** The rest is written part by part: a mapping loses what it says nothing of, and
      below it nothing is known of defaults. */
  lemma {:induction false} TheRestIsWrittenPartByPart(schemas: Schemas, aware: bool, v: Value)
    ensures var d := Prune(schemas, aware, v);
            match v
            case VNone => d == Null
            case VRaw(doc) => Keeps(doc, d) && Tidy(d)
            case VModel(_, _) => true
            case VList(items) =>
              d.Items? && |d.items| == |items|
              && forall i | 0 <= i < |items| :: d.items[i] == Prune(schemas, aware, items[i])
            case VMap(entries) =>
              && d.Dict? && d.fields.Keys <= entries.Keys
              && forall key | key in entries ::
                   var written := Prune(schemas, false, entries[key]);
                   && (key in d.fields <==> !LeftOut(false, None, entries[key], written))
                   && (key in d.fields ==> d.fields[key] == written)
  {
    if v.VRaw? { PruningTidies(v.doc, PruneDoc(v.doc)); }
  }

  // ---------------------------------------------------------------- reading a model

  /** A model is read from a mapping all of whose keys it knows: each field from its own
      entry, or, where there is none, from its default. */
  lemma {:induction false} AModelIsReadFieldByField(schemas: Schemas, name: string, d: Doc, v: Value)
    ensures Load(schemas, TModel(name), d) == Some(v) <==>
              && name in schemas && d.Dict?
              && (forall key | key in d.fields :: exists i :: 0 <= i < |schemas[name]| && schemas[name][i].key == key)
              && v.VModel? && v.name == name && |v.values| == |schemas[name]|
              && forall i | 0 <= i < |schemas[name]| ::
                   var field := schemas[name][i];
                   (if field.key in d.fields then Load(schemas, field.of, d.fields[field.key]) else field.default)
                   == Some(v.values[i])
  {
    if name in schemas && d.Dict?
       && forall key | key in d.fields :: exists i :: 0 <= i < |schemas[name]| && schemas[name][i].key == key {
      var fields := schemas[name];
      var loaded := LoadFields(schemas, fields, d);
      assert forall i | 0 <= i < |fields| ::
          LoadField(schemas, fields[i], d)
          == if fields[i].key in d.fields then Load(schemas, fields[i].of, d.fields[fields[i].key])
             else fields[i].default;
      if v.VModel? && v.name == name && |v.values| == |fields| {
        FieldsAreTheModel(schemas, v, d);
      }
    }
  }

  /** Lists and mappings are read entry by entry, an optional value may be null, and of a
      union the class its tag names is read. */
  lemma {:induction false} TheRestIsReadPartByPart(schemas: Schemas, t: Type, d: Doc, v: Value)
    ensures var loads := Load(schemas, t, d) == Some(v);
            match t
            case TRaw => loads <==> !d.Null? && v == VRaw(d)
            case TOption(of) => loads <==> if d.Null? then v == VNone else Load(schemas, of, d) == Some(v)
            case TModel(_) => true
            case TTagged(key, classes) =>
              loads <==>
                && d.Dict? && key in d.fields && d.fields[key].Text? && d.fields[key].text in classes
                && Load(schemas, TModel(classes[d.fields[key].text]), d) == Some(v)
            case TList(of) =>
              loads <==>
                && d.Items? && v.VList? && |v.items| == |d.items|
                && forall i | 0 <= i < |d.items| :: Load(schemas, of, d.items[i]) == Some(v.items[i])
            case TMap(of) =>
              loads <==>
                && d.Dict? && v.VMap? && v.entries.Keys == d.fields.Keys
                && forall key | key in d.fields :: Load(schemas, of, d.fields[key]) == Some(v.entries[key])
  {
    match t
    case TList(of) =>
      if d.Items? && v.VList? && |v.items| == |d.items|
         && (forall i | 0 <= i < |d.items| :: Load(schemas, of, d.items[i]) == Some(v.items[i])) {
        assert Load(schemas, t, d).Some? && Load(schemas, t, d).value.items == v.items;
      }
    case TMap(of) =>
      if d.Dict? && v.VMap? && v.entries.Keys == d.fields.Keys
         && (forall key | key in d.fields :: Load(schemas, of, d.fields[key]) == Some(v.entries[key])) {
        assert Load(schemas, t, d).Some? && Load(schemas, t, d).value.entries == v.entries;
      }
    case _ =>
  }
}

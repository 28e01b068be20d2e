/** Which strings of a JSON value are references, told by where they stand. */
module ReferencePaths {
  import opened Prelude
  import opened Records
  import opened Provenance

  datatype Step = Field(name: string) | Item(position: nat)

  /** What stands at the end of a path. */
  function At(value: Json, path: seq<Step>): Option<Json> {
    if path == [] then Some(value)
    else match (path[0], value)
      case (Field(name), Obj(fields)) => if name in fields then At(fields[name], path[1..]) else None
      case (Item(i), Arr(items)) => if i < |items| then At(items[i], path[1..]) else None
      case _ => None
  }

  /** The nearest key above the end of a path. */
  function KeyAbove(path: seq<Step>, outer: Option<string>): Option<string> {
    if path == [] then outer else KeyAbove(path[1..], Below(path[0], outer))
  }

  function Below(step: Step, outer: Option<string>): Option<string> { if step.Field? then Some(step.name) else outer }

  predicate IsReferenceKey(key: Option<string>) {
    match key
    case None => false
    case Some(k) =>
      k == "sourceRecordIds" || k == "source_record_ids" || k == "sourceIds" || k == "source_ids" ||
      k == "parentRecordId" || k == "parent_record_id" || k == "derivedFrom" || k == "derived_from" ||
      k == "provenance" || k == "relatedRecordIds" || k == "related_record_ids"
  }

  /** A string stands under a reference key when the nearest key above it is one, or when it is
      the value of a key in an object that stands under one. */
  predicate Refers(path: seq<Step>, outer: Option<string>) {
    || IsReferenceKey(KeyAbove(path, outer))
    || (path != [] && path[|path| - 1].Field? && IsReferenceKey(KeyAbove(path[..|path| - 1], outer)))
  }

  predicate RefersAt(value: Json, path: seq<Step>, outer: Option<string>, s: string) {
    s != "" && At(value, path) == Some(Str(s)) && Refers(path, outer)
  }

  ghost predicate Cites(value: Json, outer: Option<string>, s: string) {
    exists path :: RefersAt(value, path, outer, s)
  }

  lemma KeysSpelled(key: string)
    ensures key in REFERENCE_KEYS <==> IsReferenceKey(Some(key))
  {
  }

  /** One step further in. */
  lemma RefersBelow(step: Step, rest: seq<Step>, outer: Option<string>)
    requires rest != []
    ensures Refers([step] + rest, outer) <==> Refers(rest, Below(step, outer))
  {
    var path := [step] + rest;
    assert path[1..] == rest && path[..|path| - 1] == [step] + rest[..|rest| - 1];
    assert ([step] + rest[..|rest| - 1])[1..] == rest[..|rest| - 1];
  }

  lemma RefersOne(step: Step, outer: Option<string>)
    ensures Refers([step], outer) <==>
      IsReferenceKey(Below(step, outer)) || (step.Field? && IsReferenceKey(outer))
  {
    assert [step][1..] == [] && [step][..0] == [];
    assert KeyAbove([step], outer) == KeyAbove([], Below(step, outer)) == Below(step, outer);
    assert KeyAbove([], outer) == outer;
  }

  lemma AtBelow(value: Json, step: Step, rest: seq<Step>)
    ensures At(value, [step] + rest)
         == match At(value, [step]) { case None => None case Some(inner) => At(inner, rest) }
  {
    assert ([step] + rest)[1..] == rest && [step][1..] == [];
    assert forall inner :: At(inner, []) == Some(inner);
  }

  /** What an inner value cites, the outer value cites. */
  lemma CitedBelow(value: Json, step: Step, inner: Json, outer: Option<string>, s: string)
    requires At(value, [step]) == Some(inner) && Cites(inner, Below(step, outer), s)
    ensures Cites(value, outer, s)
  {
    var path :| RefersAt(inner, path, Below(step, outer), s);
    AtBelow(value, step, path);
    if path == [] {
      RefersOne(step, outer);
      assert [step] + path == [step];
    } else {
      RefersBelow(step, path, outer);
    }
    assert RefersAt(value, [step] + path, outer, s);
  }

  /** The other way round: a citation goes through an item or a field, or is the value itself, or
      a string directly in an object under a reference key. */
  lemma CitesSplit(value: Json, outer: Option<string>, s: string) returns (path: seq<Step>)
    requires Cites(value, outer, s)
    ensures RefersAt(value, path, outer, s)
    ensures path == [] ==> value == Str(s) && IsReferenceKey(outer)
    ensures path != [] ==> At(value, [path[0]]).Some?
    ensures path != [] ==>
      || Cites(At(value, [path[0]]).value, Below(path[0], outer), s)
      || (path[0].Field? && At(value, [path[0]]) == Some(Str(s)) && IsReferenceKey(outer))
  {
    path :| RefersAt(value, path, outer, s);
    if path != [] {
      var step, rest := path[0], path[1..];
      assert path == [step] + rest;
      AtBelow(value, step, rest);
      var inner := At(value, [step]).value;
      if rest == [] {
        RefersOne(step, outer);
        assert IsReferenceKey(Below(step, outer)) ==> RefersAt(inner, [], Below(step, outer), s);
      } else {
        RefersBelow(step, rest, outer);
        assert RefersAt(inner, rest, Below(step, outer), s);
      }
    }
  }

  lemma {:induction false} WalkedCites(value: Json, key: Option<string>, s: string)
    requires s in Walked(value, key)
    ensures Cites(value, key, s)
    decreases value
  {
    if key.Some? {
      KeysSpelled(key.value);
    }
    if key.Some? && key.value in REFERENCE_KEYS && s in Named(value) {
      NamedCites(value, key, s);
    } else {
      match value
      case Obj(fields) =>
        var name :| name in fields && s in Walked(fields[name], Some(name));
        WalkedCites(fields[name], Some(name), s);
        assert [Field(name)][1..] == [];
        CitedBelow(value, Field(name), fields[name], key, s);
      case Arr(items) =>
        var i :| 0 <= i < |items| && s in Walked(items[i], key);
        WalkedCites(items[i], key, s);
        assert [Item(i)][1..] == [];
        CitedBelow(value, Item(i), items[i], key, s);
      case _ =>
    }
  }

  lemma FieldCited(fields: map<string, Json>, key: Option<string>, s: string)
    requires IsReferenceKey(key) && s in StringsIn(fields)
    ensures Cites(Obj(fields), key, s)
  {
    var name :| name in fields && fields[name] == Str(s) && s != "";
    assert [Field(name)][1..] == [];
    RefersOne(Field(name), key);
    assert RefersAt(Obj(fields), [Field(name)], key, s);
  }

  lemma NamedCites(value: Json, key: Option<string>, s: string)
    requires IsReferenceKey(key) && s in Named(value)
    ensures Cites(value, key, s)
  {
    match value
    case Str(_) => assert RefersAt(value, [], key, s);
    case Obj(fields) => FieldCited(fields, key, s);
    case Arr(items) =>
      if i :| 0 <= i < |items| && items[i] == Str(s) && s != "" {
        assert RefersAt(items[i], [], key, s);
        assert [Item(i)][1..] == [];
        CitedBelow(value, Item(i), items[i], key, s);
      } else {
        var i :| 0 <= i < |items| && items[i].Obj? && s in StringsIn(items[i].fields);
        FieldCited(items[i].fields, key, s);
        assert [Item(i)][1..] == [];
        CitedBelow(value, Item(i), items[i], key, s);
      }
    case _ =>
  }

  lemma {:induction false} CitesWalked(value: Json, key: Option<string>, s: string)
    requires Cites(value, key, s)
    ensures s in Walked(value, key)
    decreases value
  {
    if key.Some? {
      KeysSpelled(key.value);
    }
    var path := CitesSplit(value, key, s);
    if path != [] {
      match (path[0], value)
      case (Field(name), Obj(fields)) =>
        if Cites(fields[name], Some(name), s) {
          CitesWalked(fields[name], Some(name), s);
        }
      case (Item(i), Arr(items)) => CitesWalked(items[i], key, s);
      case _ =>
    }
  }

  /** The references of a metadata object are exactly the non-empty strings that stand under one
      of the eleven reference keys, however deep. */
  lemma ReferencesAreCited(metadata: Metadata, s: string)
    ensures s in References(metadata) <==> Cites(Obj(metadata), None, s)
  {
    if s in References(metadata) {
      WalkedCites(Obj(metadata), None, s);
    }
    if Cites(Obj(metadata), None, s) {
      CitesWalked(Obj(metadata), None, s);
    }
  }
}

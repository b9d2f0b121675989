/**
 * The field service: the fields collection and the operations that read and
 * change it. The collection is held as its documents in natural order; the
 * `_id` of every `updateOne` the service issues is appended to a ghost log,
 * so that the contracts can say which documents were written.
 */
module FieldStore {
  import opened Json
  import opened Host
  import opened Fields
  import opened Collections
  import opened FieldPositions
  import FieldTypes

  /** The keys `storeField` copies itself; every other key of its input is a type attribute. */
  const BaseKeys: set<string> := {"type", "name", "label", "subtitle", "required"}

  /**
   * The generic guards of `storeField` on its input: an object with a
   * non-empty string `type`, a `name` that is a valid field name, a
   * non-empty string `label`, a string `subtitle` and a boolean `required`.
   */
  predicate FieldGuards(cfg: Positions, input: Value) {
    IsObject(input) &&
    IsNonEmptyString(Prop(input, "type")) &&
    Prop(input, "name").Str? && cfg.fieldNamePattern(Prop(input, "name").s) &&
    IsNonEmptyString(Prop(input, "label")) &&
    Prop(input, "subtitle").Str? &&
    Prop(input, "required").Bool?
  }

  /** An input the guards can read: an object whose base keys have the right JavaScript types. */
  predicate HasFieldShape(input: Value) {
    input.Obj? && Prop(input, "type").Str? && Prop(input, "name").Str? &&
    Prop(input, "label").Str? && Prop(input, "subtitle").Str? && Prop(input, "required").Bool?
  }

  /** The definition an input object describes: its base keys, and all its other keys as type attributes. */
  function InputField(input: Value): (f: Field)
    requires HasFieldShape(input)
    ensures Prop(input, "type") == Str(f.fieldType) && Prop(input, "name") == Str(f.name)
    ensures Prop(input, "label") == Str(f.fieldLabel) && Prop(input, "subtitle") == Str(f.subtitle)
    ensures Prop(input, "required") == Bool(f.required)
    ensures forall key :: key !in BaseKeys ==> Attr(f, key) == Prop(input, key)
  {
    Field(Prop(input, "type").s, Prop(input, "name").s, Prop(input, "label").s,
          Prop(input, "subtitle").s, Prop(input, "required").b, input.props - BaseKeys)
  }

  /** The attributes spread into a document: those of a mapping, none for a type that maps none (`...null`). */
  function Kept(attrs: Option<map<string, Value>>): map<string, Value> {
    if attrs.Some? then attrs.value else map[]
  }

  /**
   * `replaceOne({_id: doc.id}, doc, {upsert: true})`: the first document with
   * that id is replaced in place; without one, the document is appended.
   */
  function Upsert(rows: seq<FieldRow>, doc: FieldRow): (r: seq<FieldRow>)
    ensures doc in r
    ensures |r| == if IndexOfId(rows, doc.id) < |rows| then |rows| else |rows| + 1
    ensures forall k :: 0 <= k < |rows| && rows[k].id != doc.id ==> r[k] == rows[k]
  {
    var k := IndexOfId(rows, doc.id);
    if k < |rows| then
      assert rows[k := doc][k] == doc;
      rows[k := doc]
    else rows + [doc]
  }

  /**
   * The document `storeField(name, …)` writes for the definition `def`: the
   * field stored under `name` keeps its id and position; otherwise the field
   * gets the fresh id and the next position.
   */
  function StoredRow(cfg: Positions, rows: seq<FieldRow>, name: string, def: Field, freshId: string): FieldRow {
    match FindByName(rows, name)
    case Some(prev) => FieldRow(prev.id, prev.position, def)
    case None => FieldRow(freshId, NextPosition(cfg, rows), def)
  }

  /** The collection after a `storeField` that passed its guards. */
  function Stored(cfg: Positions, rows: seq<FieldRow>, name: string, def: Field, freshId: string): seq<FieldRow> {
    Upsert(rows, StoredRow(cfg, rows, name, def, freshId))
  }

  /** `storeField` never renames onto another field's name: the stored name is the old one or unused. */
  predicate NoCollision(rows: seq<FieldRow>, name: string, def: Field) {
    name == def.name || FindByName(rows, def.name).None?
  }

  /** A field found by name is stored at the index its id leads to. */
  lemma FoundAtId(rows: seq<FieldRow>, name: string)
    requires UniqueIds(rows) && FindByName(rows, name).Some?
    ensures IndexOfId(rows, FindByName(rows, name).value.id) < |rows|
    ensures rows[IndexOfId(rows, FindByName(rows, name).value.id)] == FindByName(rows, name).value
  {
    var f := FindByName(rows, name).value;
    var j :| 0 <= j < |rows| && rows[j] == f;
    IndexOfRank(rows, j);
  }

  /**
   * Storing a field replaces the field stored under `name` in place, keeping
   * its id and position, and leaves every other field where it was.
   */
  lemma StoreExisting(cfg: Positions, rows: seq<FieldRow>, name: string, def: Field, freshId: string)
    requires UniqueIds(rows) && FindByName(rows, name).Some?
    ensures var prev := FindByName(rows, name).value;
            |Stored(cfg, rows, name, def, freshId)| == |rows| &&
            Stored(cfg, rows, name, def, freshId)[IndexOfId(rows, prev.id)] == FieldRow(prev.id, prev.position, def) &&
            forall k :: 0 <= k < |rows| && k != IndexOfId(rows, prev.id) ==> Stored(cfg, rows, name, def, freshId)[k] == rows[k]
  {
    FoundAtId(rows, name);
  }

  /**
   * Storing a field under a name no field has appends it with the fresh id,
   * one step above every stored position; dense fields stay dense, the new
   * one last.
   */
  lemma StoreNew(cfg: Positions, rows: seq<FieldRow>, name: string, def: Field, freshId: string)
    requires FindByName(rows, name).None? && freshId !in Map(rows, IdOf)
    ensures Stored(cfg, rows, name, def, freshId) == rows + [FieldRow(freshId, NextPosition(cfg, rows), def)]
    ensures forall k :: 0 <= k < |rows| ==> rows[k].position < NextPosition(cfg, rows)
    ensures Dense(cfg, SortByPosition(rows)) ==> Dense(cfg, SortByPosition(Stored(cfg, rows, name, def, freshId)))
  {
    var doc := FieldRow(freshId, NextPosition(cfg, rows), def);
    assert IndexOfId(rows, freshId) == |rows|;
    if Dense(cfg, SortByPosition(rows)) {
      AppendDense(cfg, rows, doc);
    }
  }

  /** Storing keeps ids and names unique, provided a new field gets an unused id and no rename collides. */
  lemma StoreUnique(cfg: Positions, rows: seq<FieldRow>, name: string, def: Field, freshId: string)
    requires UniqueIds(rows) && UniqueNames(rows) && freshId !in Map(rows, IdOf)
    requires NoCollision(rows, name, def)
    ensures UniqueIds(Stored(cfg, rows, name, def, freshId)) && UniqueNames(Stored(cfg, rows, name, def, freshId))
  {
    if FindByName(rows, name).Some? {
      ReplaceUnique(cfg, rows, name, def, freshId);
    } else {
      AppendUnique(cfg, rows, name, def, freshId);
    }
  }

  /** Replacing the field stored under `name` keeps ids and names unique. */
  lemma ReplaceUnique(cfg: Positions, rows: seq<FieldRow>, name: string, def: Field, freshId: string)
    requires UniqueIds(rows) && UniqueNames(rows) && NoCollision(rows, name, def) && FindByName(rows, name).Some?
    ensures UniqueIds(Stored(cfg, rows, name, def, freshId)) && UniqueNames(Stored(cfg, rows, name, def, freshId))
  {
    var prev := FindByName(rows, name).value;
    FoundAtId(rows, name);
    var j := IndexOfId(rows, prev.id);
    var doc := FieldRow(prev.id, prev.position, def);
    assert Stored(cfg, rows, name, def, freshId) == rows[j := doc];
    MapUpdate(rows, j, doc, IdOf);
    assert Map(rows, IdOf)[j := doc.id] == Map(rows, IdOf);
    MapUpdate(rows, j, doc, NameOf);
    if def.name != name {
      NoDuplicatesUpdate(Map(rows, NameOf), j, def.name);
    } else {
      assert Map(rows, NameOf)[j := def.name] == Map(rows, NameOf);
    }
  }

  /** Appending a new field with an unused id under an unused name keeps ids and names unique. */
  lemma AppendUnique(cfg: Positions, rows: seq<FieldRow>, name: string, def: Field, freshId: string)
    requires UniqueIds(rows) && UniqueNames(rows) && freshId !in Map(rows, IdOf)
    requires NoCollision(rows, name, def) && FindByName(rows, name).None?
    ensures UniqueIds(Stored(cfg, rows, name, def, freshId)) && UniqueNames(Stored(cfg, rows, name, def, freshId))
  {
    var after := Stored(cfg, rows, name, def, freshId);
    StoreNew(cfg, rows, name, def, freshId);
    forall a, b | 0 <= a < b < |after| ensures after[a].id != after[b].id && after[a].def.name != after[b].def.name {
      if b < |rows| {
        assert Map(rows, IdOf)[a] != Map(rows, IdOf)[b];
        assert Map(rows, NameOf)[a] != Map(rows, NameOf)[b];
      } else {
        assert Map(rows, IdOf)[a] == rows[a].id;
      }
    }
  }

  /** After storing, the stored name finds the stored document. */
  lemma StoreFinds(cfg: Positions, rows: seq<FieldRow>, name: string, def: Field, freshId: string)
    requires UniqueIds(rows) && UniqueNames(rows) && freshId !in Map(rows, IdOf)
    requires NoCollision(rows, name, def)
    ensures FindByName(Stored(cfg, rows, name, def, freshId), def.name) == Some(StoredRow(cfg, rows, name, def, freshId))
  {
    var after := Stored(cfg, rows, name, def, freshId);
    StoreUnique(cfg, rows, name, def, freshId);
    var doc := StoredRow(cfg, rows, name, def, freshId);
    var j :| 0 <= j < |after| && after[j] == doc;
    FindUnique(after, j);
  }

  /** `deleteMany({name})`: the fields with another name, in natural order. */
  function WithoutName(rows: seq<FieldRow>, name: string): (r: seq<FieldRow>)
    ensures forall k :: 0 <= k < |r| ==> r[k] in rows && r[k].def.name != name
    ensures forall k :: 0 <= k < |rows| && rows[k].def.name != name ==> rows[k] in r
  {
    Filter(rows, (r: FieldRow) => r.def.name != name)
  }

  /** Deleting keeps ids and names unique. */
  lemma WithoutNameUnique(rows: seq<FieldRow>, name: string)
    requires UniqueIds(rows) && UniqueNames(rows)
    ensures UniqueIds(WithoutName(rows, name)) && UniqueNames(WithoutName(rows, name))
  {
    FilterNoDuplicates(rows, (r: FieldRow) => r.def.name != name, IdOf);
    FilterNoDuplicates(rows, (r: FieldRow) => r.def.name != name, NameOf);
  }

  /** After `deleteField(name)` no field has that name and the fields are dense. */
  lemma DeleteFieldEffect(cfg: Positions, rows: seq<FieldRow>, name: string)
    requires UniqueIds(rows) && UniqueNames(rows)
    ensures forall k :: 0 <= k < |Repositioned(cfg, WithoutName(rows, name))| ==>
              Repositioned(cfg, WithoutName(rows, name))[k].def.name != name
    ensures Dense(cfg, SortByPosition(Repositioned(cfg, WithoutName(rows, name))))
  {
    var kept := WithoutName(rows, name);
    WithoutNameUnique(rows, name);
    RepositionDense(cfg, kept);
    forall k | 0 <= k < |Repositioned(cfg, kept)| ensures Repositioned(cfg, kept)[k].def.name != name {
      RepositionedAt(cfg, kept, k);
    }
  }

  /** After `deleteField(name)` every field with another name is still there, with its id and definition. */
  lemma DeleteKeepsOthers(cfg: Positions, rows: seq<FieldRow>, name: string)
    ensures forall k :: 0 <= k < |rows| && rows[k].def.name != name ==>
              exists j :: 0 <= j < |Repositioned(cfg, WithoutName(rows, name))| &&
                Repositioned(cfg, WithoutName(rows, name))[j].id == rows[k].id &&
                Repositioned(cfg, WithoutName(rows, name))[j].def == rows[k].def
  {
    var kept := WithoutName(rows, name);
    forall k | 0 <= k < |rows| && rows[k].def.name != name
      ensures exists j :: 0 <= j < |Repositioned(cfg, kept)| &&
                Repositioned(cfg, kept)[j].id == rows[k].id && Repositioned(cfg, kept)[j].def == rows[k].def
    {
      var j :| 0 <= j < |kept| && kept[j] == rows[k];
      RepositionedAt(cfg, kept, j);
    }
  }

  /**
   * A list that keeps the ids and positions of the fields in position order
   * is in position order and holds every stored id once.
   */
  lemma KeysKept(r: seq<FieldRow>, rows: seq<FieldRow>)
    requires |r| == |rows|
    requires forall k :: 0 <= k < |r| ==> r[k].id == SortByPosition(rows)[k].id && r[k].position == SortByPosition(rows)[k].position
    ensures SortedBy(r, ByPosition)
    ensures multiset(Map(r, IdOf)) == multiset(Map(rows, IdOf))
  {
    var order := SortByPosition(rows);
    assert Map(r, IdOf) == Map(order, IdOf);
    MapPermutation(order, rows, IdOf);
  }

  /**
   * The loop of `#repositionFields`: the field at index i of `fields` is
   * moved to `Target(i)` unless it already sits there. Returns the
   * collection after every step and the ids updated, in order.
   */
  method RenumberAll(cfg: Positions, rows: seq<FieldRow>, fields: seq<FieldRow>)
    returns (current: seq<FieldRow>, written: seq<string>)
    ensures current == Renumbered(cfg, rows, fields, |fields|)
    ensures written == Changed(cfg, fields, |fields|)
  {
    current, written := rows, [];
    var position := cfg.start;
    var i := 0;
    while i < |fields|
      invariant i <= |fields| && RunState(cfg, rows, fields, i, current, written, position)
    {
      RunNext(cfg, rows, fields, i, current, written, position);
      position := position + cfg.step;
      if position != fields[i].position {
        current := SetPosition(current, fields[i].id, position);
        written := written + [fields[i].id];
      }
      i := i + 1;
    }
  }

  /**
   * The loop of `setFieldPositions`: step k finds the field named `names[k]`
   * among `fields` and moves it to `Target(k)` unless it was read there.
   * Returns the collection after every step and the ids updated, in order.
   */
  method AssignByNames(cfg: Positions, rows: seq<FieldRow>, fields: seq<FieldRow>, names: seq<string>)
    returns (current: seq<FieldRow>, written: seq<string>)
    requires AllFound(fields, names)
    ensures current == Renumbered(cfg, rows, Picked(fields, names), |names|)
    ensures written == Changed(cfg, Picked(fields, names), |names|)
  {
    current, written := rows, [];
    var position := cfg.start;
    var k := 0;
    while k < |names|
      invariant k <= |names| && RunState(cfg, rows, Picked(fields, names), k, current, written, position)
    {
      var field := FindByName(fields, names[k]).value;
      PickedNext(cfg, rows, fields, names, k, current, written, position);
      position := position + cfg.step;
      if position != field.position {
        current := SetPosition(current, field.id, position);
        written := written + [field.id];
      }
      k := k + 1;
    }
  }

  /** `{name, label, value}`: one field's value as text, as `getValueAsText` lists it. */
  datatype ValueAsText = ValueAsText(name: string, fieldLabel: string, text: string)

  /** No entry before index `k` carries the name. */
  predicate FirstNamed(values: seq<NamedValue>, name: string, k: int) {
    forall j :: 0 <= j < k && j < |values| ==> values[j].name != name
  }

  /** `values.find(v => v.name === name)?.value ?? null`: the value of the first entry with the name. */
  function NamedOrNull(values: seq<NamedValue>, name: string): (v: Arg)
    ensures (forall k :: 0 <= k < |values| ==> values[k].name != name) ==> v == Null
    ensures forall k :: 0 <= k < |values| && values[k].name == name && FirstNamed(values, name, k) ==> v == OrNull(values[k].value)
    decreases |values|
  {
    if values == [] then Null
    else if values[0].name == name then OrNull(values[0].value)
    else
      var v := NamedOrNull(values[1..], name);
      assert forall k :: 0 < k < |values| && FirstNamed(values, name, k) ==> FirstNamed(values[1..], name, k - 1);
      v
  }

  class FieldService {
    /** The fields collection, in natural order. */
    var rows: seq<FieldRow>
    /** The `_id` of every document an `updateOne` has been issued for, in order. */
    ghost var updates: seq<string>
    /** `FIELD_NAME_PATTERN` and the `FIELD_POSITION_*` constants. */
    const cfg: Positions
    const fieldTypes: FieldTypes.FieldTypeService

    /** Ids are unique (they are `_id`s) and so are names (`storeField` never creates a second field with a name). */
    ghost predicate Valid()
      reads this
    {
      UniqueIds(rows) && UniqueNames(rows)
    }

    /** A service over the collection as it is stored. */
    constructor (cfg: Positions, fieldTypes: FieldTypes.FieldTypeService, stored: seq<FieldRow>)
      requires UniqueIds(stored) && UniqueNames(stored)
      ensures Valid() && rows == stored && updates == []
      ensures this.cfg == cfg && this.fieldTypes == fieldTypes
    {
      this.cfg := cfg;
      this.fieldTypes := fieldTypes;
      rows := stored;
      updates := [];
    }

    /** A stored field as the service returns it: attributes replaced by the type's read mapping, or dropped. */
    function Shown(r: FieldRow, mapAttrs: bool): (s: FieldRow)
      reads fieldTypes
      ensures s.id == r.id && s.position == r.position && s.def == r.def.(attrs := s.def.attrs)
      ensures mapAttrs ==> s.def.attrs == Kept(fieldTypes.MapField(r.def))
      ensures !mapAttrs ==> s.def.attrs == map[]
    {
      r.(def := r.def.(attrs := if mapAttrs then Kept(fieldTypes.MapField(r.def)) else map[]))
    }

    /**
     * The lookup of `getField`: nothing for an invalid name or a name no
     * field has; otherwise the field with that name, as stored. The callers
     * that ask for no attributes use only its id, name, type and position.
     */
    function Lookup(name: string): (r: Option<FieldRow>)
      reads this
      ensures !cfg.fieldNamePattern(name) ==> r.None?
      ensures cfg.fieldNamePattern(name) ==> (r.Some? <==> exists k :: 0 <= k < |rows| && rows[k].def.name == name)
      ensures r.Some? ==> r.value in rows && r.value.def.name == name
    {
      if cfg.fieldNamePattern(name) then FindByName(rows, name) else None
    }

    /** `getField(name, mapAttrs)`: the field `Lookup` finds, as the service returns it. */
    function GetField(name: string, mapAttrs: bool): (r: Option<FieldRow>)
      reads this, fieldTypes
      ensures r.None? <==> Lookup(name).None?
      ensures r.Some? ==> r.value.id == Lookup(name).value.id && r.value.position == Lookup(name).value.position
      ensures r.Some? && !mapAttrs ==> r.value.def == Lookup(name).value.def.(attrs := map[])
      ensures r.Some? && mapAttrs ==> r.value.def == Lookup(name).value.def.(attrs := Kept(fieldTypes.MapField(Lookup(name).value.def)))
    {
      match Lookup(name)
      case Some(f) => Some(Shown(f, mapAttrs))
      case None => None
    }

    /** `getFields(mapAttrs)`: every field once, in ascending position. */
    method GetFields(mapAttrs: bool) returns (fields: seq<FieldRow>)
      ensures |fields| == |rows| && SortedBy(fields, ByPosition)
      ensures multiset(Map(fields, IdOf)) == multiset(Map(rows, IdOf))
      ensures forall k :: 0 <= k < |fields| ==> fields[k] == Shown(SortByPosition(rows)[k], mapAttrs)
    {
      var order := SortByPosition(rows);
      fields := [];
      var i := 0;
      while i < |order|
        invariant i <= |order| && |fields| == i
        invariant forall k :: 0 <= k < i ==> fields[k] == Shown(order[k], mapAttrs)
      {
        fields := fields + [Shown(order[i], mapAttrs)];
        i := i + 1;
      }
      KeysKept(fields, rows);
    }

    /**
     * One row of `getValueAsText`: the field's name and label, and the text
     * of the value its name finds; throws when the type service has no
     * formatter.
     */
    function TextOf(f: FieldRow, values: seq<NamedValue>): (t: Reply<ValueAsText>)
      reads fieldTypes
      ensures t.Throw? <==> fieldTypes.formatter.None?
      ensures t.Return? ==> t.value.name == f.def.name && t.value.fieldLabel == f.def.fieldLabel
      ensures t.Return? ==> Return(t.value.text) == fieldTypes.GetValueAsText(f.def, NamedOrNull(values, f.def.name))
    {
      match fieldTypes.GetValueAsText(f.def, NamedOrNull(values, f.def.name))
      case Return(text) => Return(ValueAsText(f.def.name, f.def.fieldLabel, text))
      case Throw => Throw
    }

    /** `texts` are the rows of the first `|texts|` fields, one for one. */
    ghost predicate TextsOf(texts: seq<ValueAsText>, fields: seq<FieldRow>, values: seq<NamedValue>)
      reads fieldTypes
    {
      |texts| <= |fields| && forall k :: 0 <= k < |texts| ==> Return(texts[k]) == TextOf(fields[k], values)
    }

    /** Appending the next field's row keeps the rows matched to the fields. */
    lemma TextsStep(texts: seq<ValueAsText>, fields: seq<FieldRow>, values: seq<NamedValue>, t: ValueAsText)
      requires TextsOf(texts, fields, values) && |texts| < |fields| && Return(t) == TextOf(fields[|texts|], values)
      ensures TextsOf(texts + [t], fields, values)
    {
      var texts' := texts + [t];
      forall k | 0 <= k < |texts'|
        ensures Return(texts'[k]) == TextOf(fields[k], values)
      {
        if k < |texts| {
          assert texts'[k] == texts[k] && Return(texts[k]) == TextOf(fields[k], values);
        } else {
          assert texts'[k] == t;
        }
      }
    }

    /**
     * `getValueAsText(value)`: one row per field, in position order, with the
     * field as `getFields()` returns it and the value of the first entry
     * carrying its name (null when there is none); the first field whose text
     * throws ends the call.
     */
    method GetValueAsText(values: seq<NamedValue>) returns (r: Reply<seq<ValueAsText>>)
      ensures r.Throw? <==> fieldTypes.formatter.None? && |rows| > 0
      ensures r.Return? ==> |r.value| == |rows|
      ensures r.Return? ==> forall k :: 0 <= k < |r.value| ==> Return(r.value[k]) == TextOf(Shown(SortByPosition(rows)[k], true), values)
    {
      var fields := GetFields(true);
      var texts := [];
      var i := 0;
      while i < |fields|
        invariant i <= |fields| && |texts| == i
        invariant i > 0 ==> fieldTypes.formatter.Some?
        invariant TextsOf(texts, fields, values)
      {
        var t := TextOf(fields[i], values);
        if t.Throw? {
          return Throw;
        }
        TextsStep(texts, fields, values, t.value);
        texts := texts + [t.value];
        i := i + 1;
      }
      return Return(texts);
    }

    /**
     * `#repositionFields`: walks the fields in position order with a running
     * position, issuing an update for every field not already at it.
     */
    method Reposition()
      requires Valid()
      modifies this
      ensures Valid()
      ensures rows == Repositioned(cfg, old(rows))
      ensures updates == old(updates) + Changed(cfg, SortByPosition(old(rows)), |old(rows)|)
    {
      // getFields(false): only the ids and positions are used
      var fields := SortByPosition(rows);
      ghost var stored := rows;
      var current, written := RenumberAll(cfg, rows, fields);
      rows, updates := current, updates + written;
      RenumberedAll(cfg, stored);
      RepositionKeepsFields(cfg, stored);
    }

    /** `deleteField(name)`: for a valid name, deletes the fields with that name and renumbers the rest. */
    method DeleteField(name: string) returns (ok: bool)
      requires Valid()
      modifies this
      ensures Valid()
      ensures ok == cfg.fieldNamePattern(name)
      ensures !ok ==> rows == old(rows) && updates == old(updates)
      ensures ok ==> rows == Repositioned(cfg, WithoutName(old(rows), name))
      ensures ok ==> updates == old(updates) + Changed(cfg, SortByPosition(WithoutName(old(rows), name)), |WithoutName(old(rows), name)|)
    {
      if !cfg.fieldNamePattern(name) {
        return false;
      }
      WithoutNameUnique(rows, name);
      rows := WithoutName(rows, name);
      Reposition();
      return true;
    }

    /** `moveFieldUp(name)`: moves the field a step and a move down in position, then renumbers. */
    method MoveFieldUp(name: string) returns (ok: bool)
      requires Valid()
      modifies this
      ensures Valid()
      ensures ok <==> cfg.fieldNamePattern(name) && FindByName(old(rows), name).Some?
      ensures !ok ==> rows == old(rows) && updates == old(updates)
      ensures ok ==> rows == Repositioned(cfg, SetPosition(old(rows), FindByName(old(rows), name).value.id, UpPosition(cfg, FindByName(old(rows), name).value)))
      ensures ok ==> updates == old(updates) + [FindByName(old(rows), name).value.id] +
                       Changed(cfg, SortByPosition(SetPosition(old(rows), FindByName(old(rows), name).value.id, UpPosition(cfg, FindByName(old(rows), name).value))), |old(rows)|)
    {
      if !cfg.fieldNamePattern(name) {
        return false;
      }
      var field := Lookup(name);
      if field.None? {
        return false;
      }
      var f := field.value;
      ShiftKeepsIds(rows, f.id, UpPosition(cfg, f));
      rows := SetPosition(rows, f.id, UpPosition(cfg, f));
      updates := updates + [f.id];
      Reposition();
      return true;
    }

    /** `moveFieldDown(name)`: moves the field a step and a move up in position, then renumbers. */
    method MoveFieldDown(name: string) returns (ok: bool)
      requires Valid()
      modifies this
      ensures Valid()
      ensures ok <==> cfg.fieldNamePattern(name) && FindByName(old(rows), name).Some?
      ensures !ok ==> rows == old(rows) && updates == old(updates)
      ensures ok ==> rows == Repositioned(cfg, SetPosition(old(rows), FindByName(old(rows), name).value.id, DownPosition(cfg, FindByName(old(rows), name).value)))
      ensures ok ==> updates == old(updates) + [FindByName(old(rows), name).value.id] +
                       Changed(cfg, SortByPosition(SetPosition(old(rows), FindByName(old(rows), name).value.id, DownPosition(cfg, FindByName(old(rows), name).value))), |old(rows)|)
    {
      if !cfg.fieldNamePattern(name) {
        return false;
      }
      var field := Lookup(name);
      if field.None? {
        return false;
      }
      var f := field.value;
      ShiftKeepsIds(rows, f.id, DownPosition(cfg, f));
      rows := SetPosition(rows, f.id, DownPosition(cfg, f));
      updates := updates + [f.id];
      Reposition();
      return true;
    }

    /**
     * `setFieldPositions(names)`: after its guards, gives the field named
     * `names[k]` the position `Target(k)`, skipping a field already read at it.
     */
    method SetFieldPositions(names: seq<string>) returns (ok: bool)
      requires Valid()
      modifies this
      ensures Valid()
      ensures ok <==> PositionsAccepted(cfg, old(rows), names)
      ensures !ok ==> rows == old(rows) && updates == old(updates)
      ensures ok ==> rows == Arranged(cfg, old(rows), names)
      ensures ok ==> updates == old(updates) + Changed(cfg, Picked(old(rows), names), |names|)
    {
      if names == [] || exists k :: 0 <= k < |names| && !cfg.fieldNamePattern(names[k]) {
        return false;
      }
      // getFields(false): only the ids, names and positions are used
      var fields := SortByPosition(rows);
      PickedSame(rows, fields, names);
      if |names| != |fields| || !AllFound(fields, names) {
        return false;
      }
      ghost var stored := rows;
      var current, written := AssignByNames(cfg, rows, fields, names);
      rows, updates := current, updates + written;
      PickedAll(cfg, stored, names);
      KeepsIds(stored, Assigning(cfg, names));
      return true;
    }

    /**
     * `storeField(name, input)`: the generic guards, no rename onto another
     * field's name, no change of an existing field's type and the type's own
     * definition check must all pass; the definition, with the attributes its
     * type keeps, then replaces the field stored under `name` or is added.
     */
    predicate StoreAccepted(name: string, input: Value)
      reads this, fieldTypes
    {
      cfg.fieldNamePattern(name) && FieldGuards(cfg, input) &&
      var def := InputField(input);
      NoCollision(rows, name, def) &&
      (FindByName(rows, name).Some? ==> FindByName(rows, name).value.def.fieldType == def.fieldType) &&
      fieldTypes.ValidateField(def)
    }

    /** The definition `storeField` writes for an input: the attributes its type keeps, and no other. */
    function StoredField(input: Value): (f: Field)
      requires HasFieldShape(input)
      reads fieldTypes
      ensures f == InputField(input).(attrs := Kept(fieldTypes.MapField(InputField(input))))
    {
      var def := InputField(input);
      def.(attrs := Kept(fieldTypes.MapField(def)))
    }

    /**
     * The `replaceOne` with `upsert` that ends `storeField`: the document for
     * `def` under the id and position of `previous`, the field stored under
     * `name`, or under the fresh id at the next position.
     */
    method WriteField(name: string, previous: Option<FieldRow>, def: Field, freshId: string)
      requires Valid() && freshId !in Map(rows, IdOf) && NoCollision(rows, name, def)
      requires previous == FindByName(rows, name)
      modifies this
      ensures Valid() && updates == old(updates)
      ensures rows == Stored(cfg, old(rows), name, def, freshId)
      ensures FindByName(rows, def.name) == Some(StoredRow(cfg, old(rows), name, def, freshId))
    {
      var doc := FieldRow(
        if previous.Some? then previous.value.id else freshId,
        if previous.Some? then previous.value.position else NextPosition(cfg, rows),
        def);
      StoreUnique(cfg, rows, name, def, freshId);
      StoreFinds(cfg, rows, name, def, freshId);
      rows := Upsert(rows, doc);
    }

    /** The attributes a stored definition keeps read back as themselves. */
    lemma KeptStable(def: Field)
      ensures var kept := def.(attrs := Kept(fieldTypes.MapField(def)));
              Kept(fieldTypes.MapField(kept)) == kept.attrs
    {
      fieldTypes.MapFieldStable(def);
    }

    /**
     * `storeField(name, input)`, with `freshId` the `crypto.randomUUID()` a
     * new field would get. Nothing is written unless every guard passes; a
     * stored field reads back, by its name, as the definition written.
     */
    method StoreField(name: string, input: Value, freshId: string) returns (ok: bool)
      requires Valid() && freshId !in Map(rows, IdOf)
      modifies this
      ensures Valid() && updates == old(updates)
      ensures ok <==> old(StoreAccepted(name, input))
      ensures !ok ==> rows == old(rows)
      ensures ok ==> rows == Stored(cfg, old(rows), name, StoredField(input), freshId)
      ensures ok ==> GetField(InputField(input).name, true).Some? &&
                     GetField(InputField(input).name, true).value.def == StoredField(input)
    {
      if !cfg.fieldNamePattern(name) {
        return false;
      }
      if !IsObject(input) {
        return false;
      }
      if !IsNonEmptyString(Prop(input, "type")) {
        return false;
      }
      if !(Prop(input, "name").Str? && cfg.fieldNamePattern(Prop(input, "name").s)) {
        return false;
      }
      if !IsNonEmptyString(Prop(input, "label")) {
        return false;
      }
      if !Prop(input, "subtitle").Str? {
        return false;
      }
      if !Prop(input, "required").Bool? {
        return false;
      }
      var def := InputField(input);
      if name != def.name && Lookup(def.name).Some? {
        return false;
      }
      var previous := Lookup(name);
      if previous.Some? && previous.value.def.fieldType != def.fieldType {
        return false;
      }
      if !fieldTypes.ValidateField(def) {
        return false;
      }
      WriteField(name, previous, def.(attrs := Kept(fieldTypes.MapField(def))), freshId);
      KeptStable(def);
      return true;
    }
  }
}

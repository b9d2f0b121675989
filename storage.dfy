/**
 * `FluxFieldValueStorage`, the facade over the field and value services:
 * values are written only after every live field has been resolved and
 * validated, and are read back projected onto the live fields, in position
 * order, so rows of deleted fields never surface.
 */
module Storage {
  import opened Json
  import opened Host
  import opened Fields
  import opened Collections
  import opened FieldPositions
  import FieldTypes
  import FieldStore
  import ValueStore

  /** `{name, values}`: a record projected onto the live fields. */
  datatype Projection = Projection(name: string, values: seq<NamedValue>)

  /** What `storeValue` does with a submission: refuse it, fault, or hand a record to the value service. */
  datatype Outcome = Reject | Fault | Submit(submission: Value)

  // ---------------------------------------------------------------- reading

  /** `record.values.find(entry => entry.id === fieldId)?.value ?? null` */
  function StoredOrNull(entries: seq<ValueStore.Entry>, fieldId: string): (v: Arg)
    ensures (forall k :: 0 <= k < |entries| ==> entries[k].fieldId != fieldId) ==> v == Null
    ensures v != Null ==> exists k :: 0 <= k < |entries| && entries[k].fieldId == fieldId && v == entries[k].value
    ensures forall k :: 0 <= k < |entries| && entries[k].fieldId == fieldId && ValueStore.FirstFor(entries, fieldId, k) ==>
              v == OrNull(entries[k].value)
  {
    match ValueStore.FindEntry(entries, fieldId)
    case Some(e) => OrNull(e.value)
    case None => Null
  }

  /** The entry of a record for one live field: the field's name and its stored value through the read mapping. */
  function ReadCell(ft: FieldTypes.FieldTypeService, f: FieldRow, record: ValueStore.Record): (c: NamedValue)
    reads ft
    ensures c.name == f.def.name
    ensures ft.GetFieldType(f.def.fieldType).None? ==> c.value == StoredOrNull(record.values, f.id)
  {
    NamedValue(f.def.name, ft.MapGetValue(f.def, StoredOrNull(record.values, f.id)))
  }

  /** The name of a definition. */
  function DefName(f: Field): string {
    f.name
  }

  /**
   * The projection of a record onto the live fields: the record's name and
   * one entry per live field, in the fields' order, named after the field.
   */
  function ProjectionOf(ft: FieldTypes.FieldTypeService, live: seq<FieldRow>, record: ValueStore.Record): (p: Projection)
    reads ft
    ensures p.name == record.name && |p.values| == |live|
    ensures forall k :: 0 <= k < |live| ==> p.values[k].name == live[k].def.name
    ensures forall k :: 0 <= k < |live| ==> p.values[k] == ReadCell(ft, live[k], record)
  {
    Projection(record.name, seq(|live|, k requires 0 <= k < |live| reads ft => ReadCell(ft, live[k], record)))
  }

  /** With distinct field names, a field's name finds its own entry of the projection. */
  lemma NamedProjection(ft: FieldTypes.FieldTypeService, live: seq<FieldRow>, record: ValueStore.Record, k: nat)
    requires UniqueNames(live) && k < |live|
    ensures FieldStore.NamedOrNull(ProjectionOf(ft, live, record).values, live[k].def.name) ==
            OrNull(ft.MapGetValue(live[k].def, StoredOrNull(record.values, live[k].id)))
  {
    var p := ProjectionOf(ft, live, record);
    var names := Map(live, NameOf);
    assert FieldStore.FirstNamed(p.values, live[k].def.name, k) by {
      forall j | 0 <= j < k
        ensures p.values[j].name != live[k].def.name
      {
        assert names[j] != names[k];
      }
    }
    var c := ReadCell(ft, live[k], record);
    assert p.values[k] == c;
    assert FieldStore.NamedOrNull(p.values, live[k].def.name) == OrNull(c.value);
  }

  /** A row showing the text of the value a live field's name finds in a projection shows its stored value's text. */
  lemma TextRow(ft: FieldTypes.FieldTypeService, live: seq<FieldRow>, record: ValueStore.Record, k: nat, t: Reply<string>)
    requires UniqueNames(live) && k < |live|
    requires t == ft.GetValueAsText(live[k].def, FieldStore.NamedOrNull(ProjectionOf(ft, live, record).values, live[k].def.name))
    ensures t == ft.GetValueAsText(live[k].def, OrNull(ft.MapGetValue(live[k].def, StoredOrNull(record.values, live[k].id))))
  {
    NamedProjection(ft, live, record, k);
  }

  /**
   * The facade creates its type service with `FieldTypeService.new()`,
   * passing no formatter, so every text asked of that service throws: with a
   * record and a field, the facade's `getValueAsText` never returns rows.
   */
  lemma CreatedTypeServiceThrows(ft: FieldTypes.FieldTypeService, f: Field, v: Arg)
    requires ft.formatter.None?
    ensures ft.GetValueAsText(f, v) == Throw
  {
  }

  /**
   * The first two guards of the field service's `storeField(name, field)`
   * on JavaScript arguments: a name that is a string matching the field-name
   * pattern, and a definition that is an object.
   */
  predicate StoreFieldGuards(cfg: Positions, name: Value, field: Value) {
    name.Str? && cfg.fieldNamePattern(name.s) && IsObject(field)
  }

  /** The inner loop of `getValue` and `getValues`: one entry per live field, in the order given. */
  method Project(ft: FieldTypes.FieldTypeService, live: seq<FieldRow>, record: ValueStore.Record) returns (p: Projection)
    ensures p == ProjectionOf(ft, live, record)
  {
    var cells := [];
    var i := 0;
    while i < |live|
      invariant i <= |live| && |cells| == i
      invariant forall k :: 0 <= k < i ==> cells[k] == ReadCell(ft, live[k], record)
    {
      cells := cells + [NamedValue(live[i].def.name, ft.MapGetValue(live[i].def, StoredOrNull(record.values, live[i].id)))];
      i := i + 1;
    }
    p := Projection(record.name, cells);
  }

  /** The outer loop of `getValues`: every record projected, in order. */
  method ProjectAll(ft: FieldTypes.FieldTypeService, live: seq<FieldRow>, records: seq<ValueStore.Record>) returns (r: seq<Projection>)
    ensures |r| == |records| && forall j :: 0 <= j < |records| ==> r[j] == ProjectionOf(ft, live, records[j])
  {
    r := [];
    var i := 0;
    while i < |records|
      invariant i <= |records| && |r| == i
      invariant forall j :: 0 <= j < i ==> r[j] == ProjectionOf(ft, live, records[j])
    {
      var p := Project(ft, live, records[i]);
      r := r + [p];
      i := i + 1;
    }
  }

  /** The `map` of `getFields()`: each field without its id and position. */
  method Definitions(live: seq<FieldRow>) returns (r: seq<Field>)
    ensures |r| == |live| && forall k :: 0 <= k < |live| ==> r[k] == live[k].def
  {
    r := [];
    var i := 0;
    while i < |live|
      invariant i <= |live| && |r| == i
      invariant forall k :: 0 <= k < i ==> r[k] == live[k].def
    {
      r := r + [live[i].def];
      i := i + 1;
    }
  }

  // ---------------------------------------------------------------- storing

  /** The guards of `storeValue`: an object with a non-empty string `name` and a non-empty `values` array of objects, each with a non-empty string `name`. */
  predicate FacadeGuards(input: Value) {
    IsObject(input) && IsNonEmptyString(Prop(input, "name")) &&
    Prop(input, "values").Arr? && |Prop(input, "values").items| > 0 &&
    forall k :: 0 <= k < |ValueStore.InputItems(input)| ==>
      IsObject(ValueStore.InputItems(input)[k]) && IsNonEmptyString(Prop(ValueStore.InputItems(input)[k], "name"))
  }

  /** The field name a submitted entry carries, once the guards have passed. */
  function ItemName(item: Value): string {
    if Prop(item, "name").Str? then Prop(item, "name").s else ""
  }

  /** `Object.fromEntries(entries.map(e => [e.id, e.value]))`: the stored value per field id, a later entry overwriting an earlier one. */
  function EntryMap(entries: seq<ValueStore.Entry>): (m: map<string, Value>)
    ensures forall id :: id in m <==> exists k :: 0 <= k < |entries| && entries[k].fieldId == id
    ensures forall id :: id in m ==> exists k :: 0 <= k < |entries| && entries[k].fieldId == id && entries[k].value == m[id]
    decreases |entries|
  {
    if entries == [] then map[]
    else
      var init := entries[..|entries| - 1];
      var last := entries[|entries| - 1];
      var m := EntryMap(init);
      assert forall k :: 0 <= k < |init| ==> init[k] == entries[k];
      m[last.fieldId := last.value]
  }

  /** No entry after index `k` has the field id of entry `k`. */
  predicate LastFor(entries: seq<ValueStore.Entry>, k: nat)
    requires k < |entries|
  {
    forall j :: k < j < |entries| ==> entries[j].fieldId != entries[k].fieldId
  }

  /** The map keeps, for every field id, the value of the LAST entry carrying it. */
  lemma {:induction false} EntryMapLast(entries: seq<ValueStore.Entry>, k: nat)
    requires k < |entries| && LastFor(entries, k)
    ensures entries[k].fieldId in EntryMap(entries) && EntryMap(entries)[entries[k].fieldId] == entries[k].value
    decreases |entries|
  {
    var init := entries[..|entries| - 1];
    if k < |init| {
      assert init[k] == entries[k];
      assert LastFor(init, k) by {
        forall j | k < j < |init| ensures init[j].fieldId != init[k].fieldId {
          assert init[j] == entries[j];
        }
      }
      EntryMapLast(init, k);
    }
  }

  /** The starting map of `storeValue`: the stored record's values when keeping them, otherwise empty. */
  function Seed(keep: bool, previous: Option<ValueStore.Record>): map<string, Value> {
    if keep && previous.Some? then EntryMap(previous.value.values) else map[]
  }

  /**
   * The first loop of `storeValue`: every submitted value under the id of
   * the live field its entry names; nothing when an entry names no live field.
   */
  function Collected(seed: map<string, Value>, live: seq<FieldRow>, items: seq<Value>): Option<map<string, Value>>
    decreases |items|
  {
    if items == [] then Some(seed)
    else match FindByName(live, ItemName(items[0]))
      case None => None
      case Some(f) => Collected(seed[f.id := Prop(items[0], "value")], live, items[1..])
  }

  /** `_field_values[field.id] ?? null` */
  function Resolved(m: map<string, Value>, f: FieldRow): Arg {
    if f.id in m then OrNull(m[f.id]) else Null
  }

  /** The index of the last submitted entry naming `name`. */
  function LastNaming(items: seq<Value>, name: string): (r: Option<nat>)
    ensures r.Some? ==> r.value < |items| && ItemName(items[r.value]) == name &&
                        forall k :: r.value < k < |items| ==> ItemName(items[k]) != name
    ensures r.None? ==> forall k :: 0 <= k < |items| ==> ItemName(items[k]) != name
    decreases |items|
  {
    if items == [] then None
    else match LastNaming(items[1..], name)
      case Some(k) => Some(k + 1)
      case None => if ItemName(items[0]) == name then Some(0) else None
  }

  /**
   * The value a live field resolves to, defined without the loop: the
   * value of the last entry naming it, else the seed's value for its id,
   * else null.
   */
  function Resolution(seed: map<string, Value>, items: seq<Value>, f: FieldRow): Arg {
    match LastNaming(items, f.def.name)
    case Some(k) => OrNull(Prop(items[k], "value"))
    case None => if f.id in seed then OrNull(seed[f.id]) else Null
  }

  /** `{id: field.id, value: mapStoreValue(field, resolved)}` */
  function StoredCell(ft: FieldTypes.FieldTypeService, m: map<string, Value>, f: FieldRow): Value
    reads ft
  {
    Obj(map["id" := Str(f.id), "value" := ft.MapStoreValue(f.def, Resolved(m, f))])
  }

  /** Every live field's resolved value passes its type's check. */
  predicate AllValid(ft: FieldTypes.FieldTypeService, m: map<string, Value>, live: seq<FieldRow>)
    reads ft
  {
    forall k :: 0 <= k < |live| ==> ft.ValidateValue(live[k].def, Resolved(m, live[k]))
  }

  /** The record handed to the value service: the name and one cell per live field, in order. */
  function Submission(ft: FieldTypes.FieldTypeService, name: string, m: map<string, Value>, live: seq<FieldRow>): Value
    reads ft
  {
    Obj(map["name" := Str(name),
            "values" := Arr(seq(|live|, k requires 0 <= k < |live| reads ft => StoredCell(ft, m, live[k])))])
  }

  /**
   * What `storeValue` decides once its guards have passed and its starting
   * map is known: refuse when an entry names no live field or when a live
   * field's resolved value fails its check, and submit otherwise.
   */
  function Decision(ft: FieldTypes.FieldTypeService, name: string, seed: map<string, Value>, live: seq<FieldRow>, items: seq<Value>): (o: Outcome)
    reads ft
    ensures !o.Fault?
    ensures o.Submit? ==> ValueStore.InputName(o.submission) == name
  {
    match Collected(seed, live, items)
    case None => Reject
    case Some(m) => if AllValid(ft, m, live) then Submit(Submission(ft, name, m, live)) else Reject
  }

  /**
   * What `storeValue` does, given the stored record of the submitted name
   * (`previous`) and the live fields in position order.
   */
  function Plan(ft: FieldTypes.FieldTypeService, input: Value, keep: bool, previous: Option<ValueStore.Record>, live: seq<FieldRow>): (o: Outcome)
    reads ft
    ensures !FacadeGuards(input) ==> o == Reject
    ensures o.Fault? <==> FacadeGuards(input) && keep && previous.None?
    ensures o.Submit? ==> ValueStore.InputName(o.submission) == ValueStore.InputName(input)
  {
    if !FacadeGuards(input) then Reject
    else if keep && previous.None? then Fault
    else Decision(ft, ValueStore.InputName(input), Seed(keep, previous), live, ValueStore.InputItems(input))
  }

  /** Past the guards and the fault, `Plan` is the decision over the submitted name and entries. */
  lemma PlanDecides(ft: FieldTypes.FieldTypeService, input: Value, keep: bool, previous: Option<ValueStore.Record>, live: seq<FieldRow>)
    requires FacadeGuards(input) && !(keep && previous.None?)
    ensures Plan(ft, input, keep, previous, live) == Decision(ft, Prop(input, "name").s, Seed(keep, previous), live, Prop(input, "values").items)
  {
  }

  /** The first loop succeeds exactly when every submitted entry names a live field. */
  lemma {:induction false} CollectedNames(seed: map<string, Value>, live: seq<FieldRow>, items: seq<Value>)
    ensures Collected(seed, live, items).Some? <==>
            forall k :: 0 <= k < |items| ==> FindByName(live, ItemName(items[k])).Some?
    decreases |items|
  {
    if items != [] {
      match FindByName(live, ItemName(items[0]))
      case None =>
      case Some(f) =>
        CollectedNames(seed[f.id := Prop(items[0], "value")], live, items[1..]);
        assert forall k :: 1 <= k < |items| ==> items[1..][k - 1] == items[k];
    }
  }

  /** The loop's map resolves every live field as `Resolution` says. */
  lemma {:induction false} CollectedResolves(seed: map<string, Value>, live: seq<FieldRow>, items: seq<Value>, f: FieldRow)
    requires UniqueIds(live) && UniqueNames(live) && f in live
    requires Collected(seed, live, items).Some?
    ensures Resolved(Collected(seed, live, items).value, f) == Resolution(seed, items, f)
    decreases |items|
  {
    if items != [] {
      var g := FindByName(live, ItemName(items[0])).value;
      var seed' := seed[g.id := Prop(items[0], "value")];
      CollectedResolves(seed', live, items[1..], f);
      match LastNaming(items[1..], f.def.name)
      case Some(k) =>
      case None =>
        var i :| 0 <= i < |live| && live[i] == f;
        if ItemName(items[0]) == f.def.name {
          SameName(live, g, i);
        } else if g.id == f.id {
          SameId(live, g, i);
          assert false;
        }
    }
  }

  /** One step of the first loop, in the form the loop reads it. */
  lemma CollectedFrom(seed: map<string, Value>, live: seq<FieldRow>, items: seq<Value>, i: nat)
    requires i < |items|
    ensures Collected(seed, live, items[i..]) ==
            match FindByName(live, ItemName(items[i]))
            case None => None
            case Some(f) => Collected(seed[f.id := Prop(items[i], "value")], live, items[i + 1..])
  {
    assert items[i..][0] == items[i] && items[i..][1..] == items[i + 1..];
  }

  /** The first loop of `storeValue`, over the submitted entries. */
  method CollectValues(seed: map<string, Value>, live: seq<FieldRow>, items: seq<Value>) returns (m: Option<map<string, Value>>)
    ensures m == Collected(seed, live, items)
  {
    var acc := seed;
    var i := 0;
    while i < |items|
      invariant i <= |items| && Collected(seed, live, items) == Collected(acc, live, items[i..])
    {
      CollectedFrom(acc, live, items, i);
      var field := FindByName(live, ItemName(items[i]));
      if field.None? {
        return None;
      }
      acc := acc[field.value.id := Prop(items[i], "value")];
      i := i + 1;
    }
    assert items[i..] == [];
    return Some(acc);
  }

  /** One step of the second loop of `storeValue`: the field's cell, or nothing when its resolved value fails. */
  method StoreCell(ft: FieldTypes.FieldTypeService, m: map<string, Value>, f: FieldRow) returns (c: Option<Value>)
    ensures c.Some? <==> ft.ValidateValue(f.def, Resolved(m, f))
    ensures c.Some? ==> c.value == StoredCell(ft, m, f)
  {
    var v := Resolved(m, f);
    if !ft.ValidateValue(f.def, v) {
      return None;
    }
    return Some(Obj(map["id" := Str(f.id), "value" := ft.MapStoreValue(f.def, v)]));
  }

  /** Extending a passing prefix by a field that passes. */
  lemma {:induction false} AllValidStep(ft: FieldTypes.FieldTypeService, m: map<string, Value>, live: seq<FieldRow>, i: nat)
    requires i < |live| && AllValid(ft, m, live[..i]) && ft.ValidateValue(live[i].def, Resolved(m, live[i]))
    ensures AllValid(ft, m, live[..i + 1])
  {
    var p := live[..i + 1];
    forall k | 0 <= k < |p|
      ensures ft.ValidateValue(p[k].def, Resolved(m, p[k]))
    {
      if k < i {
        assert p[k] == live[..i][k];
      }
    }
  }

  /** The second loop of `storeValue`: stops at the first live field whose resolved value fails; otherwise one cell per field. */
  method StoreCells(ft: FieldTypes.FieldTypeService, m: map<string, Value>, live: seq<FieldRow>) returns (cells: Option<seq<Value>>)
    ensures cells.Some? <==> AllValid(ft, m, live)
    ensures cells.Some? ==> |cells.value| == |live| && forall k :: 0 <= k < |live| ==> cells.value[k] == StoredCell(ft, m, live[k])
  {
    var acc := [];
    var i := 0;
    while i < |live|
      invariant i <= |live| && |acc| == i
      invariant AllValid(ft, m, live[..i])
      invariant forall k :: 0 <= k < i ==> acc[k] == StoredCell(ft, m, live[k])
    {
      var c := StoreCell(ft, m, live[i]);
      if c.None? {
        return None;
      }
      AllValidStep(ft, m, live, i);
      acc := acc + [c.value];
      i := i + 1;
    }
    assert live[..i] == live;
    return Some(acc);
  }

  /** The record `Decide` builds from the second loop's cells is the one `Decision` names. */
  lemma SubmissionIs(ft: FieldTypes.FieldTypeService, name: string, m: map<string, Value>, live: seq<FieldRow>, cells: seq<Value>)
    requires |cells| == |live| && forall k :: 0 <= k < |live| ==> cells[k] == StoredCell(ft, m, live[k])
    ensures Obj(map["name" := Str(name), "values" := Arr(cells)]) == Submission(ft, name, m, live)
  {
    assert cells == seq(|live|, k requires 0 <= k < |live| reads ft => StoredCell(ft, m, live[k]));
  }

  /** The two loops of `storeValue`, once the starting map is known. */
  method Decide(ft: FieldTypes.FieldTypeService, name: string, seed: map<string, Value>, live: seq<FieldRow>, items: seq<Value>) returns (o: Outcome)
    ensures o == Decision(ft, name, seed, live, items)
  {
    var m := CollectValues(seed, live, items);
    if m.None? {
      return Reject;
    }
    var cells := StoreCells(ft, m.value, live);
    if cells.None? {
      return Reject;
    }
    SubmissionIs(ft, name, m.value, live, cells.value);
    return Submit(Obj(map["name" := Str(name), "values" := Arr(cells.value)]));
  }

  /** Over live fields with distinct ids and names, the first loop's map resolves every live field as `Resolution` says. */
  lemma ResolvedAll(seed: map<string, Value>, live: seq<FieldRow>, items: seq<Value>)
    requires UniqueIds(live) && UniqueNames(live) && Collected(seed, live, items).Some?
    ensures forall j :: 0 <= j < |live| ==> Resolved(Collected(seed, live, items).value, live[j]) == Resolution(seed, items, live[j])
  {
    forall j | 0 <= j < |live|
      ensures Resolved(Collected(seed, live, items).value, live[j]) == Resolution(seed, items, live[j])
    {
      CollectedResolves(seed, live, items, live[j]);
    }
  }

  /** A record is submitted exactly when every entry names a live field and every live field's resolution validates. */
  lemma DecisionSubmits(ft: FieldTypes.FieldTypeService, name: string, seed: map<string, Value>, live: seq<FieldRow>, items: seq<Value>)
    requires UniqueIds(live) && UniqueNames(live)
    ensures Decision(ft, name, seed, live, items).Submit? <==>
              (forall k :: 0 <= k < |items| ==> FindByName(live, ItemName(items[k])).Some?) &&
              (forall j :: 0 <= j < |live| ==> ft.ValidateValue(live[j].def, Resolution(seed, items, live[j])))
  {
    CollectedNames(seed, live, items);
    if Collected(seed, live, items).Some? {
      DecisionValid(ft, name, seed, live, items);
    }
  }

  /** Once every entry names a live field, a record is submitted exactly when every live field's resolution validates. */
  lemma DecisionValid(ft: FieldTypes.FieldTypeService, name: string, seed: map<string, Value>, live: seq<FieldRow>, items: seq<Value>)
    requires UniqueIds(live) && UniqueNames(live) && Collected(seed, live, items).Some?
    ensures Decision(ft, name, seed, live, items).Submit? <==>
              forall j :: 0 <= j < |live| ==> ft.ValidateValue(live[j].def, Resolution(seed, items, live[j]))
  {
    ResolvedAll(seed, live, items);
  }

  /** A submitted record holds one cell per live field, in order, with the field's id and the store mapping of its resolution. */
  lemma DecisionCells(ft: FieldTypes.FieldTypeService, name: string, seed: map<string, Value>, live: seq<FieldRow>, items: seq<Value>)
    requires UniqueIds(live) && UniqueNames(live) && Decision(ft, name, seed, live, items).Submit?
    ensures ValueStore.InputItems(Decision(ft, name, seed, live, items).submission) == Submitted(ft, seed, items, live)
  {
    var m := Collected(seed, live, items).value;
    ResolvedAll(seed, live, items);
    assert seq(|live|, k requires 0 <= k < |live| reads ft => StoredCell(ft, m, live[k])) == Submitted(ft, seed, items, live);
  }

  /**
   * `storeValue` hands a record to the value service exactly when the
   * guards pass, it does not fault, every entry names a live field and
   * every live field's resolution validates.
   */
  lemma PlanSubmits(ft: FieldTypes.FieldTypeService, input: Value, keep: bool, previous: Option<ValueStore.Record>, live: seq<FieldRow>)
    requires UniqueIds(live) && UniqueNames(live)
    ensures var items := ValueStore.InputItems(input);
            Plan(ft, input, keep, previous, live).Submit? <==>
              FacadeGuards(input) && !(keep && previous.None?) &&
              (forall k :: 0 <= k < |items| ==> FindByName(live, ItemName(items[k])).Some?) &&
              (forall j :: 0 <= j < |live| ==> ft.ValidateValue(live[j].def, Resolution(Seed(keep, previous), items, live[j])))
  {
    if FacadeGuards(input) && !(keep && previous.None?) {
      DecisionSubmits(ft, ValueStore.InputName(input), Seed(keep, previous), live, ValueStore.InputItems(input));
    }
  }

  /** The record `storeValue` submits holds one cell per live field, in position order, with the field's id and the store mapping of its resolution. */
  lemma PlanCells(ft: FieldTypes.FieldTypeService, input: Value, keep: bool, previous: Option<ValueStore.Record>, live: seq<FieldRow>)
    requires UniqueIds(live) && UniqueNames(live) && Plan(ft, input, keep, previous, live).Submit?
    ensures ValueStore.InputItems(Plan(ft, input, keep, previous, live).submission) ==
            Submitted(ft, Seed(keep, previous), ValueStore.InputItems(input), live)
  {
    DecisionCells(ft, ValueStore.InputName(input), Seed(keep, previous), live, ValueStore.InputItems(input));
  }

  /** The cells of the submitted record, in terms of `Resolution`. */
  function Submitted(ft: FieldTypes.FieldTypeService, seed: map<string, Value>, items: seq<Value>, live: seq<FieldRow>): (cells: seq<Value>)
    reads ft
    ensures |cells| == |live|
    ensures forall j :: 0 <= j < |live| ==>
              cells[j] == Obj(map["id" := Str(live[j].id), "value" := ft.MapStoreValue(live[j].def, Resolution(seed, items, live[j]))])
  {
    seq(|live|, j requires 0 <= j < |live| reads ft =>
      Obj(map["id" := Str(live[j].id), "value" := ft.MapStoreValue(live[j].def, Resolution(seed, items, live[j]))]))
  }

  /**
   * A live field no entry names resolves to null without keeping, and to
   * the value of one of the record's stored entries for its id when keeping.
   */
  lemma UnnamedResolution(keep: bool, previous: Option<ValueStore.Record>, items: seq<Value>, f: FieldRow)
    requires forall k :: 0 <= k < |items| ==> ItemName(items[k]) != f.def.name
    ensures !keep ==> Resolution(Seed(keep, previous), items, f) == Null
    ensures keep && previous.Some? ==>
              var entries := previous.value.values;
              ((forall k :: 0 <= k < |entries| ==> entries[k].fieldId != f.id) ==> Resolution(Seed(keep, previous), items, f) == Null) &&
              ((exists k :: 0 <= k < |entries| && entries[k].fieldId == f.id) ==>
                 exists k :: 0 <= k < |entries| && entries[k].fieldId == f.id &&
                             Resolution(Seed(keep, previous), items, f) == OrNull(entries[k].value))
  {
    assert LastNaming(items, f.def.name).None?;
  }

  /** A named live field resolves to the value of the last entry naming it, whatever the seed. */
  lemma NamedResolution(seed: map<string, Value>, items: seq<Value>, f: FieldRow, k: nat)
    requires k < |items| && ItemName(items[k]) == f.def.name
    requires forall i :: k < i < |items| ==> ItemName(items[i]) != f.def.name
    ensures Resolution(seed, items, f) == OrNull(Prop(items[k], "value"))
  {
    var r := LastNaming(items, f.def.name);
    assert r.Some?;
    assert r.value == k;
  }

  // ---------------------------------------------------------------- reading back

  /** The store mapping of every type, and of an unknown one, never produces `undefined`. */
  lemma StoreDefined(ft: FieldTypes.FieldTypeService, f: Field, v: Arg)
    ensures !ft.MapStoreValue(f, v).Undefined?
  {
    if ft.GetFieldType(f.fieldType).Some? {
      var k := ft.GetFieldType(f.fieldType).value;
      assert ft.MapStoreValue(f, v) == FieldTypes.KindMapStoreValue(k, f, v);
    }
  }

  /** The documents written for a submitted record: one per live field, in order, under the field's id, holding its stored value. */
  lemma WrittenCells(ft: FieldTypes.FieldTypeService, live: seq<FieldRow>, m: map<string, Value>, name: string,
                     previous: Option<ValueStore.Record>, id: string, newId: nat -> string)
    ensures var w := ValueStore.Written(previous, id, name, ValueStore.InputItems(Submission(ft, name, m, live)), newId);
            |w| == |live| &&
            forall i :: 0 <= i < |live| ==>
              w[i].name == name && w[i].fieldId == live[i].id &&
              w[i].value == Coalesce(ft.MapStoreValue(live[i].def, Resolved(m, live[i])), Null)
  {
    var cells := ValueStore.InputItems(Submission(ft, name, m, live));
    assert forall i :: 0 <= i < |live| ==> cells[i] == StoredCell(ft, m, live[i]);
  }

  /** The search for a field id finds the one entry that carries it. */
  lemma FindsOnlyEntry(entries: seq<ValueStore.Entry>, x: ValueStore.Entry)
    requires x in entries
    requires forall e :: e in entries && e.fieldId == x.fieldId ==> e == x
    ensures ValueStore.FindEntry(entries, x.fieldId) == Some(x)
  {
    var r := ValueStore.FindEntry(entries, x.fieldId);
    if r.None? {
      assert false;
    }
  }

  /** In a record whose entries are documents carrying the distinct live field ids in order, a field's entry is its own document's. */
  lemma {:induction false} EntryFor(live: seq<FieldRow>, w: seq<ValueStore.ValueRow>, record: ValueStore.Record, j: nat)
    requires UniqueIds(live) && j < |live| && |w| == |live|
    requires forall i :: 0 <= i < |live| ==> w[i].fieldId == live[i].id
    requires multiset(record.values) == multiset(Map(w, ValueStore.EntryOf))
    ensures ValueStore.FindEntry(record.values, live[j].id) == Some(ValueStore.EntryOf(w[j]))
  {
    var entries := Map(w, ValueStore.EntryOf);
    var x := ValueStore.EntryOf(w[j]);
    assert entries[j] == x;
    assert x in multiset(record.values);
    forall e | e in record.values && e.fieldId == x.fieldId
      ensures e == x
    {
      assert e in multiset(entries);
      var i :| 0 <= i < |entries| && entries[i] == e;
      assert Map(live, IdOf)[i] == Map(live, IdOf)[j];
    }
    FindsOnlyEntry(record.values, x);
  }

  /**
   * Reading back a stored record: when a record's entries are exactly the
   * documents written for a submission, every live field projects to the
   * value it resolved to, because a value that validates survives the
   * store mapping and the read mapping.
   */
  lemma ReadsBack(ft: FieldTypes.FieldTypeService, live: seq<FieldRow>, m: map<string, Value>, name: string,
                  previous: Option<ValueStore.Record>, id: string, newId: nat -> string, record: ValueStore.Record, j: nat)
    requires UniqueIds(live) && AllValid(ft, m, live) && j < |live|
    requires multiset(record.values) ==
             multiset(Map(ValueStore.Written(previous, id, name, ValueStore.InputItems(Submission(ft, name, m, live)), newId), ValueStore.EntryOf))
    ensures ReadCell(ft, live[j], record).value == Resolved(m, live[j])
  {
    var w := ValueStore.Written(previous, id, name, ValueStore.InputItems(Submission(ft, name, m, live)), newId);
    WrittenCells(ft, live, m, name, previous, id, newId);
    EntryFor(live, w, record, j);
    var v := Resolved(m, live[j]);
    assert StoredOrNull(record.values, live[j].id) == OrNull(Coalesce(ft.MapStoreValue(live[j].def, v), Null));
    StoreDefined(ft, live[j].def, v);
    ft.StoreReadRoundTrip(live[j].def, v);
  }

  // ---------------------------------------------------------------- the facade

  class FluxFieldValueStorage {
    const fields: FieldStore.FieldService
    const values: ValueStore.ValueService

    ghost predicate Valid()
      reads this, fields, values
    {
      fields.Valid() && values.Valid()
    }

    constructor (fields: FieldStore.FieldService, values: ValueStore.ValueService)
      requires fields.Valid() && values.Valid()
      ensures Valid() && this.fields == fields && this.values == values
    {
      this.fields := fields;
      this.values := values;
    }

    /** The live fields as `getFields()` returns them: in position order, attributes through the read mapping. */
    function Live(): (live: seq<FieldRow>)
      reads fields, fields.fieldTypes
      ensures |live| == |fields.rows|
      ensures forall k :: 0 <= k < |live| ==> live[k] == fields.Shown(SortByPosition(fields.rows)[k], true)
    {
      var order := SortByPosition(fields.rows);
      seq(|order|, k requires 0 <= k < |order| reads fields.fieldTypes => fields.Shown(order[k], true))
    }

    /** The live fields carry distinct ids and distinct names, as the stored ones do. */
    lemma LiveUnique()
      requires fields.Valid()
      ensures UniqueIds(Live()) && UniqueNames(Live())
    {
      var order := SortByPosition(fields.rows);
      SortedUniqueIds(fields.rows);
      SortedUniqueNames(fields.rows);
      assert Map(Live(), IdOf) == Map(order, IdOf);
      assert Map(Live(), NameOf) == Map(order, NameOf);
    }

    /**
     * `deleteField(name)`: looks the field up, deletes it through the field
     * service, and removes the value rows of its id only when it existed.
     */
    method DeleteField(name: string)
      requires Valid()
      modifies fields, values
      ensures Valid()
      ensures fields.rows == if fields.cfg.fieldNamePattern(name) then Repositioned(fields.cfg, FieldStore.WithoutName(old(fields.rows), name)) else old(fields.rows)
      ensures old(fields.Lookup(name)).None? ==> values.rows == old(values.rows)
      ensures old(fields.Lookup(name)).Some? ==>
                var id := old(fields.Lookup(name)).value.id;
                values.rows == if id != "" then Filter(old(values.rows), ValueStore.NotField(id)) else old(values.rows)
    {
      var field := fields.GetField(name, false);
      var _ := fields.DeleteField(name);
      if field.Some? {
        values.DeleteValueField(field.value.id);
      }
    }

    /** `getField(name)`: the field with its read-mapped attributes, without id and position. */
    function GetField(name: string): (r: Option<Field>)
      reads fields, fields.fieldTypes
      ensures r.None? <==> fields.Lookup(name).None?
      ensures r.Some? ==> r.value.name == name && r.value == fields.Lookup(name).value.def.(attrs := r.value.attrs)
      ensures r.Some? ==> r.value.attrs == FieldStore.Kept(fields.fieldTypes.MapField(fields.Lookup(name).value.def))
    {
      match fields.GetField(name, true)
      case Some(f) => Some(f.def)
      case None => None
    }

    /** `getFields()`: every field once, in position order, without id and position. */
    method GetFields() returns (r: seq<Field>)
      ensures |r| == |fields.rows|
      ensures forall k :: 0 <= k < |r| ==> r[k] == Live()[k].def
      ensures multiset(Map(r, DefName)) == multiset(Map(fields.rows, NameOf))
    {
      var live := fields.GetFields(true);
      LiveIs(live);
      r := Definitions(live);
      LiveNames(r);
    }

    /** The names of the listed definitions are the names of the stored fields, each once per field. */
    lemma LiveNames(r: seq<Field>)
      requires |r| == |fields.rows| && forall k :: 0 <= k < |r| ==> r[k] == Live()[k].def
      ensures multiset(Map(r, DefName)) == multiset(Map(fields.rows, NameOf))
    {
      var order := SortByPosition(fields.rows);
      assert Map(r, DefName) == Map(order, NameOf);
      MapPermutation(fields.rows, order, NameOf);
    }

    /** The list `getFields()` returns is the one `Live` describes. */
    lemma LiveIs(live: seq<FieldRow>)
      requires |live| == |fields.rows|
      requires forall k :: 0 <= k < |live| ==> live[k] == fields.Shown(SortByPosition(fields.rows)[k], true)
      ensures live == Live()
    {
      assert forall k :: 0 <= k < |live| ==> live[k] == Live()[k];
    }

    /**
     * `getValue(name)`: nothing when the value service has no record of
     * that name; otherwise that record projected onto the live fields.
     */
    method GetValue(name: string) returns (r: Option<Projection>)
      requires Valid()
      ensures r.None? <==> values.GetValue(name).None?
      ensures r.Some? ==> r.value.name == name && r.value == ProjectionOf(fields.fieldTypes, Live(), values.GetValue(name).value)
    {
      var value := values.GetValue(name);
      if value.None? {
        return None;
      }
      var live := fields.GetFields(true);
      LiveIs(live);
      var p := Project(fields.fieldTypes, live, value.value);
      return Some(p);
    }

    /**
     * `storeField(field)` as the facade writes it: its one parameter takes
     * the caller's first argument (the request handler passes the name
     * there and the definition second, where it is dropped) and forwards it
     * alone, so the service receives no definition. Whatever the first
     * argument is, the service's guards refuse: a name that passes the name
     * guard meets a missing definition at the object guard.
     */
    function StoreFieldAsWritten(first: Value): (ok: bool)
      reads fields
    {
      StoreFieldGuards(fields.cfg, first, Undefined)
    }

    /** The facade's `storeField` refuses every call and so never stores a field. */
    lemma StoreFieldAsWrittenRefuses(first: Value)
      ensures !StoreFieldAsWritten(first)
    {
    }

    /**
     * `storeField(name, field)` forwarding both arguments, as the service
     * expects them, with `freshId` the id a new field would get: the
     * service's answer and write.
     */
    method StoreField(name: string, field: Value, freshId: string) returns (ok: bool)
      requires Valid() && freshId !in Map(fields.rows, IdOf)
      modifies fields
      ensures Valid()
      ensures ok <==> old(fields.StoreAccepted(name, field))
      ensures !ok ==> fields.rows == old(fields.rows)
      ensures ok ==> fields.GetField(FieldStore.InputField(field).name, true).Some? &&
                     fields.GetField(FieldStore.InputField(field).name, true).value.def == fields.StoredField(field)
    {
      ok := fields.StoreField(name, field, freshId);
    }

    /**
     * `getValueAsText(name)`: nothing when the value service has no record of
     * that name; otherwise one row per live field, in position order, with
     * the field's name and label and the text of its stored value through
     * the read mapping. Throws when there is a record and a field but the
     * type service has no formatter.
     */
    method GetValueAsText(name: string) returns (r: Reply<Option<seq<FieldStore.ValueAsText>>>)
      requires Valid()
      ensures r == Return(None) <==> values.GetValue(name).None?
      ensures r.Throw? <==> values.GetValue(name).Some? && fields.fieldTypes.formatter.None? && |Live()| > 0
      ensures r.Return? && r.value.Some? ==> |r.value.value| == |Live()|
      ensures r.Return? && r.value.Some? ==> forall k :: 0 <= k < |r.value.value| ==>
                r.value.value[k].name == Live()[k].def.name && r.value.value[k].fieldLabel == Live()[k].def.fieldLabel &&
                Return(r.value.value[k].text) == fields.fieldTypes.GetValueAsText(Live()[k].def,
                  OrNull(fields.fieldTypes.MapGetValue(Live()[k].def, StoredOrNull(values.GetValue(name).value.values, Live()[k].id))))
    {
      var value := GetValue(name);
      if value.None? {
        return Return(None);
      }
      var p := value.value;
      var reply := fields.GetValueAsText(p.values);
      if reply.Throw? {
        return Throw;
      }
      var texts := reply.value;
      ghost var live := Live();
      ghost var record := values.GetValue(name).value;
      ghost var order := SortByPosition(fields.rows);
      assert p.values == ProjectionOf(fields.fieldTypes, live, record).values;
      LiveUnique();
      forall k | 0 <= k < |texts|
        ensures Return(texts[k].text) == fields.fieldTypes.GetValueAsText(live[k].def,
                  OrNull(fields.fieldTypes.MapGetValue(live[k].def, StoredOrNull(record.values, live[k].id))))
      {
        assert live[k] == fields.Shown(order[k], true);
        assert live[k].def.name == order[k].def.name;
        assert Return(texts[k].text) == fields.fieldTypes.GetValueAsText(live[k].def, FieldStore.NamedOrNull(p.values, live[k].def.name));
        TextRow(fields.fieldTypes, live, record, k, Return(texts[k].text));
      }
      return Return(Some(texts));
    }

    /** `getValues()`: every record the value service lists, in its order, projected as `getValue` projects it. */
    method GetValues() returns (r: seq<Projection>)
      requires Valid()
      ensures var records := ValueStore.Grouping(ValueStore.SortByNameFieldId(values.rows));
              |r| == |records| && forall j :: 0 <= j < |r| ==> r[j] == ProjectionOf(fields.fieldTypes, Live(), records[j])
    {
      var live := fields.GetFields(true);
      LiveIs(live);
      var records := values.GetValues();
      r := ProjectAll(fields.fieldTypes, live, records);
    }

    /** What `storeValue(input, keep)` does in the current state: `Plan` over the stored record of the name and the live fields. */
    function Decided(input: Value, keep: bool): Outcome
      reads this, fields, values, fields.fieldTypes
    {
      Plan(fields.fieldTypes, input, keep, values.GetValue(ValueStore.InputName(input)), Live())
    }

    /**
     * `storeValue(input, keep)`, with `freshRecordId` and `newId` the
     * identifiers the value service would mint: refused, faulting, or the
     * value service's answer to the record `Plan` builds.
     */
    method StoreValue(input: Value, keep: bool, freshRecordId: string, newId: nat -> string) returns (r: Reply<bool>)
      requires Valid() && forall k :: 0 <= k < |values.rows| ==> values.rows[k].recordId != freshRecordId
      modifies values
      ensures Valid()
      ensures old(Decided(input, keep)).Reject? ==> r == Return(false) && values.rows == old(values.rows)
      ensures old(Decided(input, keep)).Fault? ==> r == Throw && values.rows == old(values.rows)
      ensures old(Decided(input, keep)).Submit? ==>
                r == Return(ValueStore.StoreAccepted(old(Decided(input, keep)).submission)) &&
                StoredBy(old(values.rows), old(values.GetValue(ValueStore.InputName(input))), old(Decided(input, keep)).submission, freshRecordId, newId)
    {
      var o, previous := Prepare(input, keep);
      if o.Fault? {
        return Throw;
      }
      r := Hand(o, previous, freshRecordId, newId);
    }

    /**
     * `storeValue` up to the hand-over: the guards, the stored record when
     * keeping the other values (a fault when there is none), and the two loops.
     */
    method Prepare(input: Value, keep: bool) returns (o: Outcome, previous: Option<ValueStore.Record>)
      requires Valid()
      ensures previous == values.GetValue(ValueStore.InputName(input))
      ensures o == Decided(input, keep)
    {
      previous := values.GetValue(ValueStore.InputName(input));
      if !FacadeGuards(input) {
        return Reject, previous;
      }
      if keep && previous.None? {
        return Fault, previous;
      }
      PlanDecides(fields.fieldTypes, input, keep, previous, Live());
      o := DecideLive(Prop(input, "name").s, Seed(keep, previous), Prop(input, "values").items);
    }

    /** The two loops of `storeValue`, over the fields `getFields()` lists. */
    method DecideLive(name: string, seed: map<string, Value>, items: seq<Value>) returns (o: Outcome)
      requires Valid()
      ensures o == Decision(fields.fieldTypes, name, seed, Live(), items)
    {
      var live := fields.GetFields(true);
      LiveIs(live);
      o := Decide(fields.fieldTypes, name, seed, live, items);
    }

    /** The end of `storeValue`: `false` for a refused record, otherwise the value service's answer to the submitted one. */
    method Hand(o: Outcome, previous: Option<ValueStore.Record>, freshRecordId: string, newId: nat -> string) returns (r: Reply<bool>)
      requires Valid() && forall k :: 0 <= k < |values.rows| ==> values.rows[k].recordId != freshRecordId
      requires !o.Fault? && (o.Submit? ==> previous == values.GetValue(ValueStore.InputName(o.submission)))
      modifies values
      ensures Valid()
      ensures o.Submit? ==> r == Return(ValueStore.StoreAccepted(o.submission)) && StoredBy(old(values.rows), previous, o.submission, freshRecordId, newId)
      ensures o.Reject? ==> r == Return(false) && values.rows == old(values.rows)
    {
      if o.Reject? {
        return Return(false);
      }
      var ok := values.StoreValue(o.submission, freshRecordId, newId);
      return Return(ok);
    }

    /** The effect of the value service's `storeValue` on the documents `before`, given the record it found. */
    ghost predicate StoredBy(before: seq<ValueStore.ValueRow>, previous: Option<ValueStore.Record>, s: Value, freshRecordId: string, newId: nat -> string)
      reads values
    {
      if ValueStore.StoreAccepted(s) then
        values.rows == Filter(before, ValueStore.NotNamed(ValueStore.InputName(s))) +
                       ValueStore.Written(previous, if previous.Some? then previous.value.id else freshRecordId,
                                          ValueStore.InputName(s), ValueStore.InputItems(s), newId)
      else values.rows == before
    }
  }
}

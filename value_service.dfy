/**
 * The value service: the values collection, one document per record and
 * field id. A record is the set of documents that share a `name` and the
 * record `id` minted for it; writing a record replaces all its documents,
 * keeping the record id and the document ids of the field ids it had.
 */
module ValueStore {
  import opened Json
  import opened Host
  import opened Collections

  /** A document of the values collection: `_id`, the record's `id` and `name`, `field-id` and `value`. */
  datatype ValueRow = ValueRow(rowId: string, recordId: string, name: string, fieldId: string, value: Value)

  /** An entry of a record as the service returns it: `{_id, id: field-id, value}`. */
  datatype Entry = Entry(rowId: string, fieldId: string, value: Value)

  /** A record as the service returns it: its `id`, its `name` and its entries. */
  datatype Record = Record(id: string, name: string, values: seq<Entry>)

  function EntryOf(r: ValueRow): Entry {
    Entry(r.rowId, r.fieldId, r.value)
  }

  /** A character of `\w`, `-` or `.`: an ASCII letter, digit, `_`, `-` or `.`. */
  predicate NameChar(c: char) {
    'a' <= c <= 'z' || 'A' <= c <= 'Z' || '0' <= c <= '9' || c == '_' || c == '-' || c == '.'
  }

  /** `NAME_PATTERN`, `/^[\w\-.]+$/`: one or more name characters and nothing else. */
  predicate NamePattern(s: string) {
    |s| > 0 && forall i :: 0 <= i < |s| ==> NameChar(s[i])
  }

  function Named(name: string): ValueRow -> bool {
    (r: ValueRow) => r.name == name
  }

  function NotNamed(name: string): ValueRow -> bool {
    (r: ValueRow) => r.name != name
  }

  function OfRecord(id: string): ValueRow -> bool {
    (r: ValueRow) => r.recordId == id
  }

  function NotField(fieldId: string): ValueRow -> bool {
    (r: ValueRow) => r.fieldId != fieldId
  }

  /** Every record id belongs to one name, and every name to one record id. */
  predicate OneIdPerName(rows: seq<ValueRow>) {
    forall a, b :: a in rows && b in rows ==> (a.recordId == b.recordId <==> a.name == b.name)
  }

  /** `deleteMany` keeps the pairing of names and record ids. */
  lemma FilterOneId(rows: seq<ValueRow>, keep: ValueRow -> bool)
    requires OneIdPerName(rows)
    ensures OneIdPerName(Filter(rows, keep))
  {
  }

  /** `a <= b` on strings, character by character. */
  predicate AtMostString(a: string, b: string) {
    CompareStrings(a, b) != Above
  }

  /** The order of `sort({"field-id": 1})`. */
  predicate ByFieldId(a: ValueRow, b: ValueRow) {
    AtMostString(a.fieldId, b.fieldId)
  }

  /** The order of `sort({name: 1, "field-id": 1})`. */
  predicate ByNameFieldId(a: ValueRow, b: ValueRow) {
    CompareStrings(a.name, b.name) == Below || (a.name == b.name && AtMostString(a.fieldId, b.fieldId))
  }

  lemma ByFieldIdTotal()
    ensures IsTotalPreorder(ByFieldId)
  {
    forall a: ValueRow, b: ValueRow ensures ByFieldId(a, b) || ByFieldId(b, a) {
      CompareStringsTotal(a.fieldId, b.fieldId);
    }
    forall a: ValueRow, b: ValueRow, c: ValueRow | ByFieldId(a, b) && ByFieldId(b, c) ensures ByFieldId(a, c) {
      CompareStringsTransitive(a.fieldId, b.fieldId, c.fieldId);
    }
  }

  lemma ByNameFieldIdTotal()
    ensures IsTotalPreorder(ByNameFieldId)
  {
    forall a: ValueRow, b: ValueRow ensures ByNameFieldId(a, b) || ByNameFieldId(b, a) {
      CompareStringsTotal(a.name, b.name);
      CompareStringsTotal(b.name, a.name);
      CompareStringsTotal(a.fieldId, b.fieldId);
      CompareStringsTotal(b.fieldId, a.fieldId);
    }
    forall a: ValueRow, b: ValueRow, c: ValueRow | ByNameFieldId(a, b) && ByNameFieldId(b, c) ensures ByNameFieldId(a, c) {
      CompareStringsTotal(a.name, b.name);
      CompareStringsTotal(b.name, a.name);
      CompareStringsTotal(b.name, c.name);
      CompareStringsTotal(a.name, c.name);
      if a.name == b.name && b.name == c.name {
        CompareStringsTransitive(a.fieldId, b.fieldId, c.fieldId);
      } else {
        CompareStringsTransitive(a.name, b.name, c.name);
      }
    }
  }

  /** `find(...).sort({"field-id": 1})`; documents with equal field ids keep their storage order. */
  function SortByFieldId(rows: seq<ValueRow>): (r: seq<ValueRow>)
    ensures SortedBy(r, ByFieldId) && multiset(r) == multiset(rows) && |r| == |rows|
  {
    ByFieldIdTotal();
    Sort(rows, ByFieldId)
  }

  /** `find().sort({name: 1, "field-id": 1})`. */
  function SortByNameFieldId(rows: seq<ValueRow>): (r: seq<ValueRow>)
    ensures SortedBy(r, ByNameFieldId) && multiset(r) == multiset(rows) && |r| == |rows|
  {
    ByNameFieldIdTotal();
    Sort(rows, ByNameFieldId)
  }

  /** `entries.find(entry => entry.id === fieldId)`: the first entry for that field id. */
  function FindEntry(entries: seq<Entry>, fieldId: string): (r: Option<Entry>)
    ensures r.Some? ==> r.value in entries && r.value.fieldId == fieldId
    ensures r.None? ==> forall k :: 0 <= k < |entries| ==> entries[k].fieldId != fieldId
    ensures forall k :: 0 <= k < |entries| && entries[k].fieldId == fieldId && FirstFor(entries, fieldId, k) ==> r == Some(entries[k])
    decreases |entries|
  {
    if entries == [] then None
    else if entries[0].fieldId == fieldId then Some(entries[0])
    else
      var r := FindEntry(entries[1..], fieldId);
      assert forall k :: 0 < k < |entries| && FirstFor(entries, fieldId, k) ==> FirstFor(entries[1..], fieldId, k - 1);
      r
  }

  /** No entry before index `k` has the field id. */
  predicate FirstFor(entries: seq<Entry>, fieldId: string, k: int) {
    forall j :: 0 <= j < k && j < |entries| ==> entries[j].fieldId != fieldId
  }

  /** `previous_value?.values?.find(...)?._id`: the document id the previous record had for a field id. */
  function PreviousRowId(previous: Option<Record>, fieldId: string): (r: Option<string>)
    ensures r.Some? <==> previous.Some? && exists k :: 0 <= k < |previous.value.values| && previous.value.values[k].fieldId == fieldId
    ensures r.Some? ==> exists k :: 0 <= k < |previous.value.values| &&
                          previous.value.values[k].fieldId == fieldId && previous.value.values[k].rowId == r.value
    ensures previous.Some? ==>
              forall k :: (0 <= k < |previous.value.values| && previous.value.values[k].fieldId == fieldId &&
                           FirstFor(previous.value.values, fieldId, k)) ==> r == Some(previous.value.values[k].rowId)
  {
    if previous.None? then None
    else match FindEntry(previous.value.values, fieldId)
      case Some(e) => Some(e.rowId)
      case None => None
  }

  /** The record name `storeValue` reads from its input. */
  function InputName(input: Value): string {
    if Prop(input, "name").Str? then Prop(input, "name").s else ""
  }

  /** The entries `storeValue` reads from its input. */
  function InputItems(input: Value): seq<Value> {
    if Prop(input, "values").Arr? then Prop(input, "values").items else []
  }

  /**
   * The guards of `storeValue`: an object whose `name` matches
   * `NAME_PATTERN` and whose `values` is a non-empty array of objects, each
   * with a non-empty string `id`.
   */
  predicate StoreAccepted(input: Value) {
    IsObject(input) &&
    Prop(input, "name").Str? && NamePattern(Prop(input, "name").s) &&
    Prop(input, "values").Arr? && |Prop(input, "values").items| > 0 &&
    forall k :: 0 <= k < |InputItems(input)| ==> IsObject(InputItems(input)[k]) && IsNonEmptyString(Prop(InputItems(input)[k], "id"))
  }

  /** The field id of a submitted entry, once the guards have passed. */
  function ItemFieldId(item: Value): string {
    if Prop(item, "id").Str? then Prop(item, "id").s else ""
  }

  /**
   * The documents `insertMany` writes for the record `id` called `name`:
   * one per submitted entry, in order, under the document id the previous
   * record had for the entry's field id, or else the k-th fresh id.
   */
  function Written(previous: Option<Record>, id: string, name: string, items: seq<Value>, newId: nat -> string): (r: seq<ValueRow>)
    ensures |r| == |items|
    ensures forall k :: 0 <= k < |r| ==> r[k].recordId == id && r[k].name == name
    ensures forall k :: 0 <= k < |r| ==> r[k].fieldId == ItemFieldId(items[k]) && r[k].value == Coalesce(Prop(items[k], "value"), Null)
    ensures forall k :: 0 <= k < |r| ==> r[k].rowId == match PreviousRowId(previous, r[k].fieldId) case Some(x) => x case None => newId(k)
  {
    seq(|items|, k requires 0 <= k < |items| =>
      var fieldId := ItemFieldId(items[k]);
      ValueRow(match PreviousRowId(previous, fieldId) case Some(x) => x case None => newId(k),
               id, name, fieldId, Coalesce(Prop(items[k], "value"), Null)))
  }

  /**
   * After a write the record's documents are exactly the written ones, in
   * order, and the documents of every other record are untouched.
   */
  lemma RewriteRecord(rows: seq<ValueRow>, name: string, written: seq<ValueRow>)
    requires forall k :: 0 <= k < |written| ==> written[k].name == name
    ensures Filter(Filter(rows, NotNamed(name)) + written, Named(name)) == written
    ensures Filter(Filter(rows, NotNamed(name)) + written, NotNamed(name)) == Filter(rows, NotNamed(name))
  {
    var kept := Filter(rows, NotNamed(name));
    FilterAppend(kept, written, Named(name));
    FilterAppend(kept, written, NotNamed(name));
    FilterNone(kept, Named(name));
    FilterAll(written, Named(name));
    FilterNone(written, NotNamed(name));
    FilterAll(kept, NotNamed(name));
    assert kept + [] == kept;
  }

  /** Writing a record under its own record id, or under an unused one, keeps the pairing of names and record ids. */
  lemma StoreKeepsOneId(rows: seq<ValueRow>, name: string, id: string, written: seq<ValueRow>)
    requires OneIdPerName(rows)
    requires forall r :: r in written ==> r.name == name && r.recordId == id
    requires forall r :: r in rows && r.recordId == id ==> r.name == name
    ensures OneIdPerName(Filter(rows, NotNamed(name)) + written)
  {
  }

  /** The index of the group with record id `id`, or the number of groups when there is none. */
  function IndexOfRecord(groups: seq<Record>, id: string): (j: nat)
    ensures j <= |groups| && (j < |groups| ==> groups[j].id == id)
    ensures forall i :: 0 <= i < j ==> groups[i].id != id
    decreases |groups|
  {
    if groups == [] then 0
    else if groups[0].id == id then 0
    else 1 + IndexOfRecord(groups[1..], id)
  }

  /** One step of the `reduce` of `getValues`: `values[id] ??= {id, name, values: []}`, then the entry is pushed. */
  function Gather(groups: seq<Record>, r: ValueRow): seq<Record> {
    var j := IndexOfRecord(groups, r.recordId);
    if j < |groups| then groups[j := groups[j].(values := groups[j].values + [EntryOf(r)])]
    else groups + [Record(r.recordId, r.name, [EntryOf(r)])]
  }

  /** The `reduce` of `getValues` over documents in order. */
  function Grouping(rows: seq<ValueRow>): seq<Record>
    decreases |rows|
  {
    if rows == [] then [] else Gather(Grouping(rows[..|rows| - 1]), rows[|rows| - 1])
  }

  /** No two groups share a record id. */
  predicate DistinctIds(groups: seq<Record>) {
    forall i, j :: 0 <= i < j < |groups| ==> groups[i].id != groups[j].id
  }

  /** Each group holds the entries of exactly the documents with its record id, in order. */
  predicate GroupedEntries(groups: seq<Record>, rows: seq<ValueRow>) {
    forall j :: 0 <= j < |groups| ==> groups[j].values == Map(Filter(rows, OfRecord(groups[j].id)), EntryOf)
  }

  /** Each group carries the record id and the name of one of the documents. */
  predicate GroupsNamed(groups: seq<Record>, rows: seq<ValueRow>) {
    forall j :: 0 <= j < |groups| ==>
      exists k :: 0 <= k < |rows| && rows[k].recordId == groups[j].id && rows[k].name == groups[j].name
  }

  /** Every document has a group. */
  predicate Covers(groups: seq<Record>, rows: seq<ValueRow>) {
    forall k :: 0 <= k < |rows| ==> exists j :: 0 <= j < |groups| && groups[j].id == rows[k].recordId
  }

  /** `groups` partitions `rows` by record id. */
  predicate Groups(groups: seq<Record>, rows: seq<ValueRow>) {
    DistinctIds(groups) && GroupedEntries(groups, rows) && GroupsNamed(groups, rows) && Covers(groups, rows)
  }

  /** A step of the `reduce` changes only the group of the document's record id, which it creates if needed. */
  lemma GatherShape(groups: seq<Record>, r: ValueRow)
    ensures var j, after := IndexOfRecord(groups, r.recordId), Gather(groups, r);
            |after| == (if j < |groups| then |groups| else |groups| + 1) &&
            (forall i :: 0 <= i < |groups| && i != j ==> after[i] == groups[i]) &&
            after[j].id == r.recordId &&
            (j < |groups| ==> after[j] == groups[j].(values := groups[j].values + [EntryOf(r)])) &&
            (j == |groups| ==> after[j] == Record(r.recordId, r.name, [EntryOf(r)]))
  {
  }

  lemma GatherIds(groups: seq<Record>, r: ValueRow)
    requires DistinctIds(groups)
    ensures DistinctIds(Gather(groups, r))
  {
    GatherShape(groups, r);
  }

  /** A group that existed gains the document's entry exactly when the document has its record id. */
  lemma GatherEntriesKept(groups: seq<Record>, rows: seq<ValueRow>, r: ValueRow, i: nat)
    requires DistinctIds(groups) && GroupedEntries(groups, rows)
    requires i < |groups|
    ensures Gather(groups, r)[i].values == Map(Filter(rows + [r], OfRecord(groups[i].id)), EntryOf)
  {
    var id := groups[i].id;
    GatherShape(groups, r);
    FilterSnoc(rows, r, OfRecord(id));
    MapAppend(Filter(rows, OfRecord(id)), if r.recordId == id then [r] else [], EntryOf);
  }

  /** A group created for the document holds its entry alone. */
  lemma GatherEntriesNew(groups: seq<Record>, rows: seq<ValueRow>, r: ValueRow)
    requires Covers(groups, rows) && IndexOfRecord(groups, r.recordId) == |groups|
    ensures Gather(groups, r)[|groups|].values == Map(Filter(rows + [r], OfRecord(r.recordId)), EntryOf)
  {
    GatherShape(groups, r);
    FilterSnoc(rows, r, OfRecord(r.recordId));
    FilterNone(rows, OfRecord(r.recordId));
  }

  lemma GatherEntries(groups: seq<Record>, rows: seq<ValueRow>, r: ValueRow)
    requires DistinctIds(groups) && GroupedEntries(groups, rows) && Covers(groups, rows)
    ensures GroupedEntries(Gather(groups, r), rows + [r])
  {
    forall i | 0 <= i < |Gather(groups, r)|
      ensures Gather(groups, r)[i].values == Map(Filter(rows + [r], OfRecord(Gather(groups, r)[i].id)), EntryOf)
    {
      GatherShape(groups, r);
      if i < |groups| {
        GatherEntriesKept(groups, rows, r, i);
      } else {
        GatherEntriesNew(groups, rows, r);
      }
    }
  }

  lemma GatherNamed(groups: seq<Record>, rows: seq<ValueRow>, r: ValueRow)
    requires GroupsNamed(groups, rows)
    ensures GroupsNamed(Gather(groups, r), rows + [r])
  {
    var after := Gather(groups, r);
    var j := IndexOfRecord(groups, r.recordId);
    GatherShape(groups, r);
    forall i | 0 <= i < |after|
      ensures exists k :: 0 <= k < |rows + [r]| && (rows + [r])[k].recordId == after[i].id && (rows + [r])[k].name == after[i].name
    {
      if i < |groups| {
        var k :| 0 <= k < |rows| && rows[k].recordId == groups[i].id && rows[k].name == groups[i].name;
        assert (rows + [r])[k] == rows[k];
      } else {
        assert (rows + [r])[|rows|] == r;
      }
    }
  }

  lemma GatherCovers(groups: seq<Record>, rows: seq<ValueRow>, r: ValueRow)
    requires Covers(groups, rows)
    ensures Covers(Gather(groups, r), rows + [r])
  {
    var after := Gather(groups, r);
    var j := IndexOfRecord(groups, r.recordId);
    GatherShape(groups, r);
    forall k | 0 <= k < |rows + [r]| ensures exists i :: 0 <= i < |after| && after[i].id == (rows + [r])[k].recordId {
      if k < |rows| {
        assert (rows + [r])[k] == rows[k];
        var i :| 0 <= i < |groups| && groups[i].id == rows[k].recordId;
        if i != j {
          assert after[i] == groups[i];
        } else {
          assert after[j].id == r.recordId;
        }
      } else {
        assert after[j].id == r.recordId;
      }
    }
  }

  /** One more document keeps the grouping a partition. */
  lemma GatherGroups(groups: seq<Record>, rows: seq<ValueRow>, r: ValueRow, after: seq<ValueRow>)
    requires Groups(groups, rows) && after == rows + [r]
    ensures Groups(Gather(groups, r), after)
  {
    GatherIds(groups, r);
    GatherEntries(groups, rows, r);
    GatherNamed(groups, rows, r);
    GatherCovers(groups, rows, r);
  }

  /** The `reduce` of `getValues` partitions the documents by record id. */
  lemma {:induction false} GroupingGroups(rows: seq<ValueRow>)
    ensures Groups(Grouping(rows), rows)
    decreases |rows|
  {
    if rows != [] {
      var init, last := rows[..|rows| - 1], rows[|rows| - 1];
      SplitLast(rows);
      GroupingGroups(init);
      GatherGroups(Grouping(init), init, last, rows);
    }
  }

  lemma GroupingNext(rows: seq<ValueRow>, i: nat)
    requires i < |rows|
    ensures Grouping(rows[..i + 1]) == Gather(Grouping(rows[..i]), rows[i])
  {
    assert rows[..i + 1][..i] == rows[..i];
  }

  /** The loop of the `reduce` of `getValues`: each document joins its record's group, created on first sight. */
  method GroupRows(sorted: seq<ValueRow>) returns (records: seq<Record>)
    ensures records == Grouping(sorted)
  {
    records := [];
    var i := 0;
    while i < |sorted|
      invariant i <= |sorted| && records == Grouping(sorted[..i])
    {
      var row := sorted[i];
      ghost var before := records;
      var j := IndexOfRecord(records, row.recordId);
      if j == |records| {
        records := records + [Record(row.recordId, row.name, [])];
      }
      records := records[j := records[j].(values := records[j].values + [EntryOf(row)])];
      GatherShape(before, row);
      assert |records| == |Gather(before, row)|;
      forall k | 0 <= k < |records| ensures records[k] == Gather(before, row)[k] {
        if k == j && j == |before| {
          assert [] + [EntryOf(row)] == [EntryOf(row)];
        }
      }
      GroupingNext(sorted, i);
      i := i + 1;
    }
    assert sorted[..i] == sorted;
  }

  /** When names and record ids pair up, a group's name is the name of every document with its record id. */
  lemma GroupsNamedOnce(rows: seq<ValueRow>, sorted: seq<ValueRow>, groups: seq<Record>)
    requires OneIdPerName(rows) && multiset(sorted) == multiset(rows) && GroupsNamed(groups, sorted)
    ensures forall j, r :: 0 <= j < |groups| && r in rows && r.recordId == groups[j].id ==> r.name == groups[j].name
  {
    forall j, r | 0 <= j < |groups| && r in rows && r.recordId == groups[j].id ensures r.name == groups[j].name {
      var k :| 0 <= k < |sorted| && sorted[k].recordId == groups[j].id && sorted[k].name == groups[j].name;
      assert sorted[k] in multiset(rows);
    }
  }

  /** The documents of a name sorted by field id: all of its documents, their entries in field-id order. */
  lemma FoundRecord(rows: seq<ValueRow>, name: string)
    ensures var found := SortByFieldId(Filter(rows, Named(name)));
            (found == [] ==> forall k :: 0 <= k < |rows| ==> rows[k].name != name) &&
            (found != [] ==>
               found[0].name == name &&
               exists k :: 0 <= k < |rows| && rows[k].name == name && rows[k].recordId == found[0].recordId) &&
            (forall i, j :: 0 <= i < j < |found| ==> AtMostString(Map(found, EntryOf)[i].fieldId, Map(found, EntryOf)[j].fieldId)) &&
            multiset(Map(found, EntryOf)) == multiset(Map(Filter(rows, Named(name)), EntryOf))
  {
    var found := SortByFieldId(Filter(rows, Named(name)));
    if found != [] {
      assert found[0] in multiset(Filter(rows, Named(name)));
    } else {
      assert |Filter(rows, Named(name))| == |multiset(found)| == 0;
    }
    MapPermutation(found, Filter(rows, Named(name)), EntryOf);
  }

  class ValueService {
    /** The values collection, in natural order. */
    var rows: seq<ValueRow>

    /** A record id is never shared by two names (`storeValue` keeps a name's id or mints a fresh one). */
    ghost predicate Valid()
      reads this
    {
      OneIdPerName(rows)
    }

    /** A service over the collection as it is stored. */
    constructor (stored: seq<ValueRow>)
      requires OneIdPerName(stored)
      ensures Valid() && rows == stored
    {
      rows := stored;
    }

    /** `deleteValue(name)`: for a valid name, deletes the record's documents. */
    method DeleteValue(name: string)
      requires Valid()
      modifies this
      ensures Valid()
      ensures rows == if NamePattern(name) then Filter(old(rows), NotNamed(name)) else old(rows)
    {
      if !NamePattern(name) {
        return;
      }
      FilterOneId(rows, NotNamed(name));
      rows := Filter(rows, NotNamed(name));
    }

    /** `deleteValueField(fieldId)`: for a non-empty field id, deletes the documents of that field id. */
    method DeleteValueField(fieldId: string)
      requires Valid()
      modifies this
      ensures Valid()
      ensures rows == if fieldId != "" then Filter(old(rows), NotField(fieldId)) else old(rows)
    {
      if fieldId == "" {
        return;
      }
      FilterOneId(rows, NotField(fieldId));
      rows := Filter(rows, NotField(fieldId));
    }

    /**
     * `getValue(name)`: nothing for an invalid name or a name without
     * documents; otherwise the record, its entries sorted by field id.
     */
    function GetValue(name: string): (r: Option<Record>)
      reads this
      ensures !NamePattern(name) ==> r.None?
      ensures NamePattern(name) && r.None? ==> forall k :: 0 <= k < |rows| ==> rows[k].name != name
      ensures r.Some? ==> r.value.name == name && r.value.values != []
      ensures r.Some? ==> exists k :: 0 <= k < |rows| && rows[k].name == name && rows[k].recordId == r.value.id
      ensures r.Some? ==> forall i, j :: 0 <= i < j < |r.value.values| ==>
                            AtMostString(r.value.values[i].fieldId, r.value.values[j].fieldId)
      ensures r.Some? ==> multiset(r.value.values) == multiset(Map(Filter(rows, Named(name)), EntryOf))
    {
      if !NamePattern(name) then None
      else
        var found := SortByFieldId(Filter(rows, Named(name)));
        FoundRecord(rows, name);
        if found == [] then None
        else Some(Record(found[0].recordId, found[0].name, Map(found, EntryOf)))
    }

    /**
     * `getValues()`: the documents in name and field-id order, grouped by
     * record id; a group is named after its documents' common name.
     */
    method GetValues() returns (records: seq<Record>)
      requires Valid()
      ensures records == Grouping(SortByNameFieldId(rows))
      ensures Groups(records, SortByNameFieldId(rows))
      ensures forall j, r :: 0 <= j < |records| && r in rows && r.recordId == records[j].id ==> r.name == records[j].name
    {
      var sorted := SortByNameFieldId(rows);
      records := GroupRows(sorted);
      GroupingGroups(sorted);
      GroupsNamedOnce(rows, sorted, records);
    }

    /**
     * `storeValue(input)`, with `freshRecordId` and `newId(k)` the
     * `crypto.randomUUID()` results a new record and its k-th document would
     * get: when the guards pass, the record's documents are replaced by one
     * document per submitted entry.
     */
    method StoreValue(input: Value, freshRecordId: string, newId: nat -> string) returns (ok: bool)
      requires Valid() && forall k :: 0 <= k < |rows| ==> rows[k].recordId != freshRecordId
      modifies this
      ensures Valid()
      ensures ok <==> StoreAccepted(input)
      ensures !ok ==> rows == old(rows)
      ensures ok ==> var previous := old(GetValue(InputName(input)));
                     rows == Filter(old(rows), NotNamed(InputName(input))) +
                             Written(previous, if previous.Some? then previous.value.id else freshRecordId,
                                     InputName(input), InputItems(input), newId)
    {
      if !IsObject(input) {
        return false;
      }
      if !(Prop(input, "name").Str? && NamePattern(Prop(input, "name").s)) {
        return false;
      }
      if !(Prop(input, "values").Arr? && |Prop(input, "values").items| > 0 &&
           forall k :: 0 <= k < |InputItems(input)| ==> IsObject(InputItems(input)[k]) && IsNonEmptyString(Prop(InputItems(input)[k], "id"))) {
        return false;
      }
      var name := Prop(input, "name").s;
      var previous := GetValue(name);
      WriteRecord(name, previous, InputItems(input), freshRecordId, newId);
      return true;
    }

    /**
     * The write of `storeValue` once its guards have passed: `deleteValue`
     * of the record, then `insertMany` of its new documents under the
     * previous record id, or the fresh one.
     */
    method WriteRecord(name: string, previous: Option<Record>, items: seq<Value>, freshRecordId: string, newId: nat -> string)
      requires Valid() && NamePattern(name) && previous == GetValue(name)
      requires forall k :: 0 <= k < |rows| ==> rows[k].recordId != freshRecordId
      modifies this
      ensures Valid()
      ensures rows == Filter(old(rows), NotNamed(name)) +
                      Written(previous, if previous.Some? then previous.value.id else freshRecordId, name, items, newId)
    {
      DeleteValue(name);
      var id := if previous.Some? then previous.value.id else freshRecordId;
      var written := Written(previous, id, name, items, newId);
      StoreKeepsOneId(old(rows), name, id, written);
      rows := rows + written;
    }
  }
}

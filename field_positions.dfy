/**
 * The ordering of the fields collection. Every stored field has a numeric
 * `position`; reading the fields sorts them by it, and after a delete or a
 * move the service renumbers them so that the i-th field (from 0) sits at
 * `start + (i + 1) * step`. This module states those renumberings on
 * values; the field service performs them one document update at a time.
 */
module FieldPositions {
  import opened Host
  import opened Fields
  import opened Collections

  /** A document of the fields collection: its `_id`, its `position` and the definition. */
  datatype FieldRow = FieldRow(id: string, position: int, def: Field)

  function IdOf(r: FieldRow): string {
    r.id
  }

  function NameOf(r: FieldRow): string {
    r.def.name
  }

  /** The order of `find().sort({position: 1})`. */
  predicate ByPosition(a: FieldRow, b: FieldRow) {
    a.position <= b.position
  }

  lemma ByPositionTotal()
    ensures IsTotalPreorder(ByPosition)
  {
  }

  /** The collection in position order; fields with equal positions keep their storage order. */
  function SortByPosition(rows: seq<FieldRow>): (r: seq<FieldRow>)
    ensures SortedBy(r, ByPosition) && multiset(r) == multiset(rows) && |r| == |rows|
  {
    ByPositionTotal();
    Sort(rows, ByPosition)
  }

  predicate UniqueIds(rows: seq<FieldRow>) {
    NoDuplicates(Map(rows, IdOf))
  }

  predicate UniqueNames(rows: seq<FieldRow>) {
    NoDuplicates(Map(rows, NameOf))
  }

  /** The position the field at index `i` of the order is given: one step past the previous one, the first one step past `start`. */
  function Target(cfg: Positions, i: nat): int {
    if i == 0 then cfg.start + cfg.step else Target(cfg, i - 1) + cfg.step
  }

  /** The closed form: the field at index `i` sits at `start + (i + 1) * step`. */
  lemma {:induction false} TargetFormula(cfg: Positions, i: nat)
    ensures Target(cfg, i) == cfg.start + (i + 1) * cfg.step
  {
    if i > 0 {
      TargetFormula(cfg, i - 1);
    }
  }

  lemma {:induction false} TargetIncreasing(cfg: Positions, i: nat, j: nat)
    requires i < j
    ensures Target(cfg, i) + cfg.step <= Target(cfg, j)
    decreases j
  {
    if i < j - 1 {
      TargetIncreasing(cfg, i, j - 1);
    }
  }

  /** Every field sits at the position its rank in the order gives it. */
  predicate Dense(cfg: Positions, order: seq<FieldRow>) {
    forall i :: 0 <= i < |order| ==> order[i].position == Target(cfg, i)
  }

  /** `order` with the i-th field moved to `Target(i)`. */
  function Densified(cfg: Positions, order: seq<FieldRow>): (r: seq<FieldRow>)
    ensures |r| == |order| && Dense(cfg, r)
    ensures forall i :: 0 <= i < |r| ==> r[i] == order[i].(position := Target(cfg, i))
  {
    seq(|order|, i requires 0 <= i < |order| => order[i].(position := Target(cfg, i)))
  }

  /** A densified order has no two fields at the same position. */
  lemma DensifiedStrict(cfg: Positions, order: seq<FieldRow>)
    ensures StrictlySortedBy(Densified(cfg, order), ByPosition)
  {
    var d := Densified(cfg, order);
    forall i, j | 0 <= i < j < |d| ensures d[i].position < d[j].position {
      TargetIncreasing(cfg, i, j);
    }
  }

  /** The index of the first field with the given id, or the length when there is none. */
  function IndexOfId(order: seq<FieldRow>, id: string): (k: nat)
    ensures k <= |order|
    ensures k < |order| ==> order[k].id == id
    ensures forall j :: 0 <= j < k ==> order[j].id != id
    decreases |order|
  {
    if order == [] then 0
    else if order[0].id == id then 0
    else 1 + IndexOfId(order[1..], id)
  }

  /** `updateOne({_id: id}, {$set: {position: p}})` applied to one document. */
  function Shifting(id: string, p: int): FieldRow -> FieldRow {
    (r: FieldRow) => if r.id == id then r.(position := p) else r
  }

  /** The collection after `updateOne({_id: id}, {$set: {position: p}})`. */
  function SetPosition(rows: seq<FieldRow>, id: string, p: int): (r: seq<FieldRow>)
    ensures |r| == |rows|
    ensures forall j :: 0 <= j < |rows| ==> r[j] == (if rows[j].id == id then rows[j].(position := p) else rows[j])
  {
    Map(rows, Shifting(id, p))
  }

  /** The renumbering of one document by its rank in `order`, once the first `n` fields of `order` have been renumbered. */
  function Renumbering(cfg: Positions, order: seq<FieldRow>, n: nat): FieldRow -> FieldRow {
    (r: FieldRow) => if IndexOfId(order, r.id) < n then r.(position := Target(cfg, IndexOfId(order, r.id))) else r
  }

  /** `#repositionFields`: every field moves to the position of its rank in position order. */
  function Repositioned(cfg: Positions, rows: seq<FieldRow>): seq<FieldRow> {
    Map(rows, Renumbering(cfg, SortByPosition(rows), |rows|))
  }

  /** The ids `#repositionFields` issues an update for, in order: those of the first `k` fields whose position differs from their target. */
  function Changed(cfg: Positions, order: seq<FieldRow>, k: nat): (r: seq<string>)
    requires k <= |order|
    ensures |r| <= k
    ensures forall id :: id in r ==> exists i :: 0 <= i < k && order[i].id == id && order[i].position != Target(cfg, i)
  {
    if k == 0 then []
    else if order[k - 1].position != Target(cfg, k - 1) then Changed(cfg, order, k - 1) + [order[k - 1].id]
    else Changed(cfg, order, k - 1)
  }

  /** Reordering a collection keeps its ids unique. */
  lemma PermutedUniqueIds(rows: seq<FieldRow>, order: seq<FieldRow>)
    requires UniqueIds(rows) && multiset(order) == multiset(rows)
    ensures UniqueIds(order)
  {
    MapPermutation(rows, order, IdOf);
    NoDuplicatesPermutation(Map(rows, IdOf), Map(order, IdOf));
  }

  /** The sorted copy of a collection with unique ids has unique ids. */
  lemma SortedUniqueIds(rows: seq<FieldRow>)
    requires UniqueIds(rows)
    ensures UniqueIds(SortByPosition(rows))
  {
    PermutedUniqueIds(rows, SortByPosition(rows));
  }

  /** In a permutation of a collection with unique ids, a document's id finds the document itself. */
  lemma IndexOfMember(rows: seq<FieldRow>, order: seq<FieldRow>, r: FieldRow)
    requires UniqueIds(rows) && multiset(order) == multiset(rows) && r in rows
    ensures IndexOfId(order, r.id) < |order| && order[IndexOfId(order, r.id)] == r
  {
    PermutedUniqueIds(rows, order);
    assert r in multiset(order);
    var k :| 0 <= k < |order| && order[k] == r;
    IndexOfRank(order, k);
  }

  /** The id of the field at rank `i` leads back to rank `i`. */
  lemma IndexOfRank(order: seq<FieldRow>, i: nat)
    requires UniqueIds(order) && i < |order|
    ensures IndexOfId(order, order[i].id) == i
  {
    var m := IndexOfId(order, order[i].id);
    assert Map(order, IdOf)[m] == Map(order, IdOf)[i];
  }

  /** A function that leaves the id alone keeps the ids, and their uniqueness. */
  lemma KeepsIds(rows: seq<FieldRow>, g: FieldRow -> FieldRow)
    requires forall r :: g(r).id == r.id && g(r).def == r.def
    ensures Map(Map(rows, g), IdOf) == Map(rows, IdOf)
    ensures Map(Map(rows, g), NameOf) == Map(rows, NameOf)
  {
  }

  /**
   * After `#repositionFields` the fields are in the order they were in,
   * and the i-th one sits at `start + (i + 1) * step`.
   */
  lemma RepositionDense(cfg: Positions, rows: seq<FieldRow>)
    requires UniqueIds(rows)
    ensures SortByPosition(Repositioned(cfg, rows)) == Densified(cfg, SortByPosition(rows))
  {
    var order := SortByPosition(rows);
    var g := Renumbering(cfg, order, |rows|);
    SortedUniqueIds(rows);
    forall i | 0 <= i < |order| ensures Map(order, g)[i] == Densified(cfg, order)[i] {
      IndexOfRank(order, i);
    }
    assert Map(order, g) == Densified(cfg, order);
    MapPermutation(rows, order, g);
    DensifiedStrict(cfg, order);
    SortedUnique(SortByPosition(Repositioned(cfg, rows)), Densified(cfg, order), ByPosition);
  }

  /** Before the loop of `#repositionFields` nothing is renumbered. */
  lemma RenumberNone(cfg: Positions, rows: seq<FieldRow>, order: seq<FieldRow>)
    ensures Map(rows, Renumbering(cfg, order, 0)) == rows
  {
  }

  /** Step i - 1 of `#repositionFields`: `updateOne` of that field to `Target(i - 1)` renumbers one more field. */
  lemma RenumberWrite(cfg: Positions, rows: seq<FieldRow>, order: seq<FieldRow>, i: nat)
    requires UniqueIds(order) && 0 < i <= |order|
    ensures Map(rows, Renumbering(cfg, order, i)) == SetPosition(Map(rows, Renumbering(cfg, order, i - 1)), order[i - 1].id, Target(cfg, i - 1))
  {
    var before, after := Map(rows, Renumbering(cfg, order, i - 1)), Map(rows, Renumbering(cfg, order, i));
    forall j | 0 <= j < |rows|
      ensures after[j] == SetPosition(before, order[i - 1].id, Target(cfg, i - 1))[j]
    {
      RenumberRow(cfg, order, i, rows[j]);
    }
  }

  /** For one field: renumbering one rank further moves exactly the field of that rank. */
  lemma RenumberRow(cfg: Positions, order: seq<FieldRow>, i: nat, r: FieldRow)
    requires UniqueIds(order) && 0 < i <= |order|
    ensures Renumbering(cfg, order, i)(r) == Shifting(order[i - 1].id, Target(cfg, i - 1))(Renumbering(cfg, order, i - 1)(r))
  {
    IndexOfRank(order, i - 1);
  }

  /** Step i - 1 of `#repositionFields` when that field already sits at `Target(i - 1)`: skipping the update renumbers it too. */
  lemma RenumberSkip(cfg: Positions, rows: seq<FieldRow>, order: seq<FieldRow>, i: nat)
    requires UniqueIds(rows) && multiset(order) == multiset(rows)
    requires 0 < i <= |order| && order[i - 1].position == Target(cfg, i - 1)
    ensures Map(rows, Renumbering(cfg, order, i)) == Map(rows, Renumbering(cfg, order, i - 1))
  {
    forall j | 0 <= j < |rows| && IndexOfId(order, rows[j].id) == i - 1
      ensures rows[j].(position := Target(cfg, i - 1)) == rows[j]
    {
      IndexOfMember(rows, order, rows[j]);
    }
  }

  /**
   * The collection after the first `i` steps of the `#repositionFields` loop
   * over `order`: step k writes `Target(k)` to the k-th field unless it was
   * read at that position.
   */
  function Renumbered(cfg: Positions, rows: seq<FieldRow>, order: seq<FieldRow>, i: nat): seq<FieldRow>
    requires i <= |order|
  {
    if i == 0 then rows
    else if order[i - 1].position == Target(cfg, i - 1) then Renumbered(cfg, rows, order, i - 1)
    else SetPosition(Renumbered(cfg, rows, order, i - 1), order[i - 1].id, Target(cfg, i - 1))
  }

  /** The loop renumbers by rank: after `i` steps, the first `i` fields of `order` sit at their targets and no other moved. */
  lemma {:induction false} RenumberedByRank(cfg: Positions, rows: seq<FieldRow>, order: seq<FieldRow>, i: nat)
    requires UniqueIds(rows) && multiset(order) == multiset(rows) && i <= |order|
    ensures Renumbered(cfg, rows, order, i) == Map(rows, Renumbering(cfg, order, i))
  {
    if i == 0 {
      RenumberNone(cfg, rows, order);
    } else {
      RenumberedByRank(cfg, rows, order, i - 1);
      RenumberedRankStep(cfg, rows, order, i);
    }
  }

  /** One step of the loop keeps the renumbered fields equal to the renumbering by rank. */
  lemma RenumberedRankStep(cfg: Positions, rows: seq<FieldRow>, order: seq<FieldRow>, i: nat)
    requires UniqueIds(rows) && multiset(order) == multiset(rows) && 0 < i <= |order|
    requires Renumbered(cfg, rows, order, i - 1) == Map(rows, Renumbering(cfg, order, i - 1))
    ensures Renumbered(cfg, rows, order, i) == Map(rows, Renumbering(cfg, order, i))
  {
    if order[i - 1].position == Target(cfg, i - 1) {
      RenumberSkip(cfg, rows, order, i);
    } else {
      PermutedUniqueIds(rows, order);
      RenumberWrite(cfg, rows, order, i);
    }
  }


  /** The whole loop over the fields in position order yields the renumbering by rank. */
  lemma RenumberedAll(cfg: Positions, rows: seq<FieldRow>)
    requires UniqueIds(rows)
    ensures Renumbered(cfg, rows, SortByPosition(rows), |rows|) == Repositioned(cfg, rows)
  {
    RenumberedByRank(cfg, rows, SortByPosition(rows), |rows|);
  }

  /**
   * The state of a renumbering loop over `order` after `k` steps: `position`
   * is the last target issued, `current` the collection and `written` the
   * ids updated so far.
   */
  predicate RunState(cfg: Positions, rows: seq<FieldRow>, order: seq<FieldRow>, k: nat,
                     current: seq<FieldRow>, written: seq<string>, position: int)
    requires k <= |order|
  {
    position + cfg.step == Target(cfg, k) &&
    current == Renumbered(cfg, rows, order, k) &&
    written == Changed(cfg, order, k)
  }

  /** One step of the loop: advance the position, and move the next field there unless it already sits there. */
  lemma RunNext(cfg: Positions, rows: seq<FieldRow>, order: seq<FieldRow>, k: nat,
                current: seq<FieldRow>, written: seq<string>, position: int)
    requires k < |order| && RunState(cfg, rows, order, k, current, written, position)
    ensures var f, p := order[k], position + cfg.step;
            if p != f.position then RunState(cfg, rows, order, k + 1, SetPosition(current, f.id, p), written + [f.id], p)
            else RunState(cfg, rows, order, k + 1, current, written, p)
  {
  }

  /** Renumbering fields that are already dense changes nothing and issues no update. */
  lemma RepositionIdempotent(cfg: Positions, rows: seq<FieldRow>)
    requires UniqueIds(rows) && Dense(cfg, SortByPosition(rows))
    ensures Repositioned(cfg, rows) == rows
    ensures Changed(cfg, SortByPosition(rows), |rows|) == []
  {
    var order := SortByPosition(rows);
    forall j | 0 <= j < |rows| ensures Repositioned(cfg, rows)[j] == rows[j] {
      IndexOfMember(rows, order, rows[j]);
    }
    NoneChanged(cfg, order, |rows|);
  }

  lemma {:induction false} NoneChanged(cfg: Positions, order: seq<FieldRow>, k: nat)
    requires k <= |order| && Dense(cfg, order)
    ensures Changed(cfg, order, k) == []
  {
    if k > 0 {
      NoneChanged(cfg, order, k - 1);
    }
  }

  /** Renumbering keeps every id, name and definition; only positions change. */
  lemma RepositionKeepsFields(cfg: Positions, rows: seq<FieldRow>)
    ensures Map(Repositioned(cfg, rows), IdOf) == Map(rows, IdOf)
    ensures Map(Repositioned(cfg, rows), NameOf) == Map(rows, NameOf)
  {
    KeepsIds(rows, Renumbering(cfg, SortByPosition(rows), |rows|));
  }

  /** Renumbering moves each field in place and keeps its id and definition. */
  lemma RepositionedAt(cfg: Positions, rows: seq<FieldRow>, j: nat)
    requires j < |rows|
    ensures |Repositioned(cfg, rows)| == |rows|
    ensures Repositioned(cfg, rows)[j].id == rows[j].id && Repositioned(cfg, rows)[j].def == rows[j].def
  {
  }

  /** `findOne({name})` and `fields.find(field => field.name === name)`: the first field with that name. */
  function FindByName(rows: seq<FieldRow>, name: string): (r: Option<FieldRow>)
    ensures r.Some? ==> r.value in rows && r.value.def.name == name
    ensures r.None? ==> forall j :: 0 <= j < |rows| ==> rows[j].def.name != name
    decreases |rows|
  {
    if rows == [] then None
    else if rows[0].def.name == name then Some(rows[0])
    else FindByName(rows[1..], name)
  }

  /** With unique names, the field a name finds is the only one carrying it. */
  lemma FindUnique(rows: seq<FieldRow>, j: nat)
    requires UniqueNames(rows) && j < |rows|
    ensures FindByName(rows, rows[j].def.name) == Some(rows[j])
  {
    SameName(rows, FindByName(rows, rows[j].def.name).value, j);
  }

  /** The sorted copy of a collection with unique names has unique names. */
  lemma SortedUniqueNames(rows: seq<FieldRow>)
    requires UniqueNames(rows)
    ensures UniqueNames(SortByPosition(rows))
  {
    MapPermutation(rows, SortByPosition(rows), NameOf);
    NoDuplicatesPermutation(Map(rows, NameOf), Map(SortByPosition(rows), NameOf));
  }

  // ---------------------------------------------------------------- #nextPosition

  /** The largest position, or nothing for an empty collection. */
  function Highest(rows: seq<FieldRow>): (h: Option<int>)
    ensures h.None? <==> rows == []
    ensures h.Some? ==> forall k :: 0 <= k < |rows| ==> rows[k].position <= h.value
    ensures h.Some? ==> exists k :: 0 <= k < |rows| && rows[k].position == h.value
    decreases |rows|
  {
    if rows == [] then None
    else
      var rest := Highest(rows[1..]);
      if rest.None? || rest.value <= rows[0].position then Some(rows[0].position)
      else
        assert exists k :: 1 <= k < |rows| && rows[k].position == rest.value by {
          var k :| 0 <= k < |rows[1..]| && rows[1..][k].position == rest.value;
          assert rows[k + 1].position == rest.value;
        }
        rest
  }

  /**
   * `#nextPosition`: the position of the first field of a descending sort,
   * or `start` when there is none, plus one step. It lies a step above every
   * stored position.
   */
  function NextPosition(cfg: Positions, rows: seq<FieldRow>): (p: int)
    ensures forall k :: 0 <= k < |rows| ==> rows[k].position + cfg.step <= p
    ensures rows == [] ==> p == cfg.start + cfg.step
    ensures rows != [] ==> exists k :: 0 <= k < |rows| && rows[k].position + cfg.step == p
  {
    match Highest(rows)
    case None => cfg.start + cfg.step
    case Some(h) => h + cfg.step
  }

  /** With the fields dense, the next position is the target of the next rank. */
  lemma NextTarget(cfg: Positions, rows: seq<FieldRow>, order: seq<FieldRow>)
    requires order == SortByPosition(rows) && Dense(cfg, order)
    ensures NextPosition(cfg, rows) == Target(cfg, |order|)
  {
    var n := |order|;
    if n > 0 {
      var k :| 0 <= k < |rows| && rows[k].position + cfg.step == NextPosition(cfg, rows);
      DenseAtMostLast(cfg, rows, order, rows[k]);
      assert order[n - 1] in multiset(rows);
      var j :| 0 <= j < |rows| && rows[j] == order[n - 1];
      assert rows[j].position + cfg.step <= NextPosition(cfg, rows);
    }
  }

  /** No member of a dense ordering of the fields sits above the last target. */
  lemma DenseAtMostLast(cfg: Positions, rows: seq<FieldRow>, order: seq<FieldRow>, r: FieldRow)
    requires multiset(order) == multiset(rows) && Dense(cfg, order) && r in rows
    ensures r in order && r.position <= Target(cfg, |order| - 1)
  {
    assert r in multiset(order);
    var m :| 0 <= m < |order| && order[m] == r;
    if m < |order| - 1 {
      TargetIncreasing(cfg, m, |order| - 1);
    }
  }

  /**
   * A field stored at the next position of dense fields is sorted last, and
   * the fields stay dense.
   */
  lemma AppendDense(cfg: Positions, rows: seq<FieldRow>, x: FieldRow)
    requires Dense(cfg, SortByPosition(rows)) && x.position == NextPosition(cfg, rows)
    ensures SortByPosition(rows + [x]) == SortByPosition(rows) + [x]
    ensures Dense(cfg, SortByPosition(rows + [x]))
  {
    var order := SortByPosition(rows);
    NextTarget(cfg, rows, order);
    var t := order + [x];
    assert Dense(cfg, t);
    DenseFixed(cfg, t);
    DensifiedStrict(cfg, t);
    SortedUnique(SortByPosition(rows + [x]), t, ByPosition);
  }

  // ---------------------------------------------------------------- setFieldPositions

  /**
   * The guards of `setFieldPositions`: a non-empty list of valid field names,
   * as many as there are fields, each naming a stored field. Repeated names
   * are not rejected.
   */
  predicate PositionsAccepted(cfg: Positions, rows: seq<FieldRow>, names: seq<string>) {
    names != [] &&
    (forall k :: 0 <= k < |names| ==> cfg.fieldNamePattern(names[k])) &&
    |names| == |rows| &&
    AllFound(rows, names)
  }

  /**
   * The position a field has after the first `|names|` steps of the
   * `setFieldPositions` loop. Step k gives the field named `names[k]` the
   * position `Target(k)` unless that equals the position the field had when
   * the fields were read (`r.position`); the last step that writes wins.
   */
  function Assigned(cfg: Positions, names: seq<string>, r: FieldRow): int
    decreases |names|
  {
    if names == [] then r.position
    else
      var k := |names| - 1;
      if names[k] == r.def.name && Target(cfg, k) != r.position then Target(cfg, k)
      else Assigned(cfg, names[..k], r)
  }

  function Assigning(cfg: Positions, names: seq<string>): FieldRow -> FieldRow {
    (r: FieldRow) => r.(position := Assigned(cfg, names, r))
  }

  /** The collection after a `setFieldPositions(names)` that passed its guards. */
  function Arranged(cfg: Positions, rows: seq<FieldRow>, names: seq<string>): seq<FieldRow> {
    Map(rows, Assigning(cfg, names))
  }

  /** Every name of the list names a stored field. */
  predicate AllFound(rows: seq<FieldRow>, names: seq<string>) {
    forall k :: 0 <= k < |names| ==> FindByName(rows, names[k]).Some?
  }

  /**
   * The fields the `setFieldPositions` loop visits, in order: for each name
   * of the list, the field carrying it (repeated names visit a field twice).
   */
  function Picked(rows: seq<FieldRow>, names: seq<string>): (r: seq<FieldRow>)
    requires AllFound(rows, names)
    ensures |r| == |names|
    ensures forall k :: 0 <= k < |r| ==> r[k] in rows && r[k].def.name == names[k]
    ensures forall k :: 0 <= k < |r| ==> r[k] == FindByName(rows, names[k]).value
  {
    seq(|names|, k requires 0 <= k < |names| => FindByName(rows, names[k]).value)
  }

  /** Among documents with distinct ids, the one carrying a member's id is that member. */
  lemma SameId(rows: seq<FieldRow>, f: FieldRow, j: nat)
    requires UniqueIds(rows) && f in rows && j < |rows| && rows[j].id == f.id
    ensures rows[j] == f
  {
    var i :| 0 <= i < |rows| && rows[i] == f;
    assert Map(rows, IdOf)[i] == Map(rows, IdOf)[j];
  }

  /** Among documents with distinct names, the one carrying a member's name is that member. */
  lemma SameName(rows: seq<FieldRow>, f: FieldRow, j: nat)
    requires UniqueNames(rows) && f in rows && j < |rows| && rows[j].def.name == f.def.name
    ensures rows[j] == f
  {
    var i :| 0 <= i < |rows| && rows[i] == f;
    assert Map(rows, NameOf)[i] == Map(rows, NameOf)[j];
  }

  /** Step k of the loop, for one field: it moves only the field named `names[k]`, and only off `Target(k)`. */
  lemma AssignedStep(cfg: Positions, names: seq<string>, k: nat, r: FieldRow)
    requires k < |names|
    ensures Assigned(cfg, names[..k + 1], r) ==
            if names[k] == r.def.name && Target(cfg, k) != r.position then Target(cfg, k) else Assigned(cfg, names[..k], r)
  {
    assert names[..k + 1][..k] == names[..k];
  }

  /**
   * Step k of `setFieldPositions`, with `f` the field named `names[k]` in the
   * fields as read: when `Target(k)` differs from the position `f` was read
   * with, `updateOne` moves `f` there.
   */
  lemma ArrangeWrite(cfg: Positions, rows: seq<FieldRow>, names: seq<string>, k: nat, f: FieldRow)
    requires UniqueIds(rows) && UniqueNames(rows) && f in rows
    requires k < |names| && f.def.name == names[k] && Target(cfg, k) != f.position
    ensures Arranged(cfg, rows, names[..k + 1]) == SetPosition(Arranged(cfg, rows, names[..k]), f.id, Target(cfg, k))
  {
    forall j | 0 <= j < |rows|
      ensures Arranged(cfg, rows, names[..k + 1])[j] == SetPosition(Arranged(cfg, rows, names[..k]), f.id, Target(cfg, k))[j]
    {
      AssignedStep(cfg, names, k, rows[j]);
      if rows[j].id == f.id {
        SameId(rows, f, j);
      } else if rows[j].def.name == f.def.name {
        SameName(rows, f, j);
      }
    }
  }

  /** Step k of `setFieldPositions` when `f` was read at `Target(k)`: the update is skipped and nothing changes. */
  lemma ArrangeSkip(cfg: Positions, rows: seq<FieldRow>, names: seq<string>, k: nat, f: FieldRow)
    requires UniqueNames(rows) && f in rows
    requires k < |names| && f.def.name == names[k] && Target(cfg, k) == f.position
    ensures Arranged(cfg, rows, names[..k + 1]) == Arranged(cfg, rows, names[..k])
  {
    forall j | 0 <= j < |rows|
      ensures Arranged(cfg, rows, names[..k + 1])[j] == Arranged(cfg, rows, names[..k])[j]
    {
      AssignedStep(cfg, names, k, rows[j]);
      if rows[j].def.name == f.def.name {
        SameName(rows, f, j);
      }
    }
  }

  /**
   * The loop assigns by name: renumbering the picked fields one step at a
   * time, as `setFieldPositions` does, gives after `k` steps each field the
   * position the last step naming it gave.
   */
  lemma {:induction false} RenumberedByName(cfg: Positions, rows: seq<FieldRow>, order: seq<FieldRow>, names: seq<string>, k: nat)
    requires UniqueIds(rows) && UniqueNames(rows) && |order| == |names| && k <= |names|
    requires forall m :: 0 <= m < |order| ==> order[m] in rows && order[m].def.name == names[m]
    ensures Renumbered(cfg, rows, order, k) == Arranged(cfg, rows, names[..k])
  {
    if k == 0 {
      assert names[..0] == [];
      ArrangedNone(cfg, rows);
    } else {
      RenumberedByName(cfg, rows, order, names, k - 1);
      RenumberedStep(cfg, rows, order, names, k);
    }
  }

  /** An empty list assigns nothing. */
  lemma ArrangedNone(cfg: Positions, rows: seq<FieldRow>)
    ensures Arranged(cfg, rows, []) == rows
  {
  }

  /** One step of the loop keeps the renumbered fields equal to the assignment by name. */
  lemma RenumberedStep(cfg: Positions, rows: seq<FieldRow>, order: seq<FieldRow>, names: seq<string>, k: nat)
    requires UniqueIds(rows) && UniqueNames(rows) && |order| == |names| && 0 < k <= |names|
    requires order[k - 1] in rows && order[k - 1].def.name == names[k - 1]
    requires Renumbered(cfg, rows, order, k - 1) == Arranged(cfg, rows, names[..k - 1])
    ensures Renumbered(cfg, rows, order, k) == Arranged(cfg, rows, names[..k])
  {
    if Target(cfg, k - 1) != order[k - 1].position {
      ArrangeWrite(cfg, rows, names, k - 1, order[k - 1]);
    } else {
      ArrangeSkip(cfg, rows, names, k - 1, order[k - 1]);
    }
  }

  /** The whole loop over a list that names stored fields yields the assignment by name. */
  lemma PickedAll(cfg: Positions, rows: seq<FieldRow>, names: seq<string>)
    requires UniqueIds(rows) && UniqueNames(rows) && AllFound(rows, names)
    ensures Renumbered(cfg, rows, Picked(rows, names), |names|) == Arranged(cfg, rows, names)
  {
    RenumberedByName(cfg, rows, Picked(rows, names), names, |names|);
    assert names[..|names|] == names;
  }

  /** With unique names, a reordering of the fields finds the same field by name as the fields themselves. */
  lemma FindSame(rows: seq<FieldRow>, order: seq<FieldRow>, name: string)
    requires UniqueNames(rows) && multiset(order) == multiset(rows)
    ensures FindByName(order, name) == FindByName(rows, name)
  {
    if FindByName(rows, name).None? {
      forall j | 0 <= j < |order| ensures order[j].def.name != name {
        assert order[j] in multiset(rows);
      }
    } else {
      var g := FindByName(rows, name).value;
      assert g in multiset(order);
      var i :| 0 <= i < |order| && order[i] == g;
      var f := FindByName(order, name).value;
      assert f in multiset(rows);
      var j :| 0 <= j < |rows| && rows[j] == f;
      FindUnique(rows, j);
    }
  }

  /** A field the list does not name keeps its position. */
  lemma {:induction false} AssignedAbsent(cfg: Positions, names: seq<string>, r: FieldRow)
    requires r.def.name !in names
    ensures Assigned(cfg, names, r) == r.position
    decreases |names|
  {
    if names != [] {
      AssignedAbsent(cfg, names[..|names| - 1], r);
    }
  }

  /** A field the list names exactly once, at index k, ends at `Target(k)`. */
  lemma {:induction false} AssignedOnce(cfg: Positions, names: seq<string>, r: FieldRow, k: nat)
    requires k < |names| && names[k] == r.def.name
    requires forall m :: 0 <= m < |names| && m != k ==> names[m] != r.def.name
    ensures Assigned(cfg, names, r) == Target(cfg, k)
    decreases |names|
  {
    var last := |names| - 1;
    if k < last {
      AssignedOnce(cfg, names[..last], r, k);
    } else {
      AssignedAbsent(cfg, names[..last], r);
    }
  }

  /**
   * When the names are distinct, the field named at index k of the list ends
   * at `start + (k + 1) * step`: the fields take the order of the list, and
   * no two of them share a position.
   */
  lemma ArrangedOrder(cfg: Positions, rows: seq<FieldRow>, names: seq<string>)
    requires NoDuplicates(names)
    ensures forall j, k :: 0 <= j < |rows| && 0 <= k < |names| && rows[j].def.name == names[k] ==>
              Arranged(cfg, rows, names)[j].position == Target(cfg, k)
    ensures forall j :: 0 <= j < |rows| && rows[j].def.name !in names ==> Arranged(cfg, rows, names)[j] == rows[j]
  {
    forall j, k | 0 <= j < |rows| && 0 <= k < |names| && rows[j].def.name == names[k]
      ensures Arranged(cfg, rows, names)[j].position == Target(cfg, k)
    {
      AssignedOnce(cfg, names, rows[j], k);
    }
    forall j | 0 <= j < |rows| && rows[j].def.name !in names
      ensures Arranged(cfg, rows, names)[j] == rows[j]
    {
      AssignedAbsent(cfg, names, rows[j]);
    }
  }

  /** One step of the `setFieldPositions` loop: the field the next name finds is the next picked field. */
  lemma PickedNext(cfg: Positions, rows: seq<FieldRow>, fields: seq<FieldRow>, names: seq<string>, k: nat,
                   current: seq<FieldRow>, written: seq<string>, position: int)
    requires AllFound(fields, names) && k < |names|
    requires RunState(cfg, rows, Picked(fields, names), k, current, written, position)
    ensures var f, p := FindByName(fields, names[k]).value, position + cfg.step;
            if p != f.position then RunState(cfg, rows, Picked(fields, names), k + 1, SetPosition(current, f.id, p), written + [f.id], p)
            else RunState(cfg, rows, Picked(fields, names), k + 1, current, written, p)
  {
    assert FindByName(fields, names[k]).value == Picked(fields, names)[k];
    RunNext(cfg, rows, Picked(fields, names), k, current, written, position);
  }

  /** A reordering of fields with unique names finds every name as the fields do, and picks the same fields. */
  lemma PickedSame(rows: seq<FieldRow>, order: seq<FieldRow>, names: seq<string>)
    requires UniqueNames(rows) && multiset(order) == multiset(rows)
    ensures AllFound(order, names) <==> AllFound(rows, names)
    ensures AllFound(rows, names) ==> Picked(order, names) == Picked(rows, names)
  {
    forall k | 0 <= k < |names| ensures FindByName(order, names[k]) == FindByName(rows, names[k]) {
      FindSame(rows, order, names[k]);
    }
  }

  /**
   * Sending the fields' own order back when they are already dense changes
   * nothing and issues no update: every name finds its own field, and each
   * of them already sits at its target.
   */
  lemma ArrangedIdempotent(cfg: Positions, rows: seq<FieldRow>, order: seq<FieldRow>)
    requires order == SortByPosition(rows)
    requires UniqueIds(rows) && UniqueNames(rows) && Dense(cfg, order)
    ensures Arranged(cfg, rows, Map(order, NameOf)) == rows
    ensures AllFound(rows, Map(order, NameOf)) && Changed(cfg, Picked(rows, Map(order, NameOf)), |order|) == []
  {
    var names := Map(order, NameOf);
    SortedUniqueNames(rows);
    forall j | 0 <= j < |rows| ensures Arranged(cfg, rows, names)[j] == rows[j] {
      DenseRowKept(cfg, rows, order, j);
    }
    forall k | 0 <= k < |names| ensures FindByName(rows, names[k]) == Some(order[k]) {
      FindSame(rows, order, names[k]);
      FindUnique(order, k);
    }
    assert Picked(rows, names) == order;
    NoneChanged(cfg, order, |order|);
  }

  /** A field of a dense order, named at its own rank, keeps its position. */
  lemma DenseRowKept(cfg: Positions, rows: seq<FieldRow>, order: seq<FieldRow>, j: nat)
    requires order == SortByPosition(rows)
    requires UniqueIds(rows) && UniqueNames(order) && Dense(cfg, order) && j < |rows|
    ensures Assigned(cfg, Map(order, NameOf), rows[j]) == rows[j].position
  {
    var names := Map(order, NameOf);
    IndexOfMember(rows, order, rows[j]);
    var k := IndexOfId(order, rows[j].id);
    forall m | 0 <= m < |names| && m != k ensures names[m] != rows[j].def.name {
      assert names[m] != names[k];
    }
    AssignedOnce(cfg, names, rows[j], k);
  }

  /**
   * A repeated name passes the guards, and can leave two fields at one
   * position: with `a` at `Target(0)` and `b` at `Target(1)`, the list
   * `[a, a]` moves `a` onto `b`'s position.
   */
  lemma RepeatedNameSharesPosition(cfg: Positions, a: Field, b: Field)
    requires a.name != b.name && cfg.fieldNamePattern(a.name)
    ensures var rows := [FieldRow("1", Target(cfg, 0), a), FieldRow("2", Target(cfg, 1), b)];
            var names := [a.name, a.name];
            PositionsAccepted(cfg, rows, names) &&
            Arranged(cfg, rows, names)[0].position == Arranged(cfg, rows, names)[1].position
  {
    var rows := [FieldRow("1", Target(cfg, 0), a), FieldRow("2", Target(cfg, 1), b)];
    var names := [a.name, a.name];
    TargetIncreasing(cfg, 0, 1);
    assert names[..1] == [a.name];
    assert Assigned(cfg, names, rows[0]) == Target(cfg, 1);
    AssignedAbsent(cfg, names, rows[1]);
  }

  // ---------------------------------------------------------------- moveFieldUp / moveFieldDown

  /**
   * When shifting one field makes a reordering `s` of the fields strictly
   * sorted, the renumbered fields come out in the order of `s`.
   */
  lemma ShiftedOrder(cfg: Positions, rows: seq<FieldRow>, id: string, p: int, s: seq<FieldRow>)
    requires UniqueIds(rows) && multiset(s) == multiset(rows)
    requires StrictlySortedBy(Map(s, Shifting(id, p)), ByPosition)
    ensures SortByPosition(Repositioned(cfg, SetPosition(rows, id, p))) == Densified(cfg, s)
  {
    ShiftSorted(rows, id, p, s);
    ShiftKeepsIds(rows, id, p);
    RepositionDense(cfg, SetPosition(rows, id, p));
    DensifiedShift(cfg, s, id, p);
  }

  /** A shift that leaves no ties sorts the collection into the shifted reordering. */
  lemma ShiftSorted(rows: seq<FieldRow>, id: string, p: int, s: seq<FieldRow>)
    requires multiset(s) == multiset(rows)
    requires StrictlySortedBy(Map(s, Shifting(id, p)), ByPosition)
    ensures SortByPosition(SetPosition(rows, id, p)) == Map(s, Shifting(id, p))
  {
    MapPermutation(s, rows, Shifting(id, p));
    SortedUnique(SortByPosition(SetPosition(rows, id, p)), Map(s, Shifting(id, p)), ByPosition);
  }

  /** Changing a position keeps the ids and the names. */
  lemma ShiftKeepsIds(rows: seq<FieldRow>, id: string, p: int)
    ensures Map(SetPosition(rows, id, p), IdOf) == Map(rows, IdOf)
    ensures Map(SetPosition(rows, id, p), NameOf) == Map(rows, NameOf)
  {
    KeepsIds(rows, Shifting(id, p));
  }

  /** Renumbering forgets the positions it overwrites. */
  lemma DensifiedShift(cfg: Positions, s: seq<FieldRow>, id: string, p: int)
    ensures Densified(cfg, Map(s, Shifting(id, p))) == Densified(cfg, s)
  {
    assert forall i :: 0 <= i < |s| ==> Densified(cfg, Map(s, Shifting(id, p)))[i] == Densified(cfg, s)[i];
  }

  /** Positions that increase from each field to the next increase throughout. */
  lemma {:induction false} AdjacentStrict(t: seq<FieldRow>)
    requires forall k :: 0 <= k < |t| - 1 ==> t[k].position < t[k + 1].position
    ensures StrictlySortedBy(t, ByPosition)
    decreases |t|
  {
    if t != [] {
      AdjacentStrict(t[1..]);
      forall b | 0 < b < |t| ensures t[0].position < t[b].position {
        assert t[0].position < t[1].position;
        if b > 1 {
          assert t[1..][0].position < t[1..][b - 1].position;
        }
      }
    }
  }

  /** The field at rank i of a dense order is found by its name and id. */
  lemma RankedField(rows: seq<FieldRow>, i: nat)
    requires UniqueIds(rows) && UniqueNames(rows) && i < |rows|
    ensures FindByName(rows, SortByPosition(rows)[i].def.name) == Some(SortByPosition(rows)[i])
    ensures forall k :: 0 <= k < |rows| && k != i ==> SortByPosition(rows)[k].id != SortByPosition(rows)[i].id
  {
    var order := SortByPosition(rows);
    assert order[i] in multiset(rows);
    var j :| 0 <= j < |rows| && rows[j] == order[i];
    FindUnique(rows, j);
    SortedUniqueIds(rows);
    forall k | 0 <= k < |rows| && k != i ensures order[k].id != order[i].id {
      assert Map(order, IdOf)[k] != Map(order, IdOf)[i];
    }
  }

  /** The position `moveFieldUp` gives a field: one step and one move before its own. */
  function UpPosition(cfg: Positions, f: FieldRow): int {
    f.position - cfg.step - cfg.move
  }

  /** The position `moveFieldDown` gives a field: one step and one move past its own. */
  function DownPosition(cfg: Positions, f: FieldRow): int {
    f.position + cfg.step + cfg.move
  }

  /** Once renumbered, a dense order is its own renumbering. */
  lemma DenseFixed(cfg: Positions, order: seq<FieldRow>)
    requires Dense(cfg, order)
    ensures Densified(cfg, order) == order
  {
    assert forall k :: 0 <= k < |order| ==> Densified(cfg, order)[k] == order[k];
  }

  /** Pulling the field at rank i > 0 of a dense order below the previous target leaves it strictly before its predecessor. */
  lemma SwapUpStrict(cfg: Positions, order: seq<FieldRow>, i: nat, p: int)
    requires Dense(cfg, order) && 0 < i < |order| && 0 < cfg.move < cfg.step
    requires forall k :: 0 <= k < |order| && k != i ==> order[k].id != order[i].id
    requires p == UpPosition(cfg, order[i])
    ensures StrictlySortedBy(Map(Swap(order, i - 1, i), Shifting(order[i].id, p)), ByPosition)
  {
    var t := Map(Swap(order, i - 1, i), Shifting(order[i].id, p));
    forall k | 0 <= k < |t| - 1 ensures t[k].position < t[k + 1].position {
      TargetIncreasing(cfg, k, k + 1);
    }
    AdjacentStrict(t);
  }

  /** Pushing the field at rank i < last of a dense order above the next target leaves it strictly after its successor. */
  lemma SwapDownStrict(cfg: Positions, order: seq<FieldRow>, i: nat, p: int)
    requires Dense(cfg, order) && i + 1 < |order| && 0 < cfg.move < cfg.step
    requires forall k :: 0 <= k < |order| && k != i ==> order[k].id != order[i].id
    requires p == DownPosition(cfg, order[i])
    ensures StrictlySortedBy(Map(Swap(order, i, i + 1), Shifting(order[i].id, p)), ByPosition)
  {
    var t := Map(Swap(order, i, i + 1), Shifting(order[i].id, p));
    forall k | 0 <= k < |t| - 1 ensures t[k].position < t[k + 1].position {
      TargetIncreasing(cfg, k, k + 1);
    }
    AdjacentStrict(t);
  }

  /** Shifting the field at rank i of a dense order to `p` keeps the order strict when `p` stays between its neighbours. */
  lemma ShiftInPlaceStrict(cfg: Positions, order: seq<FieldRow>, i: nat, p: int)
    requires Dense(cfg, order) && i < |order|
    requires forall k :: 0 <= k < |order| && k != i ==> order[k].id != order[i].id
    requires i > 0 ==> Target(cfg, i - 1) < p
    requires i + 1 < |order| ==> p < Target(cfg, i + 1)
    ensures StrictlySortedBy(Map(order, Shifting(order[i].id, p)), ByPosition)
  {
    var t := SetPosition(order, order[i].id, p);
    forall k | 0 <= k < |t| ensures t[k].position == if k == i then p else Target(cfg, k) {
    }
    forall k | 0 <= k < |t| - 1 ensures t[k].position < t[k + 1].position {
      if k + 1 == i {
        assert t[k].position == Target(cfg, i - 1);
      } else if k == i {
        assert t[k + 1].position == Target(cfg, i + 1);
      } else {
        TargetIncreasing(cfg, k, k + 1);
      }
    }
    AdjacentStrict(t);
  }

  /**
   * With the fields dense and `0 < move < step`, moving up the field at
   * rank i > 0 swaps it with the one before, and the fields are dense again.
   */
  lemma MoveUpSwaps(cfg: Positions, rows: seq<FieldRow>, order: seq<FieldRow>, i: nat)
    requires order == SortByPosition(rows)
    requires UniqueIds(rows) && UniqueNames(rows) && Dense(cfg, order)
    requires 0 < i < |rows| && 0 < cfg.move < cfg.step
    ensures FindByName(rows, order[i].def.name) == Some(order[i]) &&
            SortByPosition(Repositioned(cfg, SetPosition(rows, order[i].id, UpPosition(cfg, order[i])))) == Densified(cfg, Swap(order, i - 1, i))
  {
    var p := UpPosition(cfg, order[i]);
    RankedField(rows, i);
    SwapUpStrict(cfg, order, i, p);
    ShiftedOrder(cfg, rows, order[i].id, p, Swap(order, i - 1, i));
  }

  /**
   * With the fields dense and `0 < move < step`, moving down the field at
   * rank i < last swaps it with the one after, and the fields are dense again.
   */
  lemma MoveDownSwaps(cfg: Positions, rows: seq<FieldRow>, order: seq<FieldRow>, i: nat)
    requires order == SortByPosition(rows)
    requires UniqueIds(rows) && UniqueNames(rows) && Dense(cfg, order)
    requires i + 1 < |rows| && 0 < cfg.move < cfg.step
    ensures FindByName(rows, order[i].def.name) == Some(order[i]) &&
            SortByPosition(Repositioned(cfg, SetPosition(rows, order[i].id, DownPosition(cfg, order[i])))) == Densified(cfg, Swap(order, i, i + 1))
  {
    var p := DownPosition(cfg, order[i]);
    RankedField(rows, i);
    SwapDownStrict(cfg, order, i, p);
    ShiftedOrder(cfg, rows, order[i].id, p, Swap(order, i, i + 1));
  }

  /** Moving up the first field leaves the dense fields as they are. */
  lemma MoveFirstUpKeepsOrder(cfg: Positions, rows: seq<FieldRow>, order: seq<FieldRow>)
    requires order == SortByPosition(rows)
    requires UniqueIds(rows) && UniqueNames(rows) && Dense(cfg, order)
    requires rows != [] && cfg.step + cfg.move > 0
    ensures FindByName(rows, order[0].def.name) == Some(order[0]) &&
            SortByPosition(Repositioned(cfg, SetPosition(rows, order[0].id, UpPosition(cfg, order[0])))) == order
  {
    var p := UpPosition(cfg, order[0]);
    RankedField(rows, 0);
    if 1 < |order| {
      TargetIncreasing(cfg, 0, 1);
    }
    ShiftInPlaceStrict(cfg, order, 0, p);
    ShiftedOrder(cfg, rows, order[0].id, p, order);
    DenseFixed(cfg, order);
  }

  /** Moving down the last field leaves the dense fields as they are. */
  lemma MoveLastDownKeepsOrder(cfg: Positions, rows: seq<FieldRow>, order: seq<FieldRow>)
    requires order == SortByPosition(rows)
    requires UniqueIds(rows) && UniqueNames(rows) && Dense(cfg, order)
    requires rows != [] && cfg.step + cfg.move > 0
    ensures FindByName(rows, order[|rows| - 1].def.name) == Some(order[|rows| - 1]) &&
            SortByPosition(Repositioned(cfg, SetPosition(rows, order[|rows| - 1].id, DownPosition(cfg, order[|rows| - 1])))) == order
  {
    var last := |rows| - 1;
    var p := DownPosition(cfg, order[last]);
    RankedField(rows, last);
    if 0 < last {
      TargetIncreasing(cfg, last - 1, last);
    }
    ShiftInPlaceStrict(cfg, order, last, p);
    ShiftedOrder(cfg, rows, order[last].id, p, order);
    DenseFixed(cfg, order);
  }
}

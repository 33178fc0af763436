/** The generic data manager: create, read, update, delete and search over one
    table, parameterised by the record shape `F` of the entity it manages.
    Each operation maps a table state to the next one; an add or update is
    committed as part of the call, so the returned state is the durable one. */
module DataManager {
  import opened Wrappers
  import opened Errors
  import opened Seqs
  import opened Text

  /** One persisted record: the identifier the store assigned and every other column. */
  datatype Row<F> = Row(id: nat, fields: F)

  /** The rows of one table in the store's default order, and the next value
      of the table's identifier sequence. */
  datatype Store<F> = Store(rows: seq<Row<F>>, nextId: nat)

  /** Some row carries identifier `id`. */
  predicate HasId<F>(rows: seq<Row<F>>, id: nat)
  {
    exists k :: 0 <= k < |rows| && rows[k].id == id
  }

  /** The primary key is unique. */
  ghost predicate UniqueIds<F>(rows: seq<Row<F>>)
  {
    forall j, k :: 0 <= j < k < |rows| ==> rows[j].id != rows[k].id
  }

  /** The store's invariant: unique keys, all of them issued by the sequence. */
  ghost predicate Valid<F>(s: Store<F>)
  {
    UniqueIds(s.rows) && forall k :: 0 <= k < |s.rows| ==> s.rows[k].id < s.nextId
  }

  datatype Added<F> = Added(store: Store<F>, item: Row<F>)
  datatype Updated<F> = Updated(store: Store<F>, item: Option<Row<F>>)
  datatype Deleted<F> = Deleted(store: Store<F>, removed: bool)

  /** The optional statement of `get_items`: every row, or the rows a `WHERE` clause keeps. */
  datatype Query<!F> = All | Where(keep: Row<F> -> bool)

  /** Which of the attributes `title` and `name` the entity's model declares,
      with the column each one reads. */
  datatype Attrs<!F> = Attrs(title: Option<F -> string>, name: Option<F -> string>)

  const NoSearchAttribute: string := "Модель не имеет атрибута 'title' или 'name'."

  /** `get_one` on `id = :id`: the first row with that identifier, if any. */
  function GetItem<F>(rows: seq<Row<F>>, id: nat): (r: Option<Row<F>>)
    ensures r.Some? <==> HasId(rows, id)
    ensures r.Some? ==> r.value.id == id
    ensures r.Some? ==>
      exists k :: 0 <= k < |rows| && rows[k] == r.value && forall j :: 0 <= j < k ==> rows[j].id != id
    decreases |rows|
  {
    if rows == [] then None
    else if rows[0].id == id then Some(rows[0])
    else
      var r := GetItem(rows[1..], id);
      assert r.Some? ==> exists k :: 0 <= k < |rows| && rows[k] == r.value && forall j :: 0 <= j < k ==> rows[j].id != id by {
        if r.Some? {
          var k :| 0 <= k < |rows[1..]| && rows[1..][k] == r.value && forall j :: 0 <= j < k ==> rows[1..][j].id != id;
          assert rows[k + 1] == r.value;
        }
      }
      assert forall k :: 1 <= k < |rows| ==> rows[k] == rows[1..][k - 1];
      r
  }

  /** Under a unique key, a lookup returns exactly the row carrying that key. */
  lemma {:induction false} GetItemFinds<F>(rows: seq<Row<F>>, k: nat)
    requires UniqueIds(rows) && k < |rows|
    ensures GetItem(rows, rows[k].id) == Some(rows[k])
  {
  }

  /** `add_item`: insert the record under the next identifier and return the stored row. */
  function AddItem<F>(s: Store<F>, fields: F): (r: Added<F>)
    requires Valid(s)
    ensures Valid(r.store)
    ensures !HasId(s.rows, r.item.id)
    ensures forall k :: 0 <= k < |s.rows| ==> s.rows[k].id < r.item.id
    ensures r.item.fields == fields
    ensures r.store.rows == s.rows + [r.item]
    ensures GetItem(r.store.rows, r.item.id) == Some(r.item)
  {
    var row := Row(s.nextId, fields);
    var rows := s.rows + [row];
    GetItemFinds(rows, |s.rows|);
    Added(Store(rows, s.nextId + 1), row)
  }

  /** Every row with identifier `id` replaced by one with the same key and new fields. */
  function Overwrite<F>(rows: seq<Row<F>>, id: nat, fields: F): (r: seq<Row<F>>)
    ensures |r| == |rows|
    ensures forall k :: 0 <= k < |rows| ==> r[k].id == rows[k].id
  {
    seq(|rows|, k requires 0 <= k < |rows| => if rows[k].id == id then Row(id, fields) else rows[k])
  }

  /** `update_item`: absent key, nothing changes and nothing is returned; otherwise
      every column but the identifier takes the replacement's value. */
  function UpdateItem<F>(s: Store<F>, id: nat, replacement: F): (r: Updated<F>)
    requires Valid(s)
    ensures Valid(r.store)
    ensures r.item.None? <==> !HasId(s.rows, id)
    ensures r.item.None? ==> r.store == s
    ensures r.item.Some? ==> r.item.value.id == id && r.item.value.fields == replacement
    ensures r.item.Some? ==> GetItem(r.store.rows, id) == r.item
    ensures r.store.nextId == s.nextId && |r.store.rows| == |s.rows|
    ensures forall k :: 0 <= k < |s.rows| ==> r.store.rows[k].id == s.rows[k].id
    ensures forall k :: 0 <= k < |s.rows| && s.rows[k].id != id ==> r.store.rows[k] == s.rows[k]
  {
    match GetItem(s.rows, id)
    case None => Updated(s, None)
    case Some(current) =>
      var rows := Overwrite(s.rows, id, replacement);
      assert GetItem(rows, id) == Some(Row(id, replacement)) by {
        var k :| 0 <= k < |s.rows| && s.rows[k] == current;
        assert rows[k] == Row(id, replacement);
        GetItemFinds(rows, k);
      }
      Updated(Store(rows, s.nextId), Some(Row(id, replacement)))
  }

  /** Removing the rows with a key that occurs once shortens the table by one. */
  lemma {:induction false} DeleteUniqueShortens<F(!new)>(rows: seq<Row<F>>, id: nat)
    requires UniqueIds(rows) && HasId(rows, id)
    ensures |Filter(rows, (x: Row<F>) => x.id != id)| == |rows| - 1
    decreases |rows|
  {
    var keep := (x: Row<F>) => x.id != id;
    assert rows == [rows[0]] + rows[1..];
    if rows[0].id == id {
      FilterKeepsAll(rows[1..], keep);
    } else {
      var k :| 0 <= k < |rows| && rows[k].id == id;
      assert rows[1..][k - 1].id == id;
      DeleteUniqueShortens(rows[1..], id);
    }
  }

  /** Keeping only some rows keeps the key unique. */
  lemma {:induction false} FilterKeepsUniqueIds<F(!new)>(rows: seq<Row<F>>, keep: Row<F> -> bool)
    requires UniqueIds(rows)
    ensures UniqueIds(Filter(rows, keep))
    decreases |rows|
  {
    if rows != [] {
      FilterKeepsUniqueIds(rows[1..], keep);
      var tail := Filter(rows[1..], keep);
      forall x | x in tail
        ensures x.id != rows[0].id
      {
        var k :| 0 <= k < |rows[1..]| && rows[1..][k] == x;
        assert rows[k + 1] == x;
      }
    }
  }

  /** `delete_item`: remove the row with identifier `id`; report whether a row went. */
  function DeleteItem<F(!new)>(s: Store<F>, id: nat): (r: Deleted<F>)
    requires Valid(s)
    ensures Valid(r.store)
    ensures r.removed <==> HasId(s.rows, id)
    ensures !HasId(r.store.rows, id)
    ensures forall x :: x in r.store.rows <==> x in s.rows && x.id != id
    ensures SubsequenceOf(r.store.rows, s.rows)
    ensures r.removed ==> |r.store.rows| == |s.rows| - 1
    ensures !r.removed ==> r.store == s
  {
    var keep := (x: Row<F>) => x.id != id;
    var kept := Filter(s.rows, keep);
    FilterIsSubsequence(s.rows, keep);
    FilterShortens(s.rows, keep);
    FilterKeepsUniqueIds(s.rows, keep);
    forall k | 0 <= k < |kept|
      ensures kept[k] in s.rows && kept[k].id != id
    {
      assert kept[k] in kept && keep(kept[k]);
    }
    if HasId(s.rows, id) then
      DeleteUniqueShortens(s.rows, id);
      Deleted(Store(kept, s.nextId), |s.rows| - |kept| > 0)
    else
      FilterKeepsAll(s.rows, keep);
      Deleted(Store(kept, s.nextId), |s.rows| - |kept| > 0)
  }

  /** `delete_items`: remove every row; report whether any existed. */
  function DeleteItems<F>(s: Store<F>): (r: Deleted<F>)
    requires Valid(s)
    ensures Valid(r.store) && r.store.nextId == s.nextId
    ensures r.store.rows == []
    ensures r.removed <==> |s.rows| > 0
    ensures forall id: nat :: GetItem(r.store.rows, id).None?
    ensures r.removed <==> exists id: nat :: GetItem(s.rows, id).Some?
  {
    if |s.rows| > 0 then
      assert GetItem(s.rows, s.rows[0].id).Some?;
      Deleted(Store([], s.nextId), true)
    else
      Deleted(Store([], s.nextId), false)
  }

  /** `get_items`: the rows the statement selects, in table order. */
  function GetItems<F(!new)>(rows: seq<Row<F>>, query: Query<F>): (r: seq<Row<F>>)
    ensures query.All? ==> r == rows
    ensures query.Where? ==> forall x :: x in r <==> x in rows && query.keep(x)
    ensures SubsequenceOf(r, rows)
  {
    match query
    case All =>
      FilterKeepsAll(rows, (x: Row<F>) => true);
      FilterIsSubsequence(rows, (x: Row<F>) => true);
      rows
    case Where(keep) =>
      FilterIsSubsequence(rows, keep);
      Filter(rows, keep)
  }

  /** The column the search reads: `title` when the model has one, else `name`. */
  function SearchColumn<F>(attrs: Attrs<F>): Option<F -> string>
  {
    if attrs.title.Some? then attrs.title else attrs.name
  }

  /** `search_items`: the rows whose search column contains `q` ignoring case,
      in table order; an attribute error when the model has neither column. */
  function SearchItems<F(!new)>(rows: seq<Row<F>>, attrs: Attrs<F>, q: string): (r: Result<seq<Row<F>>, Error>)
    ensures r.Failure? <==> attrs.title.None? && attrs.name.None?
    ensures r.Failure? ==> r.error == AttributeError(NoSearchAttribute)
    ensures r.Success? ==> SubsequenceOf(r.value, rows)
    ensures r.Success? && attrs.title.Some? ==>
      forall x :: x in r.value <==> x in rows && ContainsIgnoringCase(attrs.title.value(x.fields), q)
    ensures r.Success? && attrs.title.None? ==>
      forall x :: x in r.value <==> x in rows && ContainsIgnoringCase(attrs.name.value(x.fields), q)
  {
    match SearchColumn(attrs)
    case None => Failure(AttributeError(NoSearchAttribute))
    case Some(column) =>
      Success(GetItems(rows, Where((x: Row<F>) => OccursIgnoringCase(column(x.fields), q))))
  }

  /** What reflection finds on the bare type variable the search inspects:
      neither a `title` nor a `name` attribute. */
  function TypeVariableAttrs<F>(): Attrs<F>
  {
    Attrs(None, None)
  }

  /** `search_items` as written: the attribute test is applied to the type
      variable rather than to the manager's model class. */
  function SearchItemsAsWritten<F(!new)>(rows: seq<Row<F>>, q: string): (r: Result<seq<Row<F>>, Error>)
    ensures r == Failure(AttributeError(NoSearchAttribute))
  {
    SearchItems(rows, TypeVariableAttrs(), q)
  }

  /** A record just added is found by its identifier. */
  lemma AddThenGet<F>(s: Store<F>, fields: F)
    requires Valid(s)
    ensures var a := AddItem(s, fields);
      GetItem(a.store.rows, a.item.id) == Some(Row(a.item.id, fields))
  {
  }

  /** A record just deleted is no longer found, and no other lookup changes. */
  lemma DeleteThenGet<F(!new)>(s: Store<F>, id: nat, other: nat)
    requires Valid(s) && other != id
    ensures GetItem(DeleteItem(s, id).store.rows, id).None?
    ensures GetItem(DeleteItem(s, id).store.rows, other) == GetItem(s.rows, other)
  {
  }

  /** A second identical update changes nothing further. */
  lemma UpdateIdempotent<F>(s: Store<F>, id: nat, replacement: F)
    requires Valid(s)
    ensures var once := UpdateItem(s, id, replacement);
      UpdateItem(once.store, id, replacement) == once
  {
  }
}

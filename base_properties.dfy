/**
 * Properties of the generic repository's operations: what each one returns,
 * which rows it changes and which it leaves alone, and how the operations
 * undo or observe each other.
 */
module BaseProperties {
  import opened Wrappers
  import opened Table
  import opened Base

  /** A valid table never holds two rows with one identifier. */
  lemma ValidIdsUnique(s: Schema, t: seq<Row>)
    requires TableValid(s, t)
    ensures UniqueIds(t)
  {
  }

  /** With unique identifiers, `get` finds exactly the row carrying the identifier. */
  lemma LookupUnique(t: seq<Row>, id: Id, x: Row)
    requires UniqueIds(t)
    ensures Lookup(t, id) == Some(x) <==> x in t && x.id == id
  {
  }

  // ----- filter -----

  /** With no keyword every row qualifies. */
  lemma {:induction false} MatchingRowsNoOptions(t: seq<Row>)
    ensures MatchingRows(t, []) == t
  {
    if t != [] {
      MatchingRowsNoOptions(t[1..]);
    }
  }

  /** When every row satisfies the keywords, all of them match. */
  lemma {:induction false} MatchingRowsAll(t: seq<Row>, options: Options)
    requires forall x :: x in t ==> Matches(x, options)
    ensures MatchingRows(t, options) == t
  {
    if t != [] {
      assert t[0] in t;
      MatchingRowsAll(t[1..], options);
    }
  }

  /** `filter` without keywords pages through the whole table. */
  lemma FilterWithoutKeywords(s: Schema, t: seq<Row>, offset: nat, limit: nat)
    ensures FilterRows(s, t, offset, limit, []) == Ok(Window(t, offset, limit))
  {
    MatchingRowsNoOptions(t);
  }

  /** Matching distributes over appending a row. */
  lemma {:induction false} MatchingRowsAppend(t: seq<Row>, x: Row, options: Options)
    ensures MatchingRows(t + [x], options) == MatchingRows(t, options) + (if Matches(x, options) then [x] else [])
  {
    if t == [] {
      assert [x][1..] == [];
    } else {
      assert (t + [x])[1..] == t[1..] + [x];
      MatchingRowsAppend(t[1..], x, options);
    }
  }

  /** When every keyword names an attribute, `filter` returns the matching rows
    * that follow the first `offset` matches, at most `limit` of them, in table order. */
  lemma FilterIsWindowOfMatches(s: Schema, t: seq<Row>, offset: nat, limit: nat, options: Options)
    requires NoneNamed(options, FILTER_PARAMETERS)
    requires forall j :: 0 <= j < |options| ==> options[j].0 in Attributes(s)
    ensures var m := MatchingRows(t, options);
            var r := FilterRows(s, t, offset, limit, options);
            && r.Ok?
            && |r.value| == Min(limit, |m| - Min(offset, |m|))
            && forall k :: 0 <= k < |r.value| ==> r.value[k] == m[offset + k]
  {
  }

  /** Unpaged, `filter` returns every row of the table that satisfies all keywords, and only those. */
  lemma FilterUnpagedIsComplete(s: Schema, t: seq<Row>, limit: nat, options: Options, x: Row)
    requires NoneNamed(options, FILTER_PARAMETERS)
    requires forall j :: 0 <= j < |options| ==> options[j].0 in Attributes(s)
    requires limit >= |t|
    ensures FilterRows(s, t, 0, limit, options).Ok?
    ensures x in FilterRows(s, t, 0, limit, options).value <==> x in t && Matches(x, options)
  {
  }

  // ----- create -----

  /** A successful `create` adds exactly one row, which holds the given values,
    * the column defaults where no value is given and NULL elsewhere; a following
    * `get` returns that row and every other identifier reads as before. */
  lemma CreateThenGet(s: Schema, t: seq<Row>, id: Id, data: map<Name, Value>, other: Id, n: Name)
    requires WellFormed(s) && TableValid(s, t)
    requires CreateStep(s, t, id, data).result.Ok?
    ensures var r := CreateStep(s, t, id, data);
            && r.result.value.id == id
            && r.rows == t + [r.result.value]
            && (n in data ==> Field(r.result.value, n) == data[n])
            && (n !in data && n in s.defaults ==> Field(r.result.value, n) == s.defaults[n])
            && (n !in data && n !in s.defaults && n != ID_COLUMN ==> Field(r.result.value, n) == Null)
            && Lookup(r.rows, id) == Some(r.result.value)
            && (other != id ==> Lookup(r.rows, other) == Lookup(t, other))
  {
  }

  /** Creating a row whose identifier is taken fails with an integrity error and rolls back. */
  lemma CreateRejectsTakenId(s: Schema, t: seq<Row>, id: Id, data: map<Name, Value>)
    requires data.Keys <= s.columns
    requires Lookup(t, id).Some?
    ensures CreateStep(s, t, id, data) == Step(Err(IntegrityError), t)
  {
  }

  /** Creating a row whose value in a unique column is already stored fails and rolls back. */
  lemma CreateRejectsTakenUniqueValue(s: Schema, t: seq<Row>, id: Id, data: map<Name, Value>, u: Name, x: Row)
    requires WellFormed(s)
    requires data.Keys <= s.columns
    requires u in s.unique && u in data && data[u] != Null
    requires x in t && Field(x, u) == data[u]
    ensures CreateStep(s, t, id, data) == Step(Err(IntegrityError), t)
  {
  }

  /** `delete` undoes a successful `create`: it returns the created row and restores the table. */
  lemma CreateThenDelete(s: Schema, t: seq<Row>, id: Id, data: map<Name, Value>)
    requires CreateStep(s, t, id, data).result.Ok?
    ensures DeleteStep(CreateStep(s, t, id, data).rows, id) == Step(CreateStep(s, t, id, data).result, t)
  {
    var t' := t + [Inserted(s, id, data)];
    forall j | 0 <= j < |t| ensures t[j].id != id {
      assert t[j] in t;
      assert !Clashes(s.unique, Inserted(s, id, data), t[j]);
    }
    assert t'[|t|].id == id;
    assert Find(t', id) == Some(|t|);
    assert t'[..|t|] + t'[|t| + 1..] == t;
  }

  // ----- update -----

  /** `update` of a stored row returns it with the given attributes replaced,
    * those with an `onupdate` value set to it and the others kept; `get` then
    * sees the new row and every other row is unchanged. */
  lemma UpdateThenGet(s: Schema, t: seq<Row>, id: Id, data: map<Name, Value>, x: Row, other: Id, n: Name)
    requires WellFormed(s) && TableValid(s, t)
    requires data.Keys <= s.columns
    requires Lookup(t, id) == Some(x)
    requires forall y :: y in t && y.id != id ==> !Clashes(s.unique, Updated(s, x, data), y)
    ensures var r := UpdateStep(s, t, id, data);
            && r.result.Ok?
            && r.result.value.id == id
            && (n in data ==> Field(r.result.value, n) == data[n])
            && (n !in data && n in s.onUpdate ==> Field(r.result.value, n) == s.onUpdate[n])
            && (n !in data && n !in s.onUpdate ==> Field(r.result.value, n) == Field(x, n))
            && Lookup(r.rows, id) == Some(r.result.value)
            && (other != id ==> Lookup(r.rows, other) == Lookup(t, other))
  {
  }

  /** `update` of an identifier no row has returns `None` and leaves the table as it was. */
  lemma UpdateMissingRollsBack(s: Schema, t: seq<Row>, id: Id, data: map<Name, Value>)
    requires data.Keys <= s.columns
    requires Lookup(t, id).None?
    ensures UpdateStep(s, t, id, data) == Step(Err(NoResultFound), t)
  {
  }

  /** `update` that would give the row a unique value or identifier another row
    * holds raises the integrity error; nothing is committed. */
  lemma UpdateRejectsClash(s: Schema, t: seq<Row>, id: Id, data: map<Name, Value>, x: Row, y: Row)
    requires data.Keys <= s.columns
    requires Lookup(t, id) == Some(x)
    requires y in t && y.id != id && Clashes(s.unique, Updated(s, x, data), y)
    ensures UpdateStep(s, t, id, data) == Step(Err(IntegrityError), t)
  {
    var k := Find(t, id).value;
    var j :| 0 <= j < |t| && t[j] == y;
    assert j != k;
  }

  /** `update` never creates a row: the same identifiers are stored afterwards. */
  lemma UpdateNeverCreates(s: Schema, t: seq<Row>, id: Id, data: map<Name, Value>, other: Id)
    ensures Lookup(UpdateStep(s, t, id, data).rows, other).Some? <==> Lookup(t, other).Some?
  {
  }

  // ----- delete -----

  /** `delete` of a stored row returns it as it was and removes exactly that row. */
  lemma DeleteRemovesRow(s: Schema, t: seq<Row>, id: Id, x: Row, other: Id)
    requires TableValid(s, t)
    requires Lookup(t, id) == Some(x)
    ensures var r := DeleteStep(t, id);
            && r.result == Ok(x)
            && |r.rows| == |t| - 1
            && (forall y :: y in r.rows <==> y in t && y != x)
            && Lookup(r.rows, id).None?
            && (other != id ==> Lookup(r.rows, other) == Lookup(t, other))
  {
  }

  /** `delete` of an identifier no row has is an error and changes nothing. */
  lemma DeleteMissingFails(t: seq<Row>, id: Id)
    requires Lookup(t, id).None?
    ensures DeleteStep(t, id) == Step(Err(NoResultFound), t)
  {
  }

  /** Deleting twice: the second call reports that no row was found, and keeps doing so. */
  lemma DeleteTwice(s: Schema, t: seq<Row>, id: Id)
    requires TableValid(s, t)
    requires DeleteStep(t, id).result.Ok?
    ensures var t' := DeleteStep(t, id).rows;
            DeleteStep(t', id) == Step(Err(NoResultFound), t')
  {
  }
}

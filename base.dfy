/**
 * The generic repository of src/services/base.py: one instance is bound to one
 * entity type and runs get/filter/create/update/delete against that entity's
 * table. The database session is the table itself; a commit keeps the change
 * a call computed, a rollback (or an exception before the commit) leaves the
 * table exactly as it was.
 */
module Base {
  import opened Wrappers
  import opened Table

  /** The default pagination of `filter`. */
  const DEFAULT_OFFSET: nat := 0
  const DEFAULT_LIMIT: nat := 100

  /** The named parameters of `filter`, which its `**kwargs` can never hold. */
  const FILTER_PARAMETERS: set<Name> := {"self", "session", "offset", "limit"}

  /** How a repository call fails. */
  datatype Error =
    /** The insert or update violated a uniqueness constraint. */
    | IntegrityError
    /** The update or delete matched no row. */
    | NoResultFound
    /** Insert or update values named columns the entity does not have. */
    | UnconsumedColumns(names: set<Name>)
    /** A filter keyword is not an attribute of the entity. */
    | NoSuchAttribute(name: Name)

  /** What a call returns together with the table it leaves behind. */
  datatype Step<T> = Step(result: Result<T, Error>, rows: seq<Row>)

  /** The first keyword, in call order, that the entity has no attribute for. */
  function FirstUnknown(s: Schema, options: Options): (r: Option<Name>)
    ensures r.None? <==> forall j :: 0 <= j < |options| ==> options[j].0 in Attributes(s)
    ensures r.Some? ==> exists j :: 0 <= j < |options| && options[j].0 == r.value && r.value !in Attributes(s)
                                    && forall i :: 0 <= i < j ==> options[i].0 in Attributes(s)
  {
    if options == [] then None
    else if options[0].0 !in Attributes(s) then Some(options[0].0)
    else FirstUnknown(s, options[1..])
  }

  /** `filter(offset=offset, limit=limit, **options)` against table `t`. */
  function FilterRows(s: Schema, t: seq<Row>, offset: nat, limit: nat, options: Options): (r: Result<seq<Row>, Error>)
    requires NoneNamed(options, FILTER_PARAMETERS)
    ensures r.Err? <==> exists j :: 0 <= j < |options| && options[j].0 !in Attributes(s)
    ensures r.Err? ==> r.error.NoSuchAttribute?
    ensures r.Err? ==> exists j :: 0 <= j < |options| && options[j].0 == r.error.name && r.error.name !in Attributes(s)
                                   && forall i :: 0 <= i < j ==> options[i].0 in Attributes(s)
    ensures r.Ok? ==> |r.value| <= limit
    ensures r.Ok? ==> forall x :: x in r.value ==> x in t && Matches(x, options)
  {
    match FirstUnknown(s, options)
    case Some(k) => Err(NoSuchAttribute(k))
    case None => Ok(Window(MatchingRows(t, options), offset, limit))
  }

  /** The row an insert of `data` stores: the given values, and the column
    * defaults for the columns `data` does not set. */
  function Inserted(s: Schema, id: Id, data: map<Name, Value>): (row: Row)
  {
    Row(id, s.defaults + data)
  }

  /** The row an update of `x` with `data` stores: the given values, the
    * `onupdate` values for the columns `data` does not set, and otherwise the
    * values `x` held. */
  function Updated(s: Schema, x: Row, data: map<Name, Value>): (row: Row)
  {
    Row(x.id, x.attrs + s.onUpdate + data)
  }

  /** `insert(model).values(**data).returning(model)`, committed unless it fails. */
  function CreateStep(s: Schema, t: seq<Row>, id: Id, data: map<Name, Value>): (r: Step<Row>)
    ensures r.result.Err? ==> r.rows == t
    ensures r.result.Ok? <==> data.Keys <= s.columns && forall x :: x in t ==> !Clashes(s.unique, Inserted(s, id, data), x)
  {
    if !(data.Keys <= s.columns) then Step(Err(UnconsumedColumns(data.Keys - s.columns)), t)
    else if Conflicts(s.unique, t, Inserted(s, id, data)) then Step(Err(IntegrityError), t)
    else Step(Ok(Inserted(s, id, data)), t + [Inserted(s, id, data)])
  }

  /** `update(model).where(id == id).values(**data).returning(model)`: the
    * stored attributes named in `data` take the new values, those with an
    * `onupdate` value take it, the others keep theirs. */
  function UpdateStep(s: Schema, t: seq<Row>, id: Id, data: map<Name, Value>): (r: Step<Row>)
    ensures r.result.Err? ==> r.rows == t
    ensures |r.rows| == |t|
    ensures forall k :: 0 <= k < |t| ==> r.rows[k].id == t[k].id
  {
    if !(data.Keys <= s.columns) then Step(Err(UnconsumedColumns(data.Keys - s.columns)), t)
    else match Find(t, id)
      case None => Step(Err(NoResultFound), t)
      case Some(k) =>
        var updated := Updated(s, t[k], data);
        if exists j | 0 <= j < |t| :: j != k && Clashes(s.unique, updated, t[j]) then Step(Err(IntegrityError), t)
        else Step(Ok(updated), t[k := updated])
  }

  /** `delete(model).where(id == id)` returning the deleted row. */
  function DeleteStep(t: seq<Row>, id: Id): (r: Step<Row>)
    ensures r.result.Err? ==> r.rows == t
    ensures r.result.Ok? ==> |r.rows| == |t| - 1 && r.result.value in t
  {
    match Find(t, id)
    case None => Step(Err(NoResultFound), t)
    case Some(k) => Step(Ok(t[k]), t[..k] + t[k + 1..])
  }

  /** Each operation keeps the table's integrity (declared columns only, no two rows clashing). */
  lemma CreatePreservesValid(s: Schema, t: seq<Row>, id: Id, data: map<Name, Value>)
    requires WellFormed(s) && TableValid(s, t)
    ensures TableValid(s, CreateStep(s, t, id, data).rows)
  {
  }

  lemma UpdatePreservesValid(s: Schema, t: seq<Row>, id: Id, data: map<Name, Value>)
    requires WellFormed(s) && TableValid(s, t)
    ensures TableValid(s, UpdateStep(s, t, id, data).rows)
  {
  }

  lemma DeletePreservesValid(s: Schema, t: seq<Row>, id: Id)
    requires TableValid(s, t)
    ensures TableValid(s, DeleteStep(t, id).rows)
  {
  }

  /** `RepositoryInterface`: a repository bound to one entity type, over that entity's table. */
  class Repository {
    /** The entity type the repository is bound to (`self._model`). */
    const schema: Schema
    /** The committed contents of the entity's table. */
    var rows: seq<Row>

    ghost predicate Valid()
      reads this
    {
      WellFormed(schema) && TableValid(schema, rows)
    }

    constructor (schema: Schema)
      requires WellFormed(schema)
      ensures Valid() && this.schema == schema && rows == []
    {
      this.schema := schema;
      rows := [];
    }

    /** `get`: the row with identifier `id`, or `None`. */
    method Get(id: Id) returns (r: Option<Row>)
      ensures r == Lookup(rows, id)
      ensures r.Some? ==> r.value in rows && r.value.id == id
      ensures r.None? <==> forall x :: x in rows ==> x.id != id
    {
      r := Lookup(rows, id);
    }

    /** `filter`: each keyword adds a `WHERE attribute == value` to the
      * statement, then the statement is paginated and executed. */
    method Filter(offset: nat, limit: nat, options: Options) returns (r: Result<seq<Row>, Error>)
      requires NoneNamed(options, FILTER_PARAMETERS)
      ensures r == FilterRows(schema, rows, offset, limit, options)
    {
      var conditions: Options := [];
      var i := 0;
      while i < |options|
        invariant 0 <= i <= |options|
        invariant conditions == options[..i]
        invariant FirstUnknown(schema, options) == FirstUnknown(schema, options[i..])
      {
        var (key, value) := options[i];
        if key !in Attributes(schema) {
          return Err(NoSuchAttribute(key));
        }
        assert options[i..][1..] == options[i + 1..];
        conditions := conditions + [(key, value)];
        i := i + 1;
      }
      assert conditions == options;
      r := Ok(Window(MatchingRows(rows, conditions), offset, limit));
    }

    /** `create`: insert one row; a uniqueness violation rolls back. */
    method Create(id: Id, data: map<Name, Value>) returns (r: Result<Row, Error>)
      requires Valid()
      modifies this
      ensures Valid()
      ensures Step(r, rows) == CreateStep(schema, old(rows), id, data)
      ensures r.Ok? ==> rows == old(rows) + [r.value]
      ensures r.Err? ==> rows == old(rows)
    {
      if !(data.Keys <= schema.columns) {
        // the statement does not compile: nothing is executed
        return Err(UnconsumedColumns(data.Keys - schema.columns));
      }
      var row := Inserted(schema, id, data);
      if Conflicts(schema.unique, rows, row) {
        // IntegrityError: session.rollback(), return None
        return Err(IntegrityError);
      }
      CreatePreservesValid(schema, rows, id, data);
      rows := rows + [row];
      r := Ok(row);
    }

    /** `update`: give the row `id` the new attribute values; no such row rolls back. */
    method Update(id: Id, data: map<Name, Value>) returns (r: Result<Row, Error>)
      requires Valid()
      modifies this
      ensures Valid()
      ensures Step(r, rows) == UpdateStep(schema, old(rows), id, data)
      ensures r.Err? ==> rows == old(rows)
    {
      if !(data.Keys <= schema.columns) {
        // the statement does not compile: nothing is executed
        return Err(UnconsumedColumns(data.Keys - schema.columns));
      }
      var found := Find(rows, id);
      if found.None? {
        // NoResultFound: session.rollback(), return None
        return Err(NoResultFound);
      }
      var k := found.value;
      var updated := Updated(schema, rows[k], data);
      if exists j | 0 <= j < |rows| :: j != k && Clashes(schema.unique, updated, rows[j]) {
        return Err(IntegrityError);
      }
      UpdatePreservesValid(schema, rows, id, data);
      rows := rows[k := updated];
      r := Ok(updated);
    }

    /** `delete`: remove the row `id` and return it as it was; `scalar_one`
      * raises when there is none, before any commit. */
    method Delete(id: Id) returns (r: Result<Row, Error>)
      requires Valid()
      modifies this
      ensures Valid()
      ensures Step(r, rows) == DeleteStep(old(rows), id)
      ensures r.Err? ==> rows == old(rows)
    {
      var found := Find(rows, id);
      if found.None? {
        return Err(NoResultFound);
      }
      var k := found.value;
      DeletePreservesValid(schema, rows, id);
      r := Ok(rows[k]);
      rows := rows[..k] + rows[k + 1..];
    }
  }
}

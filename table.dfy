/**
 * The in-memory stand-in for one database table: a sequence of rows in
 * insertion order, each an identifier plus a map from attribute name to value,
 * and the queries the repository runs against it (select by id, equality
 * filtering, offset/limit windows).
 */
module Table {
  import opened Wrappers

  /** Row identifiers (integer or UUID primary keys; UUIDs are abstracted as integers). */
  type Id = int

  /** Attribute (column) names. */
  type Name = string

  /** The name under which a row's identifier is read. */
  const ID_COLUMN: Name := "id"

  /** A stored attribute value; `Null` is SQL NULL, read by Python as `None`. */
  datatype Value = Null | Bool(b: bool) | Int(i: int) | Text(s: string)

  /** A stored record: its identifier and its other attributes (absent ones are NULL). */
  datatype Row = Row(id: Id, attrs: map<Name, Value>)

  /** What the database knows about an entity type: its attribute columns
    * (the primary key `id` apart), which of them carry a unique constraint,
    * the values an insert gives the columns it does not set (`default`,
    * `server_default`), and those an update gives the columns it does not set
    * (`onupdate`). */
  datatype Schema = Schema(columns: set<Name>, unique: set<Name>,
                           defaults: map<Name, Value>, onUpdate: map<Name, Value>)

  /** Keyword arguments of a call, in the order the caller passed them. */
  type Options = seq<(Name, Value)>

  /** The identifier is not one of the ordinary attribute columns, and defaults
    * are declared on columns only. */
  predicate WellFormed(s: Schema)
  {
    ID_COLUMN !in s.columns && s.defaults.Keys <= s.columns && s.onUpdate.Keys <= s.columns
  }

  /** The names the model accepts as filter keywords: every column and `id`. */
  function Attributes(s: Schema): (a: set<Name>)
    ensures ID_COLUMN in a && s.columns <= a
  {
    s.columns + {ID_COLUMN}
  }

  /** The value a row holds under `name`; `Null` when it holds none. */
  function Field(row: Row, name: Name): (v: Value)
    ensures name == ID_COLUMN ==> v == Int(row.id)
    ensures name != ID_COLUMN && name !in row.attrs ==> v == Null
  {
    if name == ID_COLUMN then Int(row.id)
    else if name in row.attrs then row.attrs[name]
    else Null
  }

  /** Two rows violate a uniqueness constraint when stored together: the same
    * primary key, or the same non-NULL value in a unique column (SQL lets
    * several NULLs share a unique column). */
  predicate Clashes(unique: set<Name>, a: Row, b: Row)
  {
    a.id == b.id || exists u | u in unique :: Field(a, u) != Null && Field(a, u) == Field(b, u)
  }

  /** Storing `row` beside the rows of `t` would violate a uniqueness constraint. */
  predicate Conflicts(unique: set<Name>, t: seq<Row>, row: Row)
  {
    exists i | 0 <= i < |t| :: Clashes(unique, row, t[i])
  }

  /** The table's integrity: every row uses only declared columns and no two rows clash. */
  ghost predicate TableValid(s: Schema, t: seq<Row>)
  {
    && (forall i :: 0 <= i < |t| ==> t[i].attrs.Keys <= s.columns)
    && (forall i, j :: 0 <= i < |t| && 0 <= j < |t| && i != j ==> !Clashes(s.unique, t[i], t[j]))
  }

  /** No two rows share an identifier. */
  ghost predicate UniqueIds(t: seq<Row>)
  {
    forall i, j :: 0 <= i < |t| && 0 <= j < |t| && t[i].id == t[j].id ==> i == j
  }

  /** The position of the first row whose identifier is `id`, if any. */
  function Find(t: seq<Row>, id: Id): (r: Option<nat>)
    ensures r.Some? ==> r.value < |t| && t[r.value].id == id
    ensures r.Some? ==> forall j :: 0 <= j < r.value ==> t[j].id != id
    ensures r.None? ==> forall j :: 0 <= j < |t| ==> t[j].id != id
  {
    if t == [] then None
    else if t[0].id == id then Some(0)
    else match Find(t[1..], id)
      case None => None
      case Some(k) => Some(k + 1)
  }

  /** `SELECT ... WHERE id = :id`, read with `scalar_one_or_none`. */
  function Lookup(t: seq<Row>, id: Id): (r: Option<Row>)
    ensures r.Some? ==> r.value in t && r.value.id == id
    ensures r.None? <==> forall x :: x in t ==> x.id != id
  {
    match Find(t, id)
    case None => None
    case Some(k) => Some(t[k])
  }

  /** No keyword argument has one of `names`: Python binds a keyword named
    * like a parameter of the called function to that parameter, so `**options`
    * never holds one. */
  predicate NoneNamed(options: Options, names: set<Name>)
  {
    forall j :: 0 <= j < |options| ==> options[j].0 !in names
  }

  /** The row satisfies every `attribute == value` condition (SQL `AND`). */
  predicate Matches(row: Row, options: Options)
  {
    forall j :: 0 <= j < |options| ==> Field(row, options[j].0) == options[j].1
  }

  /** The rows of `t` that satisfy all conditions, in table order. */
  function MatchingRows(t: seq<Row>, options: Options): (m: seq<Row>)
    ensures |m| <= |t|
    ensures forall x :: x in m <==> x in t && Matches(x, options)
  {
    if t == [] then []
    else (if Matches(t[0], options) then [t[0]] else []) + MatchingRows(t[1..], options)
  }

  /** The smaller of two integers. */
  function Min(a: int, b: int): (m: int)
    ensures m <= a && m <= b && (m == a || m == b)
  {
    if a <= b then a else b
  }

  /** `OFFSET offset LIMIT limit`: skip the first `offset` rows, keep at most `limit`. */
  function Window<T>(m: seq<T>, offset: nat, limit: nat): (w: seq<T>)
    ensures |w| == Min(limit, |m| - Min(offset, |m|))
    ensures forall k :: 0 <= k < |w| ==> offset + k < |m| && w[k] == m[offset + k]
  {
    if offset >= |m| then [] else m[offset..Min(offset + limit, |m|)]
  }
}

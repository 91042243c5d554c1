/**
 * The data model of src/types.ts: columns, tasks, guest records and lists,
 * and the JavaScript value semantics the application relies on
 * (`String(v)`, truthiness, property lookup).
 */
module Types {
  import opened Wrappers
  import opened Text

  /** A scalar as stored in a spreadsheet cell or a guest field.
      `Frac` is a JavaScript number that is not an integer, carried by the
      text `String()` gives for it. */
  datatype Value = Str(s: string) | Int(i: int) | Frac(text: string) | Bool(b: bool)

  /** `String(v)`. */
  function Display(v: Value): string
  {
    match v
    case Str(s) => s
    case Int(i) => IntToString(i)
    case Frac(t) => t
    case Bool(b) => if b then "true" else "false"
  }

  /** JavaScript truthiness of a property that may be missing. */
  predicate Truthy(v: Option<Value>)
  {
    match v
    case None => false
    case Some(Str(s)) => s != ""
    case Some(Int(i)) => i != 0
    case Some(Frac(_)) => true
    case Some(Bool(b)) => b
  }

  /** The tags `getDataType` produces, plus the `'mixed'` tag of a column. */
  datatype DataTag = NullType | BooleanType | IntegerType | FloatType | DateType | StringType | Mixed

  /** `Column['type']`. */
  datatype ColumnKind = TextKind | CheckboxKind | StatusKind | TaskKind | DateKind | NumberKind

  /** A column; `visible`, `order` and `dataType` are optional properties. */
  datatype Column = Column(
    id: string,
    name: string,
    kind: ColumnKind,
    visible: Option<bool>,
    order: Option<int>,
    dataType: Option<DataTag>)

  datatype Task = Task(id: string, name: string, completed: bool, category: Option<string>)

  /** A guest record: an object whose properties are keyed by column id,
      besides `id` and `status`. */
  type Guest = map<string, Value>

  /** `guest[key]`. */
  function Get(g: Guest, key: string): Option<Value>
  {
    if key in g then Some(g[key]) else None
  }

  /** A list. `categories` may be missing in lists stored by older versions. */
  datatype GuestList = GuestList(
    id: string,
    name: string,
    columns: seq<Column>,
    guests: seq<Guest>,
    tasks: seq<Task>,
    categories: Option<seq<string>>,
    statusTags: seq<string>)

  /** A column is shown unless its flag is explicitly false. */
  predicate IsShown(c: Column)
  {
    c.visible != Some(false)
  }

  /** The sort key of a column: its order, 0 when it has none. */
  function OrderKey(c: Column): int
  {
    if c.order.Some? then c.order.value else 0
  }

  /** No two columns share an id. */
  predicate IdsDistinct(cols: seq<Column>)
  {
    forall i, j :: 0 <= i < j < |cols| ==> cols[i].id != cols[j].id
  }

  /** Some column is of kind `status`. */
  predicate HasStatusColumn(cols: seq<Column>)
  {
    exists i :: 0 <= i < |cols| && cols[i].kind == StatusKind
  }
}

/**
 * Trees as database records (src/slay_marshall.c): a tree becomes a row, its
 * containers below the top become rows of their own under fresh keys, and the
 * tree is rebuilt from them.
 */
module SlayMarshall {
  import opened Marshal
  import opened SlayRow

  /** Keys in their written form, with braces. */
  const QUID_LENGTH := 38

  type Quid = s: string | |s| == QUID_LENGTH witness "{00000000-0000-0000-0000-000000000000}"

  predicate HasData(tag: Type) {
    tag == INT || tag == FLOAT || tag == TEXT || tag == QUID
  }

  predicate HasDescent(tag: Type) {
    tag == LIST || tag == MAP
  }

  // ----- storing, as functions -----

  /** The rows by their keys, and how many keys have been made. */
  datatype Records = Records(rows: map<Quid, string>, made: nat)

  datatype Stored = Stored(bytes: string, records: Records)

  /** object_descent_count. */
  function DescentCount(kids: seq<Marshal>): (n: nat)
    ensures n <= |kids|
  {
    if kids == [] then 0 else (if HasDescent(kids[0].tag) then 1 else 0) + DescentCount(kids[1..])
  }

  function DataSize(kids: seq<Marshal>): nat {
    if kids == [] then 0 else |kids[0].data| + |kids[0].name| + DataSize(kids[1..])
  }

  /** What slay_put reserves for the values of a container. */
  function Room(kids: seq<Marshal>): nat {
    VALUE_SIZE * |kids| + QUID_LENGTH * DescentCount(kids) + DataSize(kids)
  }

  /** A container of containers is a table or a set. */
  function SchemaFor(m: Marshal): Schema
    requires HasDescent(m.tag)
  {
    if DescentCount(m.kids) == |m.kids| > 1 then
      if m.tag == LIST then TABLE else SET
    else if m.tag == LIST then ARRAY else OBJECT
  }

  function Single(m: Marshal): Value {
    Value(m.tag, "", if HasData(m.tag) then m.data else "")
  }

  /** engine_insert_data: a present key is refused. */
  function Inserted(r: Records, key: Quid, row: string): Records {
    if key in r.rows then r else r.(rows := r.rows[key := row])
  }

  /** The row of a tree. Each container below it takes the next key. */
  function Put(keys: nat -> Quid, m: Marshal, r: Records): Stored
    decreases m, 1
  {
    if HasDescent(m.tag) then
      var s := PutKids(keys, m.kids, r);
      var unused := if |s.bytes| <= Room(m.kids) then Room(m.kids) - |s.bytes| else 0;
      Stored(Header(SchemaFor(m), |m.kids|) + s.bytes + Zeros(unused), s.records)
    else Stored(Header(FIELD, 1) + Wrapped(Single(m)), r)
  }

  /** The values of a container; a child whose key is refused is left out. */
  function PutKids(keys: nat -> Quid, kids: seq<Marshal>, r: Records): Stored
    decreases kids, 0
  {
    if kids == [] then Stored([], r)
    else
      var first := PutKid(keys, kids[0], r);
      var others := PutKids(keys, kids[1..], first.records);
      Stored(first.bytes + others.bytes, others.records)
  }

  function PutKid(keys: nat -> Quid, kid: Marshal, r: Records): Stored
    decreases kid, 2
  {
    if HasDescent(kid.tag) then
      var s := Put(keys, kid, r);
      var key, made := keys(s.records.made), s.records.(made := s.records.made + 1);
      if key in s.records.rows then Stored([], made)
      else Stored(Wrapped(Value(QUID, kid.name, key)), Inserted(made, key, s.bytes))
    else Stored(Wrapped(Value(kid.tag, kid.name, if HasData(kid.tag) then kid.data else "")), r)
  }

  // ----- loading, as functions -----

  /** A tree; or a null pointer; or what the source leaves undefined: reading past
      the row, writing through a null pointer, freeing a name twice, a key read
      from a text that is none, or a chain of records without end. */
  datatype Loaded = Tree(tree: Marshal) | Null | Broken

  datatype LoadedKids = Kids(kids: seq<Marshal>) | BrokenKids

  /** strtoquid: with and without braces. */
  function KeyOf(text: string): (k: Option<Quid>) {
    if |text| == QUID_LENGTH then Some(text)
    else if |text| == QUID_LENGTH - 2 then Some("{" + text + "}")
    else None
  }

  const NOTHING := Marshal("", NULL, "", [])

  function Leaf(v: Value, name: string): Marshal {
    Marshal(name, v.tag, v.data, [])
  }

  /** get_child_record; rows may lead to rows `depth` times. */
  function Record(rows: map<Quid, string>, text: string, depth: nat): Loaded
    decreases depth, 2
  {
    match KeyOf(text)
    case None => Broken
    case Some(key) =>
      if key !in rows then Null
      else if depth == 0 then Broken
      else Get(rows, rows[key], true, depth - 1)
  }

  /** slay_get. */
  function Get(rows: map<Quid, string>, data: string, descent: bool, depth: nat): Loaded
    decreases depth, 5
  {
    if |data| < ROW_SIZE then Broken
    else
      var elements := Number(data[..8]);
      match SchemaOf(data[8])
      case None => Null
      case Some(FIELD) => GetField(rows, data[ROW_SIZE..], descent, depth)
      case Some(schema) =>
        match GetKids(rows, schema, data[ROW_SIZE..], elements, false, descent, depth)
        case BrokenKids => Broken
        case Kids(kids) => Tree(Marshal("", if schema == ARRAY || schema == TABLE then LIST else MAP, "", kids))
  }

  function GetField(rows: map<Quid, string>, bytes: string, descent: bool, depth: nat): Loaded
    decreases depth, 4
  {
    match Unwrapped(bytes)
    case None => Broken
    case Some(read) =>
      var v := read.value;
      if v.name != "" then Broken
      else if v.tag == QUID && descent then
        match Record(rows, v.data, depth)
        case Null => Tree(NOTHING)
        case other => other
      else Tree(Leaf(v, ""))
  }

  datatype Step = Child(child: Marshal) | Skipped | Failed

  /** One round of the loops of slay_get. `stale` says that the name variable
      still points to a name that has been freed. */
  function GetKid(rows: map<Quid, string>, schema: Schema, v: Value, stale: bool, descent: bool, depth: nat): Step
    decreases depth, 3
  {
    match schema
    case FIELD => Failed
    case ARRAY =>
      if v.name != "" then Failed
      else if v.tag == QUID && descent then
        match Record(rows, v.data, depth)
        case Broken => Failed
        case Null => Child(NOTHING)
        case Tree(t) => Child(t)
      else Child(Leaf(v, ""))
    case OBJECT =>
      if v.name == "" && stale then Failed
      else if v.tag == QUID && descent then
        match Record(rows, v.data, depth)
        case Broken => Failed
        case Null => Child(NOTHING.(name := v.name))
        case Tree(t) => Child(t.(name := v.name))
      else Child(Leaf(v, v.name))
    case TABLE =>
      if v.name != "" then Failed
      else if descent then
        match Record(rows, v.data, depth)
        case Broken => Failed
        case Null => Failed
        case Tree(t) => Child(t)
      else Child(Leaf(v, ""))
    case SET =>
      if v.name == "" && stale then Failed
      else if descent then
        match Record(rows, v.data, depth)
        case Broken => Failed
        case Null => if v.name == "" then Skipped else Failed
        case Tree(t) => if v.name == "" then Skipped else Child(t.(name := v.name))
      else if v.name == "" then Skipped
      else Child(Leaf(v, v.name))
  }

  function GetKids(rows: map<Quid, string>, schema: Schema, bytes: string, elements: nat, stale: bool, descent: bool, depth: nat): LoadedKids
    decreases depth, 4, elements
  {
    if elements == 0 then Kids([])
    else
      match Unwrapped(bytes)
      case None => BrokenKids
      case Some(read) =>
        var others := GetKids(rows, schema, bytes[read.size..], elements - 1, stale || read.value.name != "", descent, depth);
        match GetKid(rows, schema, read.value, stale, descent, depth)
        case Failed => BrokenKids
        case Skipped => others
        case Child(kid) => if others.Kids? then Kids([kid] + others.kids) else BrokenKids
  }
}

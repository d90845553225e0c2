/**
 * Rows (src/slay_marshall.c): a header and a run of values in one buffer of
 * characters, with the layout of the source's two structures on a 64-bit
 * little-endian machine.
 */
module SlayRow {
  import opened Marshal

  datatype Schema = FIELD | ARRAY | OBJECT | TABLE | SET

  /** What slay_wrap writes and slay_unwrap reads. */
  datatype Value = Value(tag: Type, name: string, data: string)

  const ROW_SIZE := 16    // sizeof(struct row_slay)
  const VALUE_SIZE := 24  // sizeof(struct value_slay)
  const LIMIT := 0x1_0000_0000_0000_0000

  // ----- numbers -----

  function LittleEndian(x: nat, k: nat): (s: string)
    ensures |s| == k
  {
    if k == 0 then [] else [(x % 256) as char] + LittleEndian(x / 256, k - 1)
  }

  function Number(s: string): nat {
    if s == [] then 0 else s[0] as int + 256 * Number(s[1..])
  }

  function Power256(k: nat): (p: nat)
    ensures p > 0
  {
    if k == 0 then 1 else 256 * Power256(k - 1)
  }

  lemma {:induction false} NumberBack(x: nat, k: nat)
    requires x < Power256(k)
    ensures Number(LittleEndian(x, k)) == x
  {
    if k > 0 {
      var s := LittleEndian(x, k);
      assert s[1..] == LittleEndian(x / 256, k - 1);
      NumberBack(x / 256, k - 1);
    }
  }

  lemma NumberBack8(x: nat)
    requires x < LIMIT
    ensures Number(LittleEndian(x, 8)) == x
  {
    assert Power256(8) == LIMIT by {
      assert Power256(4) == 0x1_0000_0000;
    }
    NumberBack(x, 8);
  }

  function Zeros(k: nat): (s: string)
    ensures |s| == k
  {
    seq(k, _ => '\0')
  }

  // ----- the two structures -----

  function TypeCode(tag: Type): nat {
    match tag
    case NULL => 0
    case TRUE => 1
    case FALSE => 2
    case INT => 3
    case FLOAT => 4
    case TEXT => 5
    case QUID => 6
    case LIST => 7
    case MAP => 8
  }

  datatype Option<+T> = None | Some(value: T)

  function TypeOf(code: nat): Option<Type> {
    match code
    case 0 => Some(NULL)
    case 1 => Some(TRUE)
    case 2 => Some(FALSE)
    case 3 => Some(INT)
    case 4 => Some(FLOAT)
    case 5 => Some(TEXT)
    case 6 => Some(QUID)
    case 7 => Some(LIST)
    case 8 => Some(MAP)
    case _ => None
  }

  function SchemaCode(schema: Schema): char {
    match schema
    case FIELD => '\U{0}'
    case ARRAY => '\U{1}'
    case OBJECT => '\U{2}'
    case TABLE => '\U{3}'
    case SET => '\U{4}'
  }

  function SchemaOf(code: char): Option<Schema> {
    if code == '\U{0}' then Some(FIELD)
    else if code == '\U{1}' then Some(ARRAY)
    else if code == '\U{2}' then Some(OBJECT)
    else if code == '\U{3}' then Some(TABLE)
    else if code == '\U{4}' then Some(SET)
    else None
  }

  /** struct row_slay. */
  function Header(schema: Schema, elements: nat): (s: string)
    ensures |s| == ROW_SIZE
  {
    LittleEndian(elements, 8) + [SchemaCode(schema)] + Zeros(7)
  }

  /** struct value_slay and what follows it. */
  function Wrapped(v: Value): (s: string)
    ensures |s| == VALUE_SIZE + |v.data| + |v.name|
  {
    LittleEndian(TypeCode(v.tag), 2) + Zeros(6) + LittleEndian(|v.data|, 8) + LittleEndian(|v.name|, 8) + v.data + v.name
  }

  datatype Read = Read(value: Value, size: nat)

  /** What is read at the start of `s`, and how much of it; nothing if that runs
      over the end, or if no type has that number. */
  function Unwrapped(s: string): (r: Option<Read>)
    ensures r.Some? ==> r.value.size <= |s|
    ensures r.Some? ==> r.value.size == VALUE_SIZE + |r.value.value.data| + |r.value.value.name|
  {
    if |s| < VALUE_SIZE then None
    else
      var tag := TypeOf(Number(s[..2]));
      var size, nameSize := Number(s[8..16]), Number(s[16..24]);
      var n := VALUE_SIZE + size;
      if tag == None || n + nameSize > |s| then None
      else Some(Read(Value(tag.value, s[n..n + nameSize], s[VALUE_SIZE..n]), n + nameSize))
  }

  /** Sizes that fit in a size_t. */
  predicate Sized(v: Value) {
    |v.data| < LIMIT && |v.name| < LIMIT
  }

  lemma UnwrapWrapped(v: Value, rest: string)
    requires Sized(v)
    ensures Unwrapped(Wrapped(v) + rest) == Some(Read(v, |Wrapped(v)|))
  {
    var a, b, c := LittleEndian(TypeCode(v.tag), 2), LittleEndian(|v.data|, 8), LittleEndian(|v.name|, 8);
    var s := Wrapped(v) + rest;
    assert Number(a) == TypeCode(v.tag) by {
      assert Power256(2) == 65536;
      NumberBack(TypeCode(v.tag), 2);
    }
    NumberBack8(|v.data|);
    NumberBack8(|v.name|);
    hide LittleEndian, Number, Zeros;
    var n := VALUE_SIZE + |v.data|;
    Parts(a, Zeros(6), b, c, v.data, v.name, rest);
    assert s == a + Zeros(6) + b + c + v.data + v.name + rest;
  }

  lemma Parts(a: string, z: string, b: string, c: string, data: string, name: string, rest: string)
    requires |a| == 2 && |z| == 6 && |b| == |c| == 8
    ensures var s := a + z + b + c + data + name + rest;
      var n := VALUE_SIZE + |data|;
      s[..2] == a && s[8..16] == b && s[16..24] == c && s[VALUE_SIZE..n] == data && s[n..n + |name|] == name
  {
    var s := a + z + b + c + data + name + rest;
    var n := VALUE_SIZE + |data|;
    assert s[..2] == a && s[8..16] == b && s[16..24] == c;
    assert s[VALUE_SIZE..n] == data;
    assert s[n..n + |name|] == name;
  }

  lemma HeaderRead(schema: Schema, elements: nat, rest: string)
    requires elements < LIMIT
    ensures var s := Header(schema, elements) + rest;
      Number(s[..8]) == elements && SchemaOf(s[8]) == Some(schema) && s[ROW_SIZE..] == rest
  {
    NumberBack8(elements);
    hide LittleEndian, Number;
    var s := Header(schema, elements) + rest;
    assert s[..8] == LittleEndian(elements, 8) && s[8] == SchemaCode(schema);
  }

  // ----- writing and reading in place -----

  /** So far written, and zeros behind it. */
  ghost predicate Holds(row: array<char>, at: nat, s: string)
    reads row
  {
    |s| == at <= row.Length && row[..at] == s && row[at..] == Zeros(row.Length - at)
  }

  /** memcpy, behind what is written. */
  method Append(row: array<char>, at: nat, data: string, ghost s: string)
    requires Holds(row, at, s) && at + |data| <= row.Length
    modifies row
    ensures Holds(row, at + |data|, s + data)
  {
    forall i | 0 <= i < |data| {
      row[at + i] := data[i];
    }
    assert row[..at] == s;
    assert row[at..at + |data|] == data;
  }

  /** Zeros left as they are. */
  lemma Skip(row: array<char>, at: nat, k: nat, s: string)
    requires Holds(row, at, s) && at + k <= row.Length
    ensures Holds(row, at + k, s + Zeros(k))
  {
    assert row[at..][..k] == Zeros(k) && row[at..][k..] == Zeros(row.Length - at - k);
    assert row[..at + k] == row[..at] + row[at..][..k];
    assert row[at + k..] == row[at..][k..];
  }

  /** create_row: an empty container would fail its assertion. */
  method CreateRow(schema: Schema, el: nat, dataLen: nat) returns (row: array<char>)
    requires el >= 1
    ensures fresh(row) && row.Length == ROW_SIZE + el * VALUE_SIZE + dataLen && Holds(row, ROW_SIZE, Header(schema, el))
  {
    hide LittleEndian;
    row := new char[ROW_SIZE + el * VALUE_SIZE + dataLen](_ => '\0');
    Append(row, 0, LittleEndian(el, 8), []);
    Append(row, 8, [SchemaCode(schema)], [] + LittleEndian(el, 8));
    Skip(row, 9, 7, [] + LittleEndian(el, 8) + [SchemaCode(schema)]);
    assert Header(schema, el) == [] + LittleEndian(el, 8) + [SchemaCode(schema)] + Zeros(7);
  }

  /** slay_wrap. */
  method SlayWrap(row: array<char>, at: nat, v: Value, ghost s: string) returns (next: nat)
    requires Holds(row, at, s) && at + VALUE_SIZE + |v.data| + |v.name| <= row.Length
    modifies row
    ensures next == at + VALUE_SIZE + |v.data| + |v.name| && Holds(row, next, s + Wrapped(v))
  {
    hide Holds, LittleEndian, TypeCode;
    var a, b, c := LittleEndian(TypeCode(v.tag), 2), LittleEndian(|v.data|, 8), LittleEndian(|v.name|, 8);
    Append(row, at, a, s);
    Skip(row, at + 2, 6, s + a);
    Append(row, at + 8, b, s + a + Zeros(6));
    Append(row, at + 16, c, s + a + Zeros(6) + b);
    Append(row, at + VALUE_SIZE, v.data, s + a + Zeros(6) + b + c);
    next := at + VALUE_SIZE + |v.data| + |v.name|;
    Append(row, at + VALUE_SIZE + |v.data|, v.name, s + a + Zeros(6) + b + c + v.data);
    Chain(s, a, Zeros(6), b, c, v.data, v.name);
  }

  lemma Chain(s: string, a: string, z: string, b: string, c: string, d: string, e: string)
    ensures s + a + z + b + c + d + e == s + (a + z + b + c + d + e)
  {
  }
}

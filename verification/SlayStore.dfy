/**
 * slay_put and slay_get (src/slay_marshall.c), which write rows through an
 * advancing pointer and read them back in loops.
 */
module SlayStore {
  import opened Marshal
  import opened SlayRow
  import opened SlayMarshall
  import opened SlayTheory

  /** The part of the database that rows are kept in: a map from keys to bytes. The
      keys that quid_create will make are given as a sequence without end. */
  class Base {
    const keys: nat -> Quid
    var rows: map<Quid, string>
    var made: nat

    function Records(): Records
      reads this
    {
      SlayMarshall.Records(rows, made)
    }

    constructor (keys: nat -> Quid)
      ensures this.keys == keys && Records() == SlayMarshall.Records(map[], 0)
    {
      this.keys, rows, made := keys, map[], 0;
    }

    method QuidCreate() returns (key: Quid)
      modifies this
      ensures key == keys(old(made)) && Records() == old(Records()).(made := old(made) + 1)
    {
      key := keys(made);
      made := made + 1;
    }

    /** engine_insert_data. */
    method InsertData(key: Quid, row: string) returns (code: int)
      modifies this
      ensures code == if key in old(rows) then -1 else 0
      ensures Records() == Inserted(old(Records()), key, row)
    {
      if key in rows {
        return -1;
      }
      rows := rows[key := row];
      code := 0;
    }
  }

  /** No container on the way is empty: create_row aborts on those. */
  predicate Filled(m: Marshal) {
    HasDescent(m.tag) ==> m.kids != [] && forall kid <- m.kids :: Filled(kid)
  }

  method ObjectDescentCount(kids: seq<Marshal>) returns (cnt: nat)
    ensures cnt == DescentCount(kids)
  {
    cnt := 0;
    for i := 0 to |kids|
      invariant cnt + DescentCount(kids[i..]) == DescentCount(kids)
    {
      assert kids[i..][1..] == kids[i + 1..];
      if HasDescent(kids[i].tag) {
        cnt := cnt + 1;
      }
    }
  }

  /** The estimate of slay_put. */
  method Estimate(kids: seq<Marshal>, desccnt: nat) returns (dataLen: nat)
    requires desccnt == DescentCount(kids)
    ensures VALUE_SIZE * |kids| + dataLen == Room(kids)
  {
    dataLen := desccnt * QUID_LENGTH;
    for i := 0 to |kids|
      invariant dataLen + DataSize(kids[i..]) == QUID_LENGTH * desccnt + DataSize(kids)
    {
      assert kids[i..][1..] == kids[i + 1..];
      dataLen := dataLen + |kids[i].data| + |kids[i].name|;
    }
  }

  /** slay_put. */
  method SlayPut(base: Base, m: Marshal) returns (slay: array<char>)
    requires Filled(m)
    modifies base
    ensures fresh(slay)
    ensures Stored(slay[..], base.Records()) == Put(base.keys, m, old(base.Records()))
    decreases m, 1
  {
    hide Wrapped, Header, PutKids;
    if HasDescent(m.tag) {
      slay := PutContainerRow(base, m);
    } else {
      var v := Single(m);
      slay := CreateRow(FIELD, 1, |v.data|);
      var next := SlayWrap(slay, ROW_SIZE, v, Header(FIELD, 1));
      assert slay[..] == slay[..next];
    }
  }

  /** The values written so far and those to come are the values of all. */
  ghost predicate Ongoing(keys: nat -> Quid, kids: seq<Marshal>, i: nat, r: Records, now: Records, done: string) {
    && i <= |kids| && |done| + Room(kids[i..]) <= Room(kids)
    && PutKids(keys, kids, r) == Stored(done + PutKids(keys, kids[i..], now).bytes, PutKids(keys, kids[i..], now).records)
  }

  lemma OngoingStart(keys: nat -> Quid, kids: seq<Marshal>, r: Records)
    ensures Ongoing(keys, kids, 0, r, r, [])
  {
    assert kids[0..] == kids;
    hide PutKids, Room;
    assert [] + PutKids(keys, kids, r).bytes == PutKids(keys, kids, r).bytes;
  }

  lemma OngoingNext(keys: nat -> Quid, kids: seq<Marshal>, i: nat, r: Records, now: Records, done: string)
    requires Ongoing(keys, kids, i, r, now, done) && i < |kids|
    ensures var kid := PutKid(keys, kids[i], now);
      Ongoing(keys, kids, i + 1, r, kid.records, done + kid.bytes) && |done + kid.bytes| <= Room(kids)
  {
    var rest, kid := kids[i..], PutKid(keys, kids[i], now);
    assert rest[1..] == kids[i + 1..] && rest[0] == kids[i];
    var others := PutKids(keys, rest[1..], kid.records);
    assert PutKids(keys, rest, now) == Stored(kid.bytes + others.bytes, others.records);
    OneFits(keys, kids[i], now);
    hide PutKids, PutKid;
    assert done + kid.bytes + others.bytes == done + (kid.bytes + others.bytes);
  }

  lemma OneFits(keys: nat -> Quid, kid: Marshal, r: Records)
    ensures |PutKid(keys, kid, r).bytes| <= VALUE_SIZE + |kid.name| + if HasDescent(kid.tag) then QUID_LENGTH else |kid.data|
  {
    hide Put;
  }

  lemma OngoingEnd(keys: nat -> Quid, kids: seq<Marshal>, r: Records, now: Records, done: string)
    requires Ongoing(keys, kids, |kids|, r, now, done)
    ensures PutKids(keys, kids, r) == Stored(done, now) && |done| <= Room(kids)
  {
    assert kids[|kids|..] == [];
    assert done + [] == done;
  }

  /** The part of slay_put for containers. */
  method PutContainerRow(base: Base, m: Marshal) returns (slay: array<char>)
    requires Filled(m) && HasDescent(m.tag)
    modifies base
    ensures fresh(slay)
    ensures Stored(slay[..], base.Records()) == Put(base.keys, m, old(base.Records()))
    decreases m, 0
  {
    var desccnt := ObjectDescentCount(m.kids);
    var dataLen := Estimate(m.kids, desccnt);
    var schema := if m.tag == LIST then ARRAY else OBJECT;
    if desccnt == |m.kids| && |m.kids| > 1 {
      schema := if schema == ARRAY then TABLE else SET;
    }
    FilledKids(m);
    slay := CreateRow(schema, |m.kids|, dataLen);
    var next: nat := ROW_SIZE;
    ghost var r, done, header := base.Records(), "", Header(schema, |m.kids|);
    OngoingStart(base.keys, m.kids, r);
    assert header + done == header;
    assert schema == SchemaFor(m);
    hide Put, PutKids, PutKid, Room, Ongoing, Holds, Filled, Header, Wrapped, SchemaFor, DescentCount, Base.Records;
    for i := 0 to |m.kids|
      invariant fresh(slay) && slay.Length == ROW_SIZE + Room(m.kids)
      invariant Ongoing(base.keys, m.kids, i, r, base.Records(), done)
      invariant |header| == ROW_SIZE && next == |header + done| && Holds(slay, next, header + done)
    {
      ghost var now := base.Records();
      ghost var bytes := PutKid(base.keys, m.kids[i], now).bytes;
      OngoingNext(base.keys, m.kids, i, r, now, done);
      var v := KidPut(base, m.kids[i]);
      if v.Some? {
        next := SlayWrap(slay, next, v.value, header + done);
      }
      Onward(header, done, bytes);
      done := done + bytes;
    }
    RowDone(base.keys, m, r, base.Records(), done, slay, next);
  }

  lemma FilledKids(m: Marshal)
    requires Filled(m) && HasDescent(m.tag)
    ensures m.kids != [] && forall i | 0 <= i < |m.kids| :: Filled(m.kids[i])
  {
  }

  lemma Onward(a: string, b: string, c: string)
    ensures a + (b + c) == a + b + c && b + [] == b
  {
  }

  lemma RowDone(keys: nat -> Quid, m: Marshal, r: Records, now: Records, done: string, slay: array<char>, next: nat)
    requires HasDescent(m.tag) && Ongoing(keys, m.kids, |m.kids|, r, now, done)
    requires slay.Length == ROW_SIZE + Room(m.kids) && Holds(slay, next, Header(SchemaFor(m), |m.kids|) + done)
    ensures Stored(slay[..], now) == Put(keys, m, r)
  {
    OngoingEnd(keys, m.kids, r, now, done);
    hide Ongoing, PutKids, Room, Header;
    assert slay[..] == slay[..next] + slay[next..];
  }

  /** One round of that loop: the value for the child, unless its key is refused. */
  method KidPut(base: Base, kid: Marshal) returns (v: Option<Value>)
    requires Filled(kid)
    modifies base
    ensures var s := PutKid(base.keys, kid, old(base.Records()));
      base.Records() == s.records && s.bytes == if v.Some? then Wrapped(v.value) else []
    decreases kid, 2
  {
    hide Wrapped, Put;
    if HasData(kid.tag) {
      v := Some(Value(kid.tag, kid.name, kid.data));
    } else if HasDescent(kid.tag) {
      var row := SlayPut(base, kid);
      var key := base.QuidCreate();
      var code := base.InsertData(key, row[..]);
      if code < 0 {
        return None;
      }
      v := Some(Value(QUID, kid.name, key));
    } else {
      v := Some(Value(kid.tag, kid.name, ""));
    }
  }

  // ----- loading -----

  /** get_child_record. */
  method GetChildRecord(base: Base, quid: string, depth: nat) returns (loaded: Loaded)
    ensures loaded == Record(base.rows, quid, depth)
    decreases depth, 1
  {
    var key := KeyOf(quid);
    if key == None {
      return Broken;
    }
    if key.value !in base.rows {
      return Null;
    }
    if depth == 0 {
      return Broken;
    }
    loaded := SlayGet(base, base.rows[key.value], true, depth - 1);
  }

  /** slay_get. */
  method SlayGet(base: Base, data: string, descent: bool, depth: nat) returns (loaded: Loaded)
    ensures loaded == Get(base.rows, data, descent, depth)
    decreases depth, 4
  {
    hide GetKids, GetField, Unwrapped, Number, SchemaOf, Record;
    if |data| < ROW_SIZE {
      return Broken;
    }
    var elements := Number(data[..8]);
    var schema := SchemaOf(data[8]);
    if schema == None {
      return Null;
    }
    if schema.value == FIELD {
      loaded := FieldGet(base, data[ROW_SIZE..], descent, depth);
      return;
    }
    var kids := KidsGet(base, schema.value, data, elements, descent, depth);
    if kids == BrokenKids {
      return Broken;
    }
    var tag := if schema.value == ARRAY || schema.value == TABLE then LIST else MAP;
    loaded := Tree(Marshal("", tag, "", kids.kids));
  }

  method FieldGet(base: Base, bytes: string, descent: bool, depth: nat) returns (loaded: Loaded)
    ensures loaded == GetField(base.rows, bytes, descent, depth)
    decreases depth, 3
  {
    hide Unwrapped, Record;
    var read := Unwrapped(bytes);
    if read == None || read.value.value.name != "" {
      return Broken;
    }
    var v := read.value.value;
    if v.tag == QUID && descent {
      loaded := GetChildRecord(base, v.data, depth);
      if loaded == Null {
        loaded := Tree(NOTHING);
      }
      return;
    }
    loaded := Tree(Leaf(v, ""));
  }

  /** The children still to come, behind those already there. */
  function Joined(kids: seq<Marshal>, others: LoadedKids): LoadedKids {
    if others.Kids? then Kids(kids + others.kids) else BrokenKids
  }

  /** The loops of slay_get. */
  method KidsGet(base: Base, schema: Schema, data: string, elements: nat, descent: bool, depth: nat) returns (r: LoadedKids)
    requires |data| >= ROW_SIZE
    ensures r == GetKids(base.rows, schema, data[ROW_SIZE..], elements, false, descent, depth)
    decreases depth, 3
  {
    hide GetKid, GetKids, Unwrapped, Joined;
    var next: nat, kids, stale := ROW_SIZE, [], false;
    ghost var all := GetKids(base.rows, schema, data[ROW_SIZE..], elements, false, descent, depth);
    JoinedNone(all);
    for i := 0 to elements
      invariant next <= |data|
      invariant all == Joined(kids, GetKids(base.rows, schema, data[next..], elements - i, stale, descent, depth))
    {
      var read := Unwrapped(data[next..]);
      NextKid(base.rows, schema, data, next, elements - i, stale, descent, depth);
      if read == None {
        JoinedBroken(kids);
        return BrokenKids;
      }
      var v := read.value.value;
      var kid := KidGet(base, schema, v, stale, descent, depth);
      if kid == Failed {
        JoinedBroken(kids);
        return BrokenKids;
      }
      next, stale := next + read.value.size, stale || v.name != "";
      if kid.Child? {
        JoinedNext(kids, kid.child, GetKids(base.rows, schema, data[next..], elements - i - 1, stale, descent, depth));
        kids := kids + [kid.child];
      }
    }
    NextKid(base.rows, schema, data, next, 0, stale, descent, depth);
    assert Joined(kids, Kids([])) == Kids(kids) by {
      JoinedAll(kids);
    }
    r := Kids(kids);
  }

  lemma JoinedNone(others: LoadedKids)
    ensures Joined([], others) == others
  {
  }

  lemma JoinedAll(kids: seq<Marshal>)
    ensures Joined(kids, Kids([])) == Kids(kids)
  {
  }

  lemma JoinedNext(kids: seq<Marshal>, kid: Marshal, others: LoadedKids)
    ensures Joined(kids, Joined([kid], others)) == Joined(kids + [kid], others)
  {
    assert others.Kids? ==> kids + ([kid] + others.kids) == kids + [kid] + others.kids;
  }

  /** One round, on the function. */
  lemma NextKid(rows: map<Quid, string>, schema: Schema, data: string, next: nat, elements: nat, stale: bool, descent: bool, depth: nat)
    requires next <= |data|
    ensures var all := GetKids(rows, schema, data[next..], elements, stale, descent, depth);
      if elements == 0 then all == Kids([])
      else
        match Unwrapped(data[next..])
        case None => all == BrokenKids
        case Some(read) =>
          var rest := data[next + read.size..];
          var others := GetKids(rows, schema, rest, elements - 1, stale || read.value.name != "", descent, depth);
          match GetKid(rows, schema, read.value, stale, descent, depth)
          case Failed => all == BrokenKids
          case Skipped => all == others
          case Child(kid) => all == Joined([kid], others)
  {
    hide GetKid, Unwrapped;
    assert forall k | 0 <= k <= |data| - next :: data[next..][k..] == data[next + k..];
  }

  lemma JoinedBroken(kids: seq<Marshal>)
    ensures Joined(kids, BrokenKids) == BrokenKids
  {
  }

  /** The body of those loops. */
  method KidGet(base: Base, schema: Schema, v: Value, stale: bool, descent: bool, depth: nat) returns (step: Step)
    ensures step == GetKid(base.rows, schema, v, stale, descent, depth)
    decreases depth, 2
  {
    hide Record;
    var named := schema == OBJECT || schema == SET;
    if schema == FIELD || (!named && v.name != "") || (named && v.name == "" && stale) {
      return Failed;
    }
    if descent && (v.tag == QUID || schema == TABLE || schema == SET) {
      var loaded := GetChildRecord(base, v.data, depth);
      if loaded == Broken {
        return Failed;
      }
      if schema == SET && v.name == "" {
        return Skipped;
      }
      if loaded == Null {
        return if schema == ARRAY || schema == OBJECT then Child(NOTHING.(name := v.name)) else Failed;
      }
      return Child(if named then loaded.tree.(name := v.name) else loaded.tree);
    }
    if schema == SET && v.name == "" {
      return Skipped;
    }
    step := Child(Leaf(v, v.name));
  }

  // ----- a round trip -----

  lemma StorableFilled(m: Marshal)
    requires Storable(m)
    ensures Filled(m)
  {
  }

  /** What has been stored is loaded again, if and only if it is loadable, whatever was
      there before, as long as the keys are fresh. */
  method PutAndGet(base: Base, m: Marshal) returns (loaded: Loaded)
    requires Storable(m) && Fresh(base.keys, base.Records(), base.made + Below(m))
    modifies base
    ensures loaded == Tree(Back(m)) <==> Loadable(m)
    ensures |base.rows| == |old(base.rows)| + Below(m) && Within(old(base.rows), base.rows)
  {
    ghost var r := base.Records();
    PutGrows(base.keys, m, r);
    RowsCounted(base.keys, m, r, r.made + Below(m));
    StorableFilled(m);
    var slay := SlayPut(base, m);
    LoadsIff(base.keys, m, r, base.rows, Depth(m));
    loaded := SlayGet(base, slay[..], true, Depth(m));
  }
}

/**
 * Corollaries of storing and loading: which trees marshall_equal recognises again,
 * what loading without descent gives, what becomes of trees outside the rules.
 */
module SlayLaws {
  import opened Marshal
  import opened SlayRow
  import opened SlayMarshall
  import opened SlayTheory

  // ----- marshall_equal (src/marshall.c) -----

  /** What strcmp sees of a text. */
  function CString(s: string): string {
    if s == [] || s[0] == '\0' then [] else [s[0]] + CString(s[1..])
  }

  predicate Equal(a: Marshal, b: Marshal)
    decreases a, 1
  {
    if HasDescent(b.tag) then a.tag == b.tag && EqualKids(a.kids, b.kids)
    else
      && !HasDescent(a.tag) && a.tag == b.tag
      && |a.name| == |b.name| && CString(a.name) == CString(b.name)
      && |a.data| == |b.data| && CString(a.data) == CString(b.data)
  }

  predicate EqualKids(a: seq<Marshal>, b: seq<Marshal>)
    decreases a, 0
  {
    |a| == |b| && (a == [] || (Equal(a[0], b[0]) && EqualKids(a[1..], b[1..])))
  }

  /** marshall_equal. */
  method MarshallEqual(a: Marshal, b: Marshal) returns (equal: bool)
    ensures equal == Equal(a, b)
    decreases a
  {
    if HasDescent(b.tag) {
      if a.tag != b.tag || |a.kids| != |b.kids| {
        return false;
      }
      for i := 0 to |a.kids|
        invariant Equal(a, b) == EqualKids(a.kids[i..], b.kids[i..])
      {
        assert a.kids[i..][1..] == a.kids[i + 1..] && b.kids[i..][1..] == b.kids[i + 1..];
        var same := MarshallEqual(a.kids[i], b.kids[i]);
        if !same {
          return false;
        }
      }
      return true;
    }
    if HasDescent(a.tag) || a.tag != b.tag || |a.name| != |b.name| || |a.data| != |b.data| {
      return false;
    }
    equal := CString(a.name) == CString(b.name) && CString(a.data) == CString(b.data);
  }

  /** What marshall_equal sees of a tree: neither name nor data of a container. */
  datatype Sight =
    | Leaf(tag: Type, nameLength: nat, name: string, dataLength: nat, data: string)
    | Branch(tag: Type, kids: seq<Sight>)

  function SightOf(m: Marshal): Sight
    decreases m, 1
  {
    if HasDescent(m.tag) then Branch(m.tag, SightOfKids(m.kids))
    else Leaf(m.tag, |m.name|, CString(m.name), |m.data|, CString(m.data))
  }

  function SightOfKids(kids: seq<Marshal>): (r: seq<Sight>)
    ensures |r| == |kids|
    decreases kids, 0
  {
    if kids == [] then [] else [SightOf(kids[0])] + SightOfKids(kids[1..])
  }

  /** Equal trees are those of one shape, with the same types everywhere and the
      same names and data at the leaves, up to the first zero. */
  lemma {:induction false} EqualSight(a: Marshal, b: Marshal)
    ensures Equal(a, b) <==> SightOf(a) == SightOf(b)
    decreases a, 1
  {
    if HasDescent(a.tag) && HasDescent(b.tag) {
      EqualKidsSight(a.kids, b.kids);
    }
  }

  lemma {:induction false} EqualKidsSight(a: seq<Marshal>, b: seq<Marshal>)
    ensures EqualKids(a, b) <==> SightOfKids(a) == SightOfKids(b)
    decreases a, 0
  {
    if a != [] && b != [] {
      EqualSight(a[0], b[0]);
      EqualKidsSight(a[1..], b[1..]);
      var x, y := SightOfKids(a), SightOfKids(b);
      assert x[0] == SightOf(a[0]) && x[1..] == SightOfKids(a[1..]);
      assert y[0] == SightOf(b[0]) && y[1..] == SightOfKids(b[1..]);
      assert x == [x[0]] + x[1..] && y == [y[0]] + y[1..];
    }
  }

  /** CString stops at the first zero, and nowhere else. */
  lemma {:induction false} CStringIs(s: string)
    ensures CString(s) <= s && '\0' !in CString(s)
    ensures |CString(s)| == |s| || s[|CString(s)|] == '\0'
  {
    if s != [] && s[0] != '\0' {
      CStringIs(s[1..]);
      assert s == [s[0]] + s[1..];
    }
  }

  /** No leaf carries bytes that its type does not hold. */
  predicate Plain(m: Marshal) {
    if HasDescent(m.tag) then forall kid <- m.kids :: Plain(kid) else HasData(m.tag) || m.data == ""
  }

  lemma {:induction false} EqualNamed(m: Marshal)
    requires Storable(m)
    ensures Equal(m, Back(m).(name := m.name)) <==> Plain(m)
    decreases m, 1
  {
    if HasDescent(m.tag) {
      EqualNamedKids(m.kids);
    }
  }

  lemma {:induction false} EqualNamedKids(kids: seq<Marshal>)
    requires forall kid <- kids :: Storable(kid)
    ensures EqualKids(kids, BackKids(kids)) <==> forall kid <- kids :: Plain(kid)
    decreases kids, 0
  {
    if kids != [] {
      EqualNamed(kids[0]);
      EqualNamedKids(kids[1..]);
      assert kids == [kids[0]] + kids[1..];
      assert BackKids(kids)[1..] == BackKids(kids[1..]);
    }
  }

  /** What came back is equal to the tree stored if and only if that is loadable, is a
      container or has no name, and no leaf of it carries bytes for nothing. */
  lemma EqualIff(keys: nat -> Quid, m: Marshal, r: Records, rows: map<Quid, string>, depth: nat)
    requires Storable(m) && Depth(m) <= depth
    requires Fresh(keys, r, r.made + Below(m)) && Within(Put(keys, m, r).records.rows, rows)
    ensures var loaded := Get(rows, Put(keys, m, r).bytes, true, depth);
      loaded.Tree? && Equal(m, loaded.tree) <==> Loadable(m) && Plain(m) && (HasDescent(m.tag) || m.name == "")
  {
    var loaded := Get(rows, Put(keys, m, r).bytes, true, depth);
    PutGrows(keys, m, r);
    EqualBack(m);
    hide *;
    PutGet(keys, m, r, r.made + Below(m), rows, depth);
    if loaded.Tree? && Equal(m, loaded.tree) {
      EqualAlike(m, loaded.tree);
    }
  }

  /** The same of the tree that a loadable one comes back as. */
  lemma EqualBack(m: Marshal)
    requires Storable(m)
    ensures Equal(m, Back(m)) <==> Plain(m) && (HasDescent(m.tag) || m.name == "")
  {
    EqualNamed(m);
  }

  lemma {:induction false} EqualAlike(m: Marshal, t: Marshal)
    requires Equal(m, t)
    ensures Alike(m, t)
    decreases m, 1
  {
    if HasDescent(m.tag) {
      EqualAlikeKids(m.kids, t.kids);
    }
  }

  lemma {:induction false} EqualAlikeKids(a: seq<Marshal>, b: seq<Marshal>)
    requires EqualKids(a, b)
    ensures AlikeKids(a, b)
    decreases a, 0
  {
    if a != [] {
      EqualAlike(a[0], b[0]);
      EqualAlikeKids(a[1..], b[1..]);
    }
  }

  // ----- more than one tree -----

  /** Of two trees stored one after the other both come back, if they are loadable. */
  lemma BothComeBack(keys: nat -> Quid, a: Marshal, b: Marshal, r: Records, depth: nat)
    requires Storable(a) && Storable(b) && Depth(a) <= depth && Depth(b) <= depth
    requires Fresh(keys, r, r.made + Below(a) + Below(b))
    ensures var s := Put(keys, a, r);
      var t := Put(keys, b, s.records);
      && (Get(t.records.rows, s.bytes, true, depth) == Tree(Back(a)) <==> Loadable(a))
      && (Get(t.records.rows, t.bytes, true, depth) == Tree(Back(b)) <==> Loadable(b))
  {
    hide *;
    BothStored(keys, a, b, r);
    var s := Put(keys, a, r);
    var t := Put(keys, b, s.records);
    LoadsIff(keys, a, r, t.records.rows, depth);
    LoadsIff(keys, b, s.records, t.records.rows, depth);
  }

  lemma BothStored(keys: nat -> Quid, a: Marshal, b: Marshal, r: Records)
    requires Fresh(keys, r, r.made + Below(a) + Below(b))
    ensures var s := Put(keys, a, r);
      var t := Put(keys, b, s.records);
      && Fresh(keys, r, r.made + Below(a)) && Fresh(keys, s.records, s.records.made + Below(b))
      && Within(s.records.rows, t.records.rows) && Within(t.records.rows, t.records.rows)
  {
    hide *;
    var n := r.made + Below(a) + Below(b);
    PutKeepsFresh(keys, a, r, n);
    PutKeepsFresh(keys, b, Put(keys, a, r).records, n);
    FreshLess(keys, r, r.made + Below(a), n);
  }

  lemma PutKeepsFresh(keys: nat -> Quid, m: Marshal, r: Records, n: nat)
    requires Fresh(keys, r, n)
    ensures var r' := Put(keys, m, r).records;
      Fresh(keys, r', n) && r'.made == r.made + Below(m) && Within(r.rows, r'.rows) && Within(r'.rows, r'.rows)
  {
    PutGrows(keys, m, r);
    FreshLater(keys, r, Put(keys, m, r).records, n);
    hide Put, Below, Fresh, Made;
  }

  lemma FreshLess(keys: nat -> Quid, r: Records, n: nat, m: nat)
    requires Fresh(keys, r, m) && n <= m
    ensures Fresh(keys, r, n)
  {
  }

  // ----- trees that do not come back -----

  /** No node is itself a key. */
  predicate KeyFree(m: Marshal) {
    m.tag != QUID && forall kid <- m.kids :: KeyFree(kid)
  }

  /** Loading with descent never gives a tree that holds a key, whatever is stored. */
  lemma {:induction false} NeverAKey(rows: map<Quid, string>, data: string, depth: nat)
    ensures var loaded := Get(rows, data, true, depth); loaded.Tree? ==> KeyFree(loaded.tree)
    decreases depth, 3, 0
  {
    hide GetKids, GetField, Number, SchemaOf;
    if |data| >= ROW_SIZE {
      NeverAKeyField(rows, data[ROW_SIZE..], depth);
      var schema := SchemaOf(data[8]);
      if schema.Some? && schema.value != FIELD {
        NeverAKeyKids(rows, schema.value, data[ROW_SIZE..], Number(data[..8]), false, depth);
      }
    }
  }

  lemma {:induction false} NeverAKeyRecord(rows: map<Quid, string>, text: string, depth: nat)
    ensures var loaded := Record(rows, text, depth); loaded.Tree? ==> KeyFree(loaded.tree)
    decreases depth, 0, 0
  {
    RecordIs(rows, text, depth);
    hide Get, Record, KeyOf, KeyFree;
    var key := KeyOf(text);
    if key.Some? && key.value in rows && depth > 0 {
      NeverAKey(rows, rows[key.value], depth - 1);
    }
  }

  lemma {:induction false} NeverAKeyField(rows: map<Quid, string>, bytes: string, depth: nat)
    ensures var loaded := GetField(rows, bytes, true, depth); loaded.Tree? ==> KeyFree(loaded.tree)
    decreases depth, 2, 0
  {
    hide Unwrapped, Record;
    var read := Unwrapped(bytes);
    if read.Some? {
      NeverAKeyRecord(rows, read.value.value.data, depth);
    }
  }

  lemma {:induction false} NeverAKeyKids(rows: map<Quid, string>, schema: Schema, bytes: string, elements: nat, stale: bool, depth: nat)
    requires schema != FIELD
    ensures var loaded := GetKids(rows, schema, bytes, elements, stale, true, depth);
      loaded.Kids? ==> forall kid <- loaded.kids :: KeyFree(kid)
    decreases depth, 2, elements
  {
    hide Unwrapped, GetKid, KeyFree;
    if elements > 0 {
      var read := Unwrapped(bytes);
      if read.Some? {
        var v, size := read.value.value, read.value.size;
        NeverAKeyKids(rows, schema, bytes[size..], elements - 1, stale || v.name != "", depth);
        NeverAKeyKid(rows, schema, v, stale, depth);
      }
    }
  }

  lemma {:induction false} NeverAKeyKid(rows: map<Quid, string>, schema: Schema, v: Value, stale: bool, depth: nat)
    ensures var step := GetKid(rows, schema, v, stale, true, depth); step.Child? ==> KeyFree(step.child)
    decreases depth, 1, 0
  {
    NeverAKeyRecord(rows, v.data, depth);
    hide Record;
  }

  /** A leaf that is itself a key becomes what is stored under that key, and nothing
      if there is none. */
  lemma QuidLeaf(keys: nat -> Quid, m: Marshal, r: Records, rows: map<Quid, string>, depth: nat)
    requires m.tag == QUID && |m.data| < LIMIT
    ensures Get(rows, Put(keys, m, r).bytes, true, depth)
         == match Record(rows, m.data, depth) case Null => Tree(NOTHING) case other => other
  {
    FieldRead(rows, Single(m), true, depth);
    hide Get, Record, Wrapped, Header;
    assert Put(keys, m, r).bytes == Header(FIELD, 1) + Wrapped(Single(m));
  }

  function Nameless(name: string): Marshal {
    Marshal(name, NULL, "", [])
  }

  /** An object with an unnamed member behind a named one: its name is freed twice. */
  lemma UnnamedBehindNamed(keys: nat -> Quid, name: string, r: Records, depth: nat)
    requires name != "" && |name| < LIMIT
    ensures var m := Marshal("", MAP, "", [Nameless(name), Nameless("")]);
      Storable(m) && !Loadable(m) && Get(r.rows, Put(keys, m, r).bytes, true, depth) == Broken
  {
    var a, b := Nameless(name), Nameless("");
    var m := Marshal("", MAP, "", [a, b]);
    assert m.kids[1].name == "" && m.kids[0].name != "";
    ObjectOfTwo(keys, m, a, b, r);
    var va, vb := Value(NULL, name, ""), Value(NULL, "", "");
    var tail := Tail(keys, m, r);
    PutContainer(keys, m, r);
    Refused(r.rows, va, vb, tail, depth);
    hide *;
    Tails(Wrapped(va), Wrapped(vb), tail);
    GetContainer(r.rows, OBJECT, 2, Wrapped(va) + Wrapped(vb) + tail, depth);
  }

  /** The second round of the loop for objects fails. */
  lemma Refused(rows: map<Quid, string>, a: Value, b: Value, tail: string, depth: nat)
    requires Sized(a) && Sized(b) && a.name != "" && b.name == "" && a.tag == NULL
    ensures GetKids(rows, OBJECT, Wrapped(a) + (Wrapped(b) + tail), 2, false, true, depth) == BrokenKids
  {
    hide Wrapped, GetKids;
    GetKidsStep(rows, OBJECT, a, Wrapped(b) + tail, 1, false, true, depth);
    GetKidsStep(rows, OBJECT, b, tail, 0, true, true, depth);
  }

  lemma ObjectOfTwo(keys: nat -> Quid, m: Marshal, a: Marshal, b: Marshal, r: Records)
    requires m.tag == MAP && m.kids == [a, b] && a.tag == b.tag == NULL
    ensures PutKids(keys, m.kids, r).bytes == Wrapped(Value(NULL, a.name, "")) + Wrapped(Value(NULL, b.name, ""))
    ensures SchemaFor(m) == OBJECT
  {
    hide Wrapped;
    var s, t := m.kids[1..], m.kids[1..][1..];
    assert s == [b] && t == [];
    assert DescentCount(t) == 0 && DescentCount(s) == 0;
    assert PutKids(keys, t, r).bytes == [];
    assert Wrapped(Value(NULL, b.name, "")) + [] == Wrapped(Value(NULL, b.name, ""));
    assert PutKids(keys, s, r).bytes == Wrapped(Value(NULL, b.name, ""));
  }

  // ----- without descent -----

  /** A child as it is loaded without descent: a container is the key it can be loaded
      from, if it is loadable. */
  ghost predicate Hollow(rows: map<Quid, string>, kid: Marshal, loaded: Marshal, depth: nat) {
    if HasDescent(kid.tag) then
      && loaded == Marshal(kid.name, QUID, loaded.data, [])
      && (Record(rows, loaded.data, depth) == Tree(Back(kid)) <==> Loadable(kid))
    else loaded == Back(kid).(name := kid.name)
  }

  ghost predicate HollowKids(rows: map<Quid, string>, kids: seq<Marshal>, loaded: seq<Marshal>, depth: nat) {
    |loaded| == |kids| && forall i | 0 <= i < |kids| :: Hollow(rows, kids[i], loaded[i], depth)
  }

  /** Loading without descent gives the leaves, keys among them, and for each
      container the key it is stored under, if and only if the names at the top can
      be read. */
  lemma GetShallow(keys: nat -> Quid, m: Marshal, r: Records, rows: map<Quid, string>, depth: nat)
    requires Storable(m) && Depth(m) <= depth && HasDescent(m.tag)
    requires Fresh(keys, r, r.made + Below(m)) && Within(Put(keys, m, r).records.rows, rows)
    ensures var loaded := Get(rows, Put(keys, m, r).bytes, false, depth);
      loaded.Tree? && |loaded.tree.kids| == |m.kids| <==> NamesFit(SchemaFor(m), m.kids, false)
    ensures var loaded := Get(rows, Put(keys, m, r).bytes, false, depth);
      loaded.Tree? && |loaded.tree.kids| == |m.kids| ==>
        loaded.tree == Back(m).(kids := loaded.tree.kids) && HollowKids(rows, m.kids, loaded.tree.kids, depth)
  {
    var schema, tail := SchemaFor(m), Tail(keys, m, r);
    PutGrows(keys, m, r);
    PutContainer(keys, m, r);
    SuitsContainer(m);
    BackContainer(m);
    hide *;
    ShallowKids(keys, schema, m.kids, r, r.made + Below(m), rows, false, depth, tail);
    ShallowContainer(rows, schema, |m.kids|, PutKids(keys, m.kids, r).bytes + tail, depth);
  }

  lemma ShallowContainer(rows: map<Quid, string>, schema: Schema, elements: nat, bytes: string, depth: nat)
    requires schema != FIELD && elements < LIMIT
    ensures Get(rows, Header(schema, elements) + bytes, false, depth)
         == match GetKids(rows, schema, bytes, elements, false, false, depth)
            case BrokenKids => Broken
            case Kids(kids) => Tree(Marshal("", if schema == ARRAY || schema == TABLE then LIST else MAP, "", kids))
  {
    HeaderRead(schema, elements, bytes);
    hide GetKids, Header, Number, SchemaOf;
  }

  lemma {:induction false} ShallowKids(keys: nat -> Quid, schema: Schema, kids: seq<Marshal>, r: Records, n: nat,
                                       rows: map<Quid, string>, stale: bool, depth: nat, tail: string)
    requires Suits(schema, kids) && DepthKids(kids) <= depth
    requires Fresh(keys, r, n) && PutKids(keys, kids, r).records.made <= n
    requires Within(PutKids(keys, kids, r).records.rows, rows)
    ensures var loaded := GetKids(rows, schema, PutKids(keys, kids, r).bytes + tail, |kids|, stale, false, depth);
      && (loaded.Kids? && |loaded.kids| == |kids| <==> NamesFit(schema, kids, stale))
      && (loaded.Kids? && |loaded.kids| == |kids| ==> HollowKids(rows, kids, loaded.kids, depth))
  {
    hide *;
    if kids != [] {
      var kid, first := kids[0], PutKid(keys, kids[0], r);
      var others := PutKids(keys, kids[1..], first.records);
      var v := KidValue(keys, kid, r);
      Apart(keys, schema, kids, r, n, rows, depth);
      ShallowKid(keys, schema, kid, r, n, rows, stale, depth);
      ShallowKids(keys, schema, kids[1..], first.records, n, rows, stale || v.name != "", depth, tail);
      KidSized(keys, schema, kid, r);
      Tails(Wrapped(v), others.bytes, tail);
      GetKidsStep(rows, schema, v, others.bytes + tail, |kids| - 1, stale, false, depth);
      NotMore(rows, schema, others.bytes + tail, |kids| - 1, stale || v.name != "", false, depth);
      HollowStep(rows, schema, kids, stale, GetKid(rows, schema, v, stale, false, depth),
                 GetKids(rows, schema, others.bytes + tail, |kids| - 1, stale || v.name != "", false, depth), depth);
    } else {
      NoKids(rows, schema, PutKids(keys, kids, r).bytes + tail, stale, false, depth);
      SuitsNoField(schema, kids);
      HollowNone(rows, schema, kids, stale, depth);
    }
  }

  lemma HollowNone(rows: map<Quid, string>, schema: Schema, kids: seq<Marshal>, stale: bool, depth: nat)
    requires kids == [] && schema != FIELD
    ensures NamesFit(schema, kids, stale) && HollowKids(rows, kids, [], depth)
  {
  }

  lemma HollowStep(rows: map<Quid, string>, schema: Schema, kids: seq<Marshal>, stale: bool, step: Step, others: LoadedKids, depth: nat)
    requires kids != [] && (others.Kids? ==> |others.kids| < |kids|)
    requires step.Child? <==> NamesFit(schema, [kids[0]], stale)
    requires step.Child? ==> Hollow(rows, kids[0], step.child, depth)
    requires others.Kids? && |others.kids| == |kids| - 1 <==> NamesFit(schema, kids[1..], stale || kids[0].name != "")
    requires others.Kids? && |others.kids| == |kids| - 1 ==> HollowKids(rows, kids[1..], others.kids, depth)
    ensures var l := Behind(step, others);
      && (l.Kids? && |l.kids| == |kids| <==> NamesFit(schema, kids, stale))
      && (l.Kids? && |l.kids| == |kids| ==> HollowKids(rows, kids, l.kids, depth))
  {
    NamedParts(schema, kids, stale);
    hide NamesFit, Hollow;
    var l := Behind(step, others);
    if l.Kids? && |l.kids| == |kids| {
      forall i | 0 <= i < |kids| ensures Hollow(rows, kids[i], l.kids[i], depth) {
        assert i > 0 ==> kids[1..][i - 1] == kids[i] && l.kids[i] == others.kids[i - 1];
      }
    }
  }

  lemma ShallowKid(keys: nat -> Quid, schema: Schema, kid: Marshal, r: Records, n: nat,
                   rows: map<Quid, string>, stale: bool, depth: nat)
    requires Suits(schema, [kid]) && (HasDescent(kid.tag) ==> Depth(kid) < depth)
    requires Fresh(keys, r, n) && PutKid(keys, kid, r).records.made <= n
    requires Within(PutKid(keys, kid, r).records.rows, rows)
    ensures PutKid(keys, kid, r).bytes == Wrapped(KidValue(keys, kid, r))
    ensures var step := GetKid(rows, schema, KidValue(keys, kid, r), stale, false, depth);
      && (step.Child? <==> NamesFit(schema, [kid], stale))
      && (step.Child? ==> Hollow(rows, kid, step.child, depth))
  {
    hide *;
    KidWritten(keys, kid, r, n);
    SuitsOne(schema, kid);
    if HasDescent(kid.tag) {
      KidStored(keys, kid, r, n, rows);
      PutGet(keys, kid, r, n, rows, depth - 1);
      BackAlike(kid);
      HollowRead(rows, schema, kid, keys(Put(keys, kid, r).records.made), stale, depth);
    } else {
      HollowLeaf(keys, rows, schema, kid, r, stale, depth);
    }
  }

  lemma HollowRead(rows: map<Quid, string>, schema: Schema, kid: Marshal, key: Quid, stale: bool, depth: nat)
    requires HasDescent(kid.tag) && depth > 0 && key in rows && schema != FIELD
    requires Get(rows, rows[key], true, depth - 1) == Tree(Back(kid)) <==> Loadable(kid)
    ensures var step := GetKid(rows, schema, Value(QUID, kid.name, key), stale, false, depth);
      && (step.Child? <==> NamesFit(schema, [kid], stale))
      && (step.Child? ==> Hollow(rows, kid, step.child, depth))
  {
    NamedOne(schema, kid, stale);
    RecordIs(rows, key, depth);
    hide Get, Record, NamesFit, Loadable;
  }

  lemma NamedOne(schema: Schema, kid: Marshal, stale: bool)
    requires schema != FIELD
    ensures NamesFit(schema, [kid], stale) <==>
      if schema == OBJECT then kid.name != "" || !stale else kid.name != "" <==> schema == SET
  {
    assert kid in [kid] && [kid][0] == kid;
  }

  lemma HollowLeaf(keys: nat -> Quid, rows: map<Quid, string>, schema: Schema, kid: Marshal, r: Records, stale: bool, depth: nat)
    requires Suits(schema, [kid]) && !HasDescent(kid.tag)
    ensures var step := GetKid(rows, schema, KidValue(keys, kid, r), stale, false, depth);
      && (step.Child? <==> NamesFit(schema, [kid], stale))
      && (step.Child? ==> Hollow(rows, kid, step.child, depth))
  {
    assert kid in [kid];
    NamedOne(schema, kid, stale);
    hide NamesFit;
  }

  // ----- the type alone -----

  /** slay_get_type. */
  function RowType(data: string): Option<Type> {
    if |data| < ROW_SIZE then None
    else
      match SchemaOf(data[8])
      case None => Some(NULL)
      case Some(FIELD) => (match Unwrapped(data[ROW_SIZE..]) case None => None case Some(read) => Some(read.value.tag))
      case Some(schema) => Some(if schema == ARRAY || schema == TABLE then LIST else MAP)
  }

  lemma TypeComesBack(keys: nat -> Quid, m: Marshal, r: Records)
    requires |m.data| < LIMIT && |m.kids| < LIMIT
    ensures RowType(Put(keys, m, r).bytes) == Some(m.tag)
  {
    if HasDescent(m.tag) {
      PutContainer(keys, m, r);
      HeaderRead(SchemaFor(m), |m.kids|, PutKids(keys, m.kids, r).bytes + Tail(keys, m, r));
      hide PutKids, Header, Tail, Put, Number, SchemaOf;
    } else {
      HeaderRead(FIELD, 1, Wrapped(Single(m)));
      UnwrapWrapped(Single(m), []);
      assert Wrapped(Single(m)) + [] == Wrapped(Single(m));
    }
  }
}

/**
 * What storing and loading promise: a tree comes back from its records, now and
 * after any later storing, and its row is as long as was computed.
 */
module SlayTheory {
  import opened Marshal
  import opened SlayRow
  import opened SlayMarshall

  /** Trees that slay_put accepts: no empty container, sizes that fit in a size_t. */
  predicate Storable(m: Marshal) {
    && |m.data| < LIMIT && |m.name| < LIMIT
    && if HasDescent(m.tag) then 0 < |m.kids| < LIMIT && forall kid <- m.kids :: Storable(kid) else m.kids == []
  }

  /** Names that slay_get can read back: none in arrays, one for each child of a
      set, and in objects no unnamed child behind a named one. There `stale`
      says that a named one has come before these. */
  predicate NamesFit(schema: Schema, kids: seq<Marshal>, stale: bool) {
    match schema
    case FIELD => false
    case ARRAY => forall kid <- kids :: kid.name == ""
    case TABLE => forall kid <- kids :: kid.name == ""
    case SET => forall kid <- kids :: kid.name != ""
    case OBJECT => forall j | 0 <= j < |kids| && kids[j].name == "" :: !stale && forall i | 0 <= i < j :: kids[i].name == ""
  }

  /** Trees that come back: no leaf is itself a key, and the names can be read. */
  predicate Loadable(m: Marshal) {
    m.tag != QUID
    && (HasDescent(m.tag) ==> NamesFit(SchemaFor(m), m.kids, false) && forall kid <- m.kids :: Loadable(kid))
  }

  predicate AllLoadable(schema: Schema, kids: seq<Marshal>, stale: bool) {
    NamesFit(schema, kids, stale) && forall kid <- kids :: Loadable(kid)
  }

  /** Of the same types, with as many children in every container. */
  predicate Alike(m: Marshal, t: Marshal)
    decreases m, 1
  {
    m.tag == t.tag && (HasDescent(m.tag) ==> AlikeKids(m.kids, t.kids))
  }

  predicate AlikeKids(kids: seq<Marshal>, loaded: seq<Marshal>)
    decreases kids, 0
  {
    |kids| == |loaded| && (kids == [] || (Alike(kids[0], loaded[0]) && AlikeKids(kids[1..], loaded[1..])))
  }

  /** What is left of a tree: its own name is not stored, nor are the bytes of a
      node whose type holds none. */
  function Back(m: Marshal): Marshal
    decreases m, 1
  {
    Marshal("", m.tag, if HasData(m.tag) then m.data else "", BackKids(m.kids))
  }

  function BackKids(kids: seq<Marshal>): (r: seq<Marshal>)
    ensures |r| == |kids|
    decreases kids, 0
  {
    if kids == [] then [] else [Back(kids[0]).(name := kids[0].name)] + BackKids(kids[1..])
  }

  /** How many rows deep a tree is stored. */
  function Depth(m: Marshal): nat
    decreases m, 1
  {
    if HasDescent(m.tag) then DepthKids(m.kids) else 0
  }

  function DepthKids(kids: seq<Marshal>): nat
    decreases kids, 0
  {
    if kids == [] then 0
    else
      var others := DepthKids(kids[1..]);
      if HasDescent(kids[0].tag) && Depth(kids[0]) >= others then Depth(kids[0]) + 1 else others
  }

  /** The containers below the top of a tree. */
  function Below(m: Marshal): nat
    decreases m, 1
  {
    if HasDescent(m.tag) then BelowKids(m.kids) else 0
  }

  function BelowKids(kids: seq<Marshal>): nat
    decreases kids, 0
  {
    if kids == [] then 0
    else (if HasDescent(kids[0].tag) then Below(kids[0]) + 1 else 0) + BelowKids(kids[1..])
  }

  // ----- records -----

  /** Every row of `a` is in `b`. */
  ghost predicate Within(a: map<Quid, string>, b: map<Quid, string>) {
    forall k <- a :: k in b && b[k] == a[k]
  }

  ghost predicate Made(keys: nat -> Quid, from: nat, to: nat, k: Quid) {
    exists i | from <= i < to :: keys(i) == k
  }

  /** Rows are only added, and under keys made on the way. */
  ghost predicate Grown(keys: nat -> Quid, r: Records, r': Records) {
    && r.made <= r'.made && Within(r.rows, r'.rows)
    && forall k <- r'.rows :: k in r.rows || Made(keys, r.made, r'.made, k)
  }

  /** The keys up to number n differ from each other and from those in use. */
  ghost predicate Fresh(keys: nat -> Quid, r: Records, n: nat) {
    forall i | r.made <= i < n :: keys(i) !in r.rows && forall j | i < j < n :: keys(j) != keys(i)
  }

  lemma GrownTransitive(keys: nat -> Quid, a: Records, b: Records, c: Records)
    requires Grown(keys, a, b) && Grown(keys, b, c)
    ensures Grown(keys, a, c)
  {
    forall k | k in c.rows ensures k in a.rows || Made(keys, a.made, c.made, k) {
      if k in b.rows {
        assert k in a.rows || Made(keys, a.made, b.made, k);
      } else {
        assert Made(keys, b.made, c.made, k);
      }
    }
  }

  lemma FreshLater(keys: nat -> Quid, r: Records, r': Records, n: nat)
    requires Grown(keys, r, r') && Fresh(keys, r, n)
    ensures Fresh(keys, r', n)
  {
    forall i | r'.made <= i < n ensures keys(i) !in r'.rows {
      assert keys(i) in r'.rows ==> Made(keys, r.made, r'.made, keys(i));
    }
  }

  lemma {:induction false} PutGrows(keys: nat -> Quid, m: Marshal, r: Records)
    ensures Grown(keys, r, Put(keys, m, r).records)
    ensures Put(keys, m, r).records.made == r.made + Below(m)
    decreases m, 1
  {
    if HasDescent(m.tag) {
      PutKidsGrows(keys, m.kids, r);
    }
  }

  lemma {:induction false} PutKidsGrows(keys: nat -> Quid, kids: seq<Marshal>, r: Records)
    ensures Grown(keys, r, PutKids(keys, kids, r).records)
    ensures PutKids(keys, kids, r).records.made == r.made + BelowKids(kids)
    decreases kids, 0
  {
    if kids != [] {
      var first := PutKid(keys, kids[0], r);
      PutKidGrows(keys, kids[0], r);
      PutKidsGrows(keys, kids[1..], first.records);
      GrownTransitive(keys, r, first.records, PutKids(keys, kids, r).records);
    }
  }

  lemma {:induction false} PutKidGrows(keys: nat -> Quid, kid: Marshal, r: Records)
    ensures Grown(keys, r, PutKid(keys, kid, r).records)
    ensures PutKid(keys, kid, r).records.made == r.made + if HasDescent(kid.tag) then Below(kid) + 1 else 0
    decreases kid, 2
  {
    if HasDescent(kid.tag) {
      PutGrows(keys, kid, r);
      var s := Put(keys, kid, r);
      var r' := PutKid(keys, kid, r).records;
      forall k | k in r'.rows ensures k in r.rows || Made(keys, r.made, r'.made, k) {
        if k in s.records.rows {
          assert k in r.rows || Made(keys, r.made, s.records.made, k);
        } else {
          assert keys(s.records.made) == k;
        }
      }
    }
  }

  /** With fresh keys every container below the top has its own row. */
  lemma {:induction false} RowsCounted(keys: nat -> Quid, m: Marshal, r: Records, n: nat)
    requires Fresh(keys, r, n) && Put(keys, m, r).records.made <= n
    ensures |Put(keys, m, r).records.rows| == |r.rows| + Below(m)
    decreases m, 1
  {
    if HasDescent(m.tag) {
      RowsCountedKids(keys, m.kids, r, n);
    }
  }

  lemma {:induction false} RowsCountedKids(keys: nat -> Quid, kids: seq<Marshal>, r: Records, n: nat)
    requires Fresh(keys, r, n) && PutKids(keys, kids, r).records.made <= n
    ensures |PutKids(keys, kids, r).records.rows| == |r.rows| + BelowKids(kids)
    decreases kids, 0
  {
    if kids != [] {
      var kid, first := kids[0], PutKid(keys, kids[0], r);
      PutKidGrows(keys, kid, r);
      PutKidsGrows(keys, kids[1..], first.records);
      FreshLater(keys, r, first.records, n);
      RowsCountedKids(keys, kids[1..], first.records, n);
      if HasDescent(kid.tag) {
        RowsCounted(keys, kid, r, n);
        KeyUnused(keys, kid, r, n);
      }
    }
  }

  /** The key a child is stored under is not in use yet. */
  lemma KeyUnused(keys: nat -> Quid, kid: Marshal, r: Records, n: nat)
    requires HasDescent(kid.tag) && Fresh(keys, r, n) && PutKid(keys, kid, r).records.made <= n
    ensures var s := Put(keys, kid, r);
      keys(s.records.made) !in s.records.rows
  {
    PutGrows(keys, kid, r);
    FreshLater(keys, r, Put(keys, kid, r).records, n);
  }

  // ----- room -----

  /** Values never run over the room computed for them; with fresh keys they fill
      it exactly if no child carries bytes that its type does not hold. */
  lemma {:induction false} KidsFit(keys: nat -> Quid, kids: seq<Marshal>, r: Records)
    ensures |PutKids(keys, kids, r).bytes| <= Room(kids)
  {
    if kids != [] {
      KidsFit(keys, kids[1..], PutKid(keys, kids[0], r).records);
    }
  }

  ghost predicate Spare(kids: seq<Marshal>) {
    exists kid <- kids :: !HasData(kid.tag) && kid.data != ""
  }

  lemma {:induction false} KidsFill(keys: nat -> Quid, kids: seq<Marshal>, r: Records, n: nat)
    requires Fresh(keys, r, n) && PutKids(keys, kids, r).records.made <= n
    ensures |PutKids(keys, kids, r).bytes| == Room(kids) <==> !Spare(kids)
  {
    if kids != [] {
      var kid, others, first := kids[0], kids[1..], PutKid(keys, kids[0], r);
      PutKidGrows(keys, kid, r);
      PutKidsGrows(keys, others, first.records);
      FreshLater(keys, r, first.records, n);
      KidsFill(keys, others, first.records, n);
      KidsFit(keys, others, first.records);
      if HasDescent(kid.tag) {
        KeyUnused(keys, kid, r, n);
      }
      SpareFirst(kids);
      KidSize(keys, kid, r);
      hide Fresh, Grown, PutKid, Put, Spare;
      assert |PutKids(keys, kids, r).bytes| == |first.bytes| + |PutKids(keys, others, first.records).bytes|;
    }
  }

  lemma SpareFirst(kids: seq<Marshal>)
    requires kids != []
    ensures Spare(kids) <==> (!HasData(kids[0].tag) && kids[0].data != "") || Spare(kids[1..])
  {
    assert kids == [kids[0]] + kids[1..];
  }

  lemma KidSize(keys: nat -> Quid, kid: Marshal, r: Records)
    requires HasDescent(kid.tag) ==> var s := Put(keys, kid, r); keys(s.records.made) !in s.records.rows
    ensures |PutKid(keys, kid, r).bytes| == VALUE_SIZE + |kid.name|
      + if HasDescent(kid.tag) then QUID_LENGTH else if HasData(kid.tag) then |kid.data| else 0
  {
    hide Put;
  }

  // ----- storing and loading -----

  /** A loadable tree comes back from any records that hold what storing it added;
      from another one comes no tree, or one of another form. */
  lemma {:induction false} PutGet(keys: nat -> Quid, m: Marshal, r: Records, n: nat, rows: map<Quid, string>, depth: nat)
    requires Storable(m) && Depth(m) <= depth
    requires Fresh(keys, r, n) && Put(keys, m, r).records.made <= n
    requires Within(Put(keys, m, r).records.rows, rows)
    ensures var loaded := Get(rows, Put(keys, m, r).bytes, true, depth);
      && (Loadable(m) ==> loaded == Tree(Back(m)))
      && (loaded.Tree? && Alike(m, loaded.tree) ==> Loadable(m))
    decreases m, 1
  {
    if HasDescent(m.tag) {
      var schema, tail := SchemaFor(m), Tail(keys, m, r);
      PutContainer(keys, m, r);
      SuitsContainer(m);
      BackContainer(m);
      hide *;
      PutGetKids(keys, schema, m.kids, r, n, rows, false, depth, tail);
      GetContainer(rows, schema, |m.kids|, PutKids(keys, m.kids, r).bytes + tail, depth);
      LoadableContainer(m, GetKids(rows, schema, PutKids(keys, m.kids, r).bytes + tail, |m.kids|, false, true, depth));
    } else {
      FieldRead(rows, Single(m), true, depth);
      hide Get, Put, Wrapped, Header;
      if m.tag == QUID {
        NoKeyAtTop(rows, Put(keys, m, r).bytes, depth);
      }
    }
  }

  /** Nothing that is loaded with descent is itself a key, and its name is not loaded. */
  lemma {:induction false} NoKeyAtTop(rows: map<Quid, string>, data: string, depth: nat)
    ensures var loaded := Get(rows, data, true, depth);
      loaded.Tree? ==> loaded.tree.tag != QUID && loaded.tree.name == ""
    decreases depth, 1
  {
    hide GetKids, GetField, Number, SchemaOf;
    if |data| >= ROW_SIZE {
      NoKeyInField(rows, data[ROW_SIZE..], depth);
    }
  }

  lemma {:induction false} NoKeyInField(rows: map<Quid, string>, bytes: string, depth: nat)
    ensures var loaded := GetField(rows, bytes, true, depth);
      loaded.Tree? ==> loaded.tree.tag != QUID && loaded.tree.name == ""
    decreases depth, 0
  {
    hide Unwrapped, Get, Record;
    var read := Unwrapped(bytes);
    if read.Some? {
      var text := read.value.value.data;
      RecordIs(rows, text, depth);
      hide KeyOf;
      var key := KeyOf(text);
      if key.Some? && key.value in rows && depth > 0 {
        NoKeyAtTop(rows, rows[key.value], depth - 1);
      }
    }
  }

  lemma RecordIs(rows: map<Quid, string>, text: string, depth: nat)
    ensures Record(rows, text, depth)
         == match KeyOf(text)
            case None => Broken
            case Some(key) =>
              if key !in rows then Null else if depth == 0 then Broken else Get(rows, rows[key], true, depth - 1)
  {
    hide Get;
  }

  lemma LoadableContainer(m: Marshal, loaded: LoadedKids)
    requires HasDescent(m.tag)
    requires AllLoadable(SchemaFor(m), m.kids, false) ==> loaded == Kids(BackKids(m.kids))
    requires loaded.Kids? && AlikeKids(m.kids, loaded.kids) ==> AllLoadable(SchemaFor(m), m.kids, false)
    ensures Loadable(m) ==> loaded == Kids(BackKids(m.kids))
    ensures loaded.Kids? && Alike(m, Marshal("", m.tag, "", loaded.kids)) ==> Loadable(m)
  {
    hide BackKids, NamesFit;
  }

  /** A row of one value. */
  lemma FieldRead(rows: map<Quid, string>, v: Value, descent: bool, depth: nat)
    requires Sized(v) && v.name == ""
    ensures var loaded := Get(rows, Header(FIELD, 1) + Wrapped(v), descent, depth);
      if v.tag == QUID && descent then loaded == match Record(rows, v.data, depth) case Null => Tree(NOTHING) case other => other
      else loaded == Tree(Leaf(v, ""))
  {
    FieldBytes(rows, Wrapped(v), descent, depth);
    hide Get, GetField, Header, Wrapped, Unwrapped, Record;
    UnwrapWrapped(v, []);
    assert Wrapped(v) + [] == Wrapped(v);
    FieldValue(rows, v, Wrapped(v), descent, depth);
  }

  lemma FieldBytes(rows: map<Quid, string>, bytes: string, descent: bool, depth: nat)
    ensures Get(rows, Header(FIELD, 1) + bytes, descent, depth) == GetField(rows, bytes, descent, depth)
  {
    HeaderRead(FIELD, 1, bytes);
    hide GetField, GetKids, Header, Number, SchemaOf;
  }

  lemma FieldValue(rows: map<Quid, string>, v: Value, bytes: string, descent: bool, depth: nat)
    requires v.name == "" && Unwrapped(bytes) == Some(Read(v, |bytes|))
    ensures var loaded := GetField(rows, bytes, descent, depth);
      if v.tag == QUID && descent then loaded == match Record(rows, v.data, depth) case Null => Tree(NOTHING) case other => other
      else loaded == Tree(Leaf(v, ""))
  {
    hide Record, Unwrapped;
  }

  /** The part of the row that was reserved and not used. */
  function Tail(keys: nat -> Quid, m: Marshal, r: Records): string {
    var n := |PutKids(keys, m.kids, r).bytes|;
    Zeros(if n <= Room(m.kids) then Room(m.kids) - n else 0)
  }

  lemma PutContainer(keys: nat -> Quid, m: Marshal, r: Records)
    requires HasDescent(m.tag)
    ensures Put(keys, m, r).bytes == Header(SchemaFor(m), |m.kids|) + (PutKids(keys, m.kids, r).bytes + Tail(keys, m, r))
    ensures Put(keys, m, r).records == PutKids(keys, m.kids, r).records
  {
    hide Header, PutKids;
  }

  lemma GetContainer(rows: map<Quid, string>, schema: Schema, elements: nat, bytes: string, depth: nat)
    requires schema != FIELD && elements < LIMIT
    ensures Get(rows, Header(schema, elements) + bytes, true, depth)
         == match GetKids(rows, schema, bytes, elements, false, true, depth)
            case BrokenKids => Broken
            case Kids(kids) => Tree(Marshal("", if schema == ARRAY || schema == TABLE then LIST else MAP, "", kids))
  {
    HeaderRead(schema, elements, bytes);
    hide GetKids, Header, Number, SchemaOf;
  }

  lemma BackContainer(m: Marshal)
    requires HasDescent(m.tag)
    ensures Back(m) == Marshal("", m.tag, "", BackKids(m.kids)) && Depth(m) == DepthKids(m.kids)
    ensures m.tag == if SchemaFor(m) == ARRAY || SchemaFor(m) == TABLE then LIST else MAP
  {
  }

  lemma SuitsContainer(m: Marshal)
    requires Storable(m) && HasDescent(m.tag)
    ensures Suits(SchemaFor(m), m.kids) && |m.kids| < LIMIT && SchemaFor(m) != FIELD
  {
    AllDescend(m.kids);
  }

  predicate Suits(schema: Schema, kids: seq<Marshal>) {
    && schema != FIELD && (forall kid <- kids :: Storable(kid))
    && (schema == TABLE || schema == SET ==> forall kid <- kids :: HasDescent(kid.tag))
  }

  lemma {:induction false} AllDescend(kids: seq<Marshal>)
    ensures DescentCount(kids) == |kids| ==> forall kid <- kids :: HasDescent(kid.tag)
  {
    if kids != [] {
      AllDescend(kids[1..]);
      assert kids == [kids[0]] + kids[1..];
    }
  }

  lemma {:induction false} PutGetKids(keys: nat -> Quid, schema: Schema, kids: seq<Marshal>, r: Records, n: nat,
                                      rows: map<Quid, string>, stale: bool, depth: nat, tail: string)
    requires Suits(schema, kids) && DepthKids(kids) <= depth
    requires Fresh(keys, r, n) && PutKids(keys, kids, r).records.made <= n
    requires Within(PutKids(keys, kids, r).records.rows, rows)
    ensures var loaded := GetKids(rows, schema, PutKids(keys, kids, r).bytes + tail, |kids|, stale, true, depth);
      && (AllLoadable(schema, kids, stale) ==> loaded == Kids(BackKids(kids)))
      && (loaded.Kids? && AlikeKids(kids, loaded.kids) ==> AllLoadable(schema, kids, stale))
    decreases kids, 0
  {
    hide *;
    if kids != [] {
      var kid, first := kids[0], PutKid(keys, kids[0], r);
      var others := PutKids(keys, kids[1..], first.records);
      var v := KidValue(keys, kid, r);
      Apart(keys, schema, kids, r, n, rows, depth);
      PutGetKid(keys, schema, kid, r, n, rows, stale, depth);
      PutGetKids(keys, schema, kids[1..], first.records, n, rows, stale || v.name != "", depth, tail);
      KidSized(keys, schema, kid, r);
      Tails(Wrapped(v), others.bytes, tail);
      GetKidsStep(rows, schema, v, others.bytes + tail, |kids| - 1, stale, true, depth);
      NotMore(rows, schema, others.bytes + tail, |kids| - 1, stale || v.name != "", true, depth);
      LoadableStep(schema, kids, stale, GetKid(rows, schema, v, stale, true, depth),
                   GetKids(rows, schema, others.bytes + tail, |kids| - 1, stale || v.name != "", true, depth));
    } else {
      NoKids(rows, schema, PutKids(keys, kids, r).bytes + tail, stale, true, depth);
      SuitsNoField(schema, kids);
      LoadableNone(schema, kids, stale);
    }
  }

  lemma SuitsNoField(schema: Schema, kids: seq<Marshal>)
    requires Suits(schema, kids)
    ensures schema != FIELD
  {
  }

  lemma Tails(a: string, b: string, c: string)
    ensures a + b + c == a + (b + c)
  {
  }

  lemma NoKids(rows: map<Quid, string>, schema: Schema, bytes: string, stale: bool, descent: bool, depth: nat)
    ensures GetKids(rows, schema, bytes, 0, stale, descent, depth) == Kids([])
  {
  }

  lemma LoadableNone(schema: Schema, kids: seq<Marshal>, stale: bool)
    requires kids == [] && schema != FIELD
    ensures AllLoadable(schema, kids, stale) && BackKids(kids) == []
  {
  }

  lemma {:induction false} NotMore(rows: map<Quid, string>, schema: Schema, bytes: string, elements: nat, stale: bool, descent: bool, depth: nat)
    ensures var loaded := GetKids(rows, schema, bytes, elements, stale, descent, depth);
      loaded.Kids? ==> |loaded.kids| <= elements
    decreases elements
  {
    hide GetKid, Unwrapped;
    if elements > 0 {
      match Unwrapped(bytes)
      case None =>
      case Some(read) => NotMore(rows, schema, bytes[read.size..], elements - 1, stale || read.value.name != "", descent, depth);
    }
  }

  /** One child and the children behind it. */
  function Behind(step: Step, others: LoadedKids): LoadedKids {
    match step
    case Failed => BrokenKids
    case Skipped => others
    case Child(kid) => if others.Kids? then Kids([kid] + others.kids) else BrokenKids
  }

  lemma LoadableStep(schema: Schema, kids: seq<Marshal>, stale: bool, step: Step, others: LoadedKids)
    requires kids != [] && (others.Kids? ==> |others.kids| < |kids|)
    requires AllLoadable(schema, [kids[0]], stale) ==> step == Child(Back(kids[0]).(name := kids[0].name))
    requires step.Child? && Alike(kids[0], step.child) ==> AllLoadable(schema, [kids[0]], stale)
    requires AllLoadable(schema, kids[1..], stale || kids[0].name != "") ==> others == Kids(BackKids(kids[1..]))
    requires others.Kids? && AlikeKids(kids[1..], others.kids) ==> AllLoadable(schema, kids[1..], stale || kids[0].name != "")
    ensures AllLoadable(schema, kids, stale) ==> Behind(step, others) == Kids(BackKids(kids))
    ensures var l := Behind(step, others); l.Kids? && AlikeKids(kids, l.kids) ==> AllLoadable(schema, kids, stale)
  {
    LoadableParts(schema, kids, stale);
    hide AllLoadable, Back, Alike;
    if step.Child? && others.Kids? {
      assert ([step.child] + others.kids)[1..] == others.kids;
    }
  }

  lemma LoadableParts(schema: Schema, kids: seq<Marshal>, stale: bool)
    requires kids != []
    ensures AllLoadable(schema, kids, stale) <==>
      AllLoadable(schema, [kids[0]], stale) && AllLoadable(schema, kids[1..], stale || kids[0].name != "")
  {
    hide Loadable;
    NamedParts(schema, kids, stale);
    hide NamesFit;
    assert kids == [kids[0]] + kids[1..];
  }

  lemma NamedParts(schema: Schema, kids: seq<Marshal>, stale: bool)
    requires kids != []
    ensures NamesFit(schema, kids, stale) <==> NamesFit(schema, [kids[0]], stale) && NamesFit(schema, kids[1..], stale || kids[0].name != "")
  {
    var rest := kids[1..];
    if schema == OBJECT {
      NamedObject(kids, stale);
    } else {
      assert kids == [kids[0]] + rest;
    }
  }

  lemma NamedObject(kids: seq<Marshal>, stale: bool)
    requires kids != []
    ensures NamesFit(OBJECT, kids, stale) <==> NamesFit(OBJECT, [kids[0]], stale) && NamesFit(OBJECT, kids[1..], stale || kids[0].name != "")
  {
    var rest, later := kids[1..], stale || kids[0].name != "";
    if NamesFit(OBJECT, [kids[0]], stale) && NamesFit(OBJECT, rest, later) {
      forall j | 0 <= j < |kids| && kids[j].name == "" ensures !stale && forall i | 0 <= i < j :: kids[i].name == "" {
        assert j == 0 ==> [kids[0]][0].name == "";
        assert j > 0 ==> rest[j - 1].name == "";
        forall i | 0 <= i < j ensures kids[i].name == "" {
          assert i > 0 ==> rest[i - 1] == kids[i];
        }
      }
    }
    if NamesFit(OBJECT, kids, stale) {
      forall j | 0 <= j < |rest| && rest[j].name == "" ensures !later && forall i | 0 <= i < j :: rest[i].name == "" {
        assert kids[j + 1].name == "" && kids[0].name == "";
        assert forall i | 0 <= i < j :: rest[i] == kids[i + 1];
      }
    }
  }

  /** What holds of the children holds of the first one and of the others. */
  lemma Apart(keys: nat -> Quid, schema: Schema, kids: seq<Marshal>, r: Records, n: nat, rows: map<Quid, string>, depth: nat)
    requires kids != [] && Suits(schema, kids) && DepthKids(kids) <= depth
    requires Fresh(keys, r, n) && PutKids(keys, kids, r).records.made <= n
    requires Within(PutKids(keys, kids, r).records.rows, rows)
    ensures var first := PutKid(keys, kids[0], r);
      var others := PutKids(keys, kids[1..], first.records);
      && PutKids(keys, kids, r) == Stored(first.bytes + others.bytes, others.records)
      && Suits(schema, [kids[0]]) && Suits(schema, kids[1..])
      && (HasDescent(kids[0].tag) ==> Depth(kids[0]) < depth) && DepthKids(kids[1..]) <= depth
      && Fresh(keys, first.records, n) && first.records.made <= n && Within(first.records.rows, rows)
  {
    var first := PutKid(keys, kids[0], r);
    PutKidGrows(keys, kids[0], r);
    PutKidsGrows(keys, kids[1..], first.records);
    FreshLater(keys, r, first.records, n);
    SuitsFirst(schema, kids);
    hide Fresh, Suits, PutKid, Storable, Made;
  }

  lemma SuitsFirst(schema: Schema, kids: seq<Marshal>)
    requires Suits(schema, kids) && kids != []
    ensures Suits(schema, [kids[0]]) && Suits(schema, kids[1..])
  {
  }

  lemma KidSized(keys: nat -> Quid, schema: Schema, kid: Marshal, r: Records)
    requires Suits(schema, [kid])
    ensures Sized(KidValue(keys, kid, r)) && KidValue(keys, kid, r).name == kid.name
  {
    assert kid in [kid];
  }

  lemma GetKidsStep(rows: map<Quid, string>, schema: Schema, v: Value, rest: string, elements: nat, stale: bool, descent: bool, depth: nat)
    requires Sized(v)
    ensures GetKids(rows, schema, Wrapped(v) + rest, elements + 1, stale, descent, depth)
         == Behind(GetKid(rows, schema, v, stale, descent, depth),
                   GetKids(rows, schema, rest, elements, stale || v.name != "", descent, depth))
  {
    UnwrapWrapped(v, rest);
    hide Wrapped, Unwrapped, GetKid;
    var bytes := Wrapped(v) + rest;
    assert bytes[|Wrapped(v)|..] == rest;
  }

  /** The value that stands for a child, with a fresh key. */
  function KidValue(keys: nat -> Quid, kid: Marshal, r: Records): Value {
    if HasDescent(kid.tag) then Value(QUID, kid.name, keys(Put(keys, kid, r).records.made))
    else Value(kid.tag, kid.name, if HasData(kid.tag) then kid.data else "")
  }

  lemma KidWritten(keys: nat -> Quid, kid: Marshal, r: Records, n: nat)
    requires Fresh(keys, r, n) && PutKid(keys, kid, r).records.made <= n
    ensures PutKid(keys, kid, r).bytes == Wrapped(KidValue(keys, kid, r))
  {
    if HasDescent(kid.tag) {
      KeyUnused(keys, kid, r, n);
    }
    hide Put, Wrapped, Fresh;
  }

  lemma KidStored(keys: nat -> Quid, kid: Marshal, r: Records, n: nat, rows: map<Quid, string>)
    requires HasDescent(kid.tag) && Fresh(keys, r, n) && PutKid(keys, kid, r).records.made <= n
    requires Within(PutKid(keys, kid, r).records.rows, rows)
    ensures var s := Put(keys, kid, r);
      var key := keys(s.records.made);
      && s.records.made <= n && Within(s.records.rows, rows) && key in rows && rows[key] == s.bytes
      && KidValue(keys, kid, r) == Value(QUID, kid.name, key)
  {
    KeyUnused(keys, kid, r, n);
    hide Put, Fresh;
    var s := Put(keys, kid, r);
    assert PutKid(keys, kid, r).records.rows == s.records.rows[keys(s.records.made) := s.bytes];
  }

  /** A container child is read from the row its value names. */
  lemma KidRead(rows: map<Quid, string>, schema: Schema, kid: Marshal, key: Quid, stale: bool, depth: nat)
    requires HasDescent(kid.tag) && depth > 0 && key in rows && schema != FIELD
    requires var loaded := Get(rows, rows[key], true, depth - 1);
      && (Loadable(kid) ==> loaded == Tree(Back(kid)))
      && (loaded.Tree? && Alike(kid, loaded.tree) ==> Loadable(kid))
    ensures var step := GetKid(rows, schema, Value(QUID, kid.name, key), stale, true, depth);
      && (AllLoadable(schema, [kid], stale) ==> step == Child(Back(kid).(name := kid.name)))
      && (step.Child? && Alike(kid, step.child) ==> AllLoadable(schema, [kid], stale))
  {
    assert Record(rows, key, depth) == Get(rows, rows[key], true, depth - 1);
    LoadableOne(schema, kid, stale);
    hide Get, Record, AllLoadable, Loadable, Back;
    assert !Alike(kid, NOTHING) && !Alike(kid, NOTHING.(name := kid.name));
  }

  lemma LoadableOne(schema: Schema, kid: Marshal, stale: bool)
    requires schema != FIELD
    ensures AllLoadable(schema, [kid], stale) <==>
      Loadable(kid) && (if schema == OBJECT then kid.name != "" || !stale else kid.name != "" <==> schema == SET)
  {
    hide Loadable;
    assert kid in [kid] && [kid][0] == kid;
  }

  lemma {:induction false} PutGetKid(keys: nat -> Quid, schema: Schema, kid: Marshal, r: Records, n: nat,
                                     rows: map<Quid, string>, stale: bool, depth: nat)
    requires Suits(schema, [kid]) && (HasDescent(kid.tag) ==> Depth(kid) < depth)
    requires Fresh(keys, r, n) && PutKid(keys, kid, r).records.made <= n
    requires Within(PutKid(keys, kid, r).records.rows, rows)
    ensures PutKid(keys, kid, r).bytes == Wrapped(KidValue(keys, kid, r))
    ensures var step := GetKid(rows, schema, KidValue(keys, kid, r), stale, true, depth);
      && (AllLoadable(schema, [kid], stale) ==> step == Child(Back(kid).(name := kid.name)))
      && (step.Child? && Alike(kid, step.child) ==> AllLoadable(schema, [kid], stale))
    decreases kid, 2
  {
    hide *;
    KidWritten(keys, kid, r, n);
    SuitsOne(schema, kid);
    if HasDescent(kid.tag) {
      KidStored(keys, kid, r, n, rows);
      PutGet(keys, kid, r, n, rows, depth - 1);
      KidRead(rows, schema, kid, keys(Put(keys, kid, r).records.made), stale, depth);
    } else {
      LeafRead(keys, rows, schema, kid, r, stale, depth);
    }
  }

  lemma SuitsOne(schema: Schema, kid: Marshal)
    requires Suits(schema, [kid])
    ensures Storable(kid) && schema != FIELD
  {
    assert kid in [kid];
  }

  lemma LeafRead(keys: nat -> Quid, rows: map<Quid, string>, schema: Schema, kid: Marshal, r: Records, stale: bool, depth: nat)
    requires Suits(schema, [kid]) && !HasDescent(kid.tag)
    ensures var step := GetKid(rows, schema, KidValue(keys, kid, r), stale, true, depth);
      && (AllLoadable(schema, [kid], stale) ==> step == Child(Back(kid).(name := kid.name)))
      && (step.Child? && Alike(kid, step.child) ==> AllLoadable(schema, [kid], stale))
  {
    assert kid in [kid];
    LoadableOne(schema, kid, stale);
    if kid.tag == QUID {
      KeyRead(rows, schema, KidValue(keys, kid, r), stale, depth);
    }
    hide Record, AllLoadable, Put;
  }

  /** A leaf that is itself a key is never read as one. */
  lemma KeyRead(rows: map<Quid, string>, schema: Schema, v: Value, stale: bool, depth: nat)
    requires v.tag == QUID
    ensures var step := GetKid(rows, schema, v, stale, true, depth);
      step.Child? ==> step.child.tag != QUID
  {
    hide Get;
    var key := KeyOf(v.data);
    if key.Some? && key.value in rows && depth > 0 {
      NoKeyAtTop(rows, rows[key.value], depth - 1);
    }
  }

  /** With fresh keys a tree comes back if and only if it is loadable. */
  lemma LoadsIff(keys: nat -> Quid, m: Marshal, r: Records, rows: map<Quid, string>, depth: nat)
    requires Storable(m) && Depth(m) <= depth
    requires Fresh(keys, r, r.made + Below(m)) && Within(Put(keys, m, r).records.rows, rows)
    ensures Get(rows, Put(keys, m, r).bytes, true, depth) == Tree(Back(m)) <==> Loadable(m)
  {
    PutGrows(keys, m, r);
    BackAlike(m);
    hide Get, Put, Back, Loadable, Alike, Fresh;
    PutGet(keys, m, r, r.made + Below(m), rows, depth);
  }

  lemma {:induction false} BackAlike(m: Marshal)
    ensures Alike(m, Back(m)) && Alike(m, Back(m).(name := m.name))
    decreases m, 1
  {
    BackAlikeKids(m.kids);
  }

  lemma {:induction false} BackAlikeKids(kids: seq<Marshal>)
    ensures AlikeKids(kids, BackKids(kids))
    decreases kids, 0
  {
    if kids != [] {
      BackAlike(kids[0]);
      BackAlikeKids(kids[1..]);
      assert BackKids(kids)[1..] == BackKids(kids[1..]);
    }
  }
}

/**
 * What trees the decoder gives at all, and so what a tree must be like to come
 * back from its own text.
 */
module DictCanonical {
  import opened Dict
  import opened Marshal
  import opened DictPrinted
  import opened DictMarshall

  /** No bytes where a type holds none, leaves with the type their text has, no names
      in arrays. */
  predicate Canonical(m: Marshal) {
    && (IsContainer(m) ==>
          && m.data == []
          && (forall kid <- m.kids :: Canonical(kid) && (m.tag == LIST ==> kid.name == [])))
    && (!IsContainer(m) ==> m.kids == [])
    && (m.tag == NULL || m.tag == TRUE || m.tag == FALSE ==> m.data == [])
    && (m.tag == INT || m.tag == FLOAT ==> PrimitiveText(m.data) && PrimitiveTag(m.data) == m.tag)
    && (m.tag == TEXT || m.tag == QUID ==> (m.tag == QUID <==> QuidText(m.data)))
  }

  // ----- the texts of primitive tokens -----

  predicate Readable(str: string, t: Token) {
    t.kind == PRIMITIVE ==> 0 <= t.start <= t.end <= |str| && PrimitiveText(str[t.start..t.end])
  }

  predicate AllReadable(str: string, toks: seq<Token>) {
    forall i | 0 <= i < |toks| :: Readable(str, toks[i])
  }

  /** Only containers are ever closed later. */
  predicate LeavesClosed(toks: seq<Token>) {
    forall i | 0 <= i < |toks| && toks[i].kind == PRIMITIVE :: toks[i].end != -1
  }

  lemma {:induction false} ScannedPrimitive(str: string, pos: nat)
    requires pos < |str| && ScanPrimitive(str, pos).Found?
    ensures forall i | pos <= i < ScanPrimitive(str, pos).end :: ' ' <= str[i] <= '~' && !Delimiter(str[i])
    decreases |str| - pos
  {
    hide Delimiter;
    if !Delimiter(str[pos]) && pos + 1 < |str| {
      ScannedPrimitive(str, pos + 1);
    }
  }

  lemma PrimitiveToken(str: string, pos: nat)
    requires pos < |str| && StartsPrimitive(str[pos]) && ScanPrimitive(str, pos).Found?
    ensures Readable(str, Token(PRIMITIVE, pos, ScanPrimitive(str, pos).end, 0))
  {
    ScannedPrimitive(str, pos);
    var end := ScanPrimitive(str, pos).end;
    var s := str[pos..end];
    assert forall i | 0 <= i < |s| :: s[i] == str[pos + i];
  }

  lemma BumpReadable(str: string, toks: seq<Token>, super: int)
    requires AllReadable(str, toks) && LeavesClosed(toks) && -1 <= super < |toks|
    ensures AllReadable(str, Bump(toks, super)) && LeavesClosed(Bump(toks, super))
  {
    hide PrimitiveText;
  }

  lemma MoreReadable(str: string, toks: seq<Token>, t: Token)
    requires AllReadable(str, toks) && LeavesClosed(toks) && Readable(str, t) && (t.kind == PRIMITIVE ==> t.end != -1)
    ensures AllReadable(str, toks + [t]) && LeavesClosed(toks + [t])
  {
    hide PrimitiveText;
  }

  lemma CloseReadable(str: string, toks: seq<Token>, end: nat)
    requires AllReadable(str, toks) && LeavesClosed(toks) && 0 <= Innermost(toks)
    ensures var i := Innermost(toks);
      AllReadable(str, toks[i := toks[i].(end := end)]) && LeavesClosed(toks[i := toks[i].(end := end)])
  {
    hide PrimitiveText;
  }

  lemma NextReadable(str: string, pos: nat, st: State, limit: nat)
    requires st.Ok() && More(str, pos) && AllReadable(str, st.toks) && LeavesClosed(st.toks) && Next(str, pos, st, limit).Go?
    ensures var r := Next(str, pos, st, limit); AllReadable(str, r.state.toks) && LeavesClosed(r.state.toks)
  {
    hide AllReadable, LeavesClosed, Readable, Bump, Innermost, InnermostContainer, ScanString, ScanPrimitive, Delimiter, StartsPrimitive;
    var c, r := str[pos], Next(str, pos, st, limit);
    BumpReadable(str, st.toks, st.super);
    if c == '}' || c == ']' {
      CloseReadable(str, st.toks, pos + 1);
    } else if |r.state.toks| > |st.toks| {
      var t := r.state.toks[|st.toks|];
      if t.kind == PRIMITIVE {
        PrimitiveToken(str, pos);
      } else {
        NoPrimitive(str, t);
      }
      MoreReadable(str, Bump(st.toks, st.super), t);
    }
  }

  lemma NoPrimitive(str: string, t: Token)
    requires t.kind != PRIMITIVE
    ensures Readable(str, t)
  {
  }

  lemma {:induction false} RunReadable(str: string, pos: nat, st: State, limit: nat)
    requires st.Ok() && AllReadable(str, st.toks) && LeavesClosed(st.toks) && Run(str, pos, st, limit).Tokens?
    ensures AllReadable(str, Run(str, pos, st, limit).toks)
    decreases |str| - pos
  {
    if More(str, pos) {
      NextReadable(str, pos, st, limit);
      hide Next, AllReadable, LeavesClosed;
      var r := Next(str, pos, st, limit);
      RunReadable(str, r.pos, r.state, limit);
    }
  }

  // ----- what the decoder gives -----

  lemma LeafCanonical(name: string, data: string, t: Token)
    requires HasText(data, t) && Readable(data, t) && (t.kind == PRIMITIVE || t.kind == STRING)
    ensures Canonical(LeafOf(name, data, t)) && LeafOf(name, data, t).name == name
  {
    hide PrimitiveText, FloatText, QuidText;
  }

  /** Every decoded tree is canonical. */
  lemma {:induction false} DecodedCanonical(data: string, name: string)
    ensures var d := Decode(data, name); d.Object? ==> Canonical(d.m) && d.m.name == name
    decreases |data|, 1, 0
  {
    if Parse(data, |data|).Tokens? && Parse(data, |data|).toks != [] {
      var toks := Parse(data, |data|).toks;
      ParseHasText(data);
      RunReadable(data, 0, State([], -1), |data|);
      hide Parse, Run, DecodeList, DecodeMap;
      match toks[0].kind
      case ARRAY => ListCanonical(data, toks, 1, Marshal(name, LIST, [], []));
      case OBJECT => MapCanonical(data, toks, 1, Marshal(name, MAP, [], []), NoKey);
      case _ =>
    }
  }

  lemma {:induction false} ListCanonical(data: string, toks: seq<Token>, i: nat, obj: Marshal)
    requires 1 <= i && AllHaveText(data, toks) && AllReadable(data, toks) && Canonical(obj) && obj.tag == LIST
    ensures var d := DecodeList(data, toks, i, obj); d.Object? ==> Canonical(d.m) && d.m.name == obj.name
    decreases |data|, 0, |toks| - i
  {
    hide LeafOf, Below, Decode;
    if i < |toks| {
      var t := toks[i];
      if t.kind == PRIMITIVE || t.kind == STRING {
        LeafCanonical([], data, t);
        AddCanonical(obj, LeafOf([], data, t));
        ListCanonical(data, toks, i + 1, Add(obj, LeafOf([], data, t)));
      } else if Decode(Text(data, t), []).Object? && 0 <= Below(toks, i) {
        var kid := Decode(Text(data, t), []).m;
        DecodedCanonical(Text(data, t), []);
        AddCanonical(obj, kid);
        ListCanonical(data, toks, i + 1 + Below(toks, i), Add(obj, kid));
      }
    }
  }

  lemma {:induction false} MapCanonical(data: string, toks: seq<Token>, i: nat, obj: Marshal, key: Pending)
    requires 1 <= i && AllHaveText(data, toks) && AllReadable(data, toks) && Canonical(obj) && obj.tag == MAP
    ensures var d := DecodeMap(data, toks, i, obj, key); d.Object? ==> Canonical(d.m) && d.m.name == obj.name
    decreases |data|, 0, |toks| - i
  {
    hide LeafOf, Below, Decode;
    if i < |toks| {
      var t := toks[i];
      if t.kind == STRING && key.NoKey? {
        MapCanonical(data, toks, i + 1, obj, Key(Text(data, t)));
      } else if key.NoKey? {
      } else if t.kind == PRIMITIVE || t.kind == STRING {
        LeafCanonical(key.name, data, t);
        AddCanonical(obj, LeafOf(key.name, data, t));
        MapCanonical(data, toks, i + 1, Add(obj, LeafOf(key.name, data, t)), NoKey);
      } else if Decode(Text(data, t), key.name).Object? && 0 <= Below(toks, i) {
        var kid := Decode(Text(data, t), key.name).m;
        DecodedCanonical(Text(data, t), key.name);
        AddCanonical(obj, kid);
        MapCanonical(data, toks, i + 1 + Below(toks, i), Add(obj, kid), NoKey);
      }
    }
  }

  lemma AddCanonical(obj: Marshal, kid: Marshal)
    requires Canonical(obj) && IsContainer(obj) && Canonical(kid) && (obj.tag == LIST ==> kid.name == [])
    ensures Canonical(Add(obj, kid))
  {
  }

  /** A tree that comes back from its own text is canonical: of the conditions of
      Printable only those on the characters of names and texts, on empty containers
      and on the names of members are not necessary for that. */
  lemma ComesBackCanonical(m: Marshal)
    requires Decode(Print(m), []) == Object(m)
    ensures Canonical(m) && m.name == []
  {
    DecodedCanonical(Print(m), []);
  }

  /** An empty container never comes back: it is printed as null. */
  lemma EmptyIsLost(m: Marshal)
    requires IsContainer(m) && m.kids == [] && m.name == []
    ensures !Decode(Print(m), []).Object? || !IsContainer(Decode(Print(m), []).m)
  {
    assert Print(m) == "null";
    var toks := Parse("null", 4);
    assert Run("null", 0, State([], -1), 4) == Error(OUTSIDE) by {
      assert Next("null", 0, State([], -1), 4) == Stop(OUTSIDE);
    }
  }
}

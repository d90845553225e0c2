/**
 * Decoding the texts of the grammar: the decoder gives the tree of the
 * derivation, whatever blanks and escapes the text has.
 */
module DictMeaning {
  import opened Dict
  import opened DictPrinted
  import opened DictMarshall
  import opened DictDerived
  import M = Marshal
  import G = JsonGrammar

  // ----- the tree of a derivation -----

  /** A number with a decimal point and no exponent is a float. */
  function LeafTag(v: G.Value): M.Type
    requires !Bracketed(v)
  {
    match v
    case Word(text) => if text == "null" then M.NULL else if text == "true" then M.TRUE else M.FALSE
    case Num(n) => if n.point && n.exponent == [] then M.FLOAT else M.INT
    case Str(text) => if |text| >= 2 && QuidText(text[1..|text| - 1]) then M.QUID else M.TEXT
  }

  /** What stands between the quotes, as it stands there. */
  function Unquoted(s: string): string {
    if |s| >= 2 then s[1..|s| - 1] else []
  }

  /** Arrays become lists and objects maps; an element has no name, a member that
      of its key. */
  function TreeOf(name: string, v: G.Value): M.Marshal
    decreases v, 1
  {
    match v
    case Word(_) => M.Marshal(name, LeafTag(v), [], [])
    case Num(n) => M.Marshal(name, LeafTag(v), G.NumberText(n), [])
    case Str(text) => M.Marshal(name, LeafTag(v), Unquoted(text), [])
    case Array(_, es) => M.Marshal(name, M.LIST, [], ElementTrees(es))
    case Object(_, ms) => M.Marshal(name, M.MAP, [], MemberTrees(ms))
  }

  function ElementTrees(es: seq<G.Element>): (r: seq<M.Marshal>)
    ensures |r| == |es|
    decreases es, 2
  {
    if es == [] then [] else ElementTrees(es[..|es| - 1]) + [TreeOf([], es[|es| - 1].value)]
  }

  function MemberTrees(ms: seq<G.Member>): (r: seq<M.Marshal>)
    ensures |r| == |ms|
    decreases ms, 2
  {
    if ms == [] then []
    else
      var m := ms[|ms| - 1];
      MemberTrees(ms[..|ms| - 1]) + [TreeOf(Unquoted(m.key), m.element.value)]
  }

  // ----- numbers -----

  lemma {:induction false} OccurrencesConcat(a: string, b: string, c: char)
    ensures Occurrences(a + b, c) == Occurrences(a, c) + Occurrences(b, c)
    decreases |a|
  {
    if a == [] {
      assert a + b == b;
    } else {
      assert (a + b)[1..] == a[1..] + b;
      OccurrencesConcat(a[1..], b, c);
    }
  }

  lemma {:induction false} NoPoint(s: string)
    requires forall i | 0 <= i < |s| :: s[i] != '.'
    ensures Occurrences(s, '.') == 0
    decreases |s|
  {
    if s != [] {
      NoPoint(s[1..]);
    }
  }

  lemma NumberTag(n: G.Number)
    requires G.NumberOk(n)
    ensures PrimitiveTag(G.NumberText(n)) == if n.point && n.exponent == [] then M.FLOAT else M.INT
  {
    var sign, tail := if n.minus then "-" else "", if n.point then "." + n.fraction else "";
    var s := G.NumberText(n);
    assert s == sign + n.whole + tail + n.exponent;
    NumberPrimitive(n);
    NotAWord(n);
    if n.exponent != [] {
      var i := |sign + n.whole + tail|;
      assert s[i] == n.exponent[0];
    } else {
      assert s == sign + n.whole + tail;
      OccurrencesConcat(sign + n.whole, tail, '.');
      NoPoint(sign + n.whole);
      NoPoint(n.fraction);
      OccurrencesConcat(".", n.fraction, '.');
      assert Occurrences(".", '.') == 1 && Occurrences("", '.') == 0;
    }
  }

  lemma NotAWord(n: G.Number)
    requires G.NumberOk(n)
    ensures var s := G.NumberText(n); s != "null" && s != "true" && s != "false"
  {
    var s := G.NumberText(n);
    assert n.whole != [] && (s[0] == '-' || s[0] == n.whole[0]);
  }

  // ----- leaves -----

  lemma DerivedLeaf(data: string, at: nat, v: G.Value, room: int, name: string, t: Token)
    requires G.ValueOk(v, room) && !Bracketed(v) && At(data, at, G.Text(v)) && ValueToks(v, at) == [t]
    ensures HasText(data, t) && LeafOf(name, data, t) == TreeOf(name, v) && (t.kind == PRIMITIVE || t.kind == STRING)
  {
    hide QuidText, FloatText, G.NumberText, G.NumberOk, G.Chars, PrimitiveTag;
    if v.Str? {
      QuotedPiece(data, at, v.text);
    } else if v.Num? {
      NumberTag(v.number);
    } else {
      WordTag(v.text);
    }
  }

  lemma QuotedPiece(data: string, at: nat, s: string)
    requires At(data, at, s) && |s| >= 2
    ensures at + |s| <= |data| && data[at + 1..at + |s| - 1] == Unquoted(s)
  {
    var first, inner, last := [s[0]], Unquoted(s), [s[|s| - 1]];
    assert s == first + (inner + last);
    AtSplit(data, at, first, inner + last);
    AtSplit(data, at + 1, inner, last);
  }

  lemma WordTag(s: string)
    requires s == "true" || s == "false" || s == "null"
    ensures PrimitiveTag(s) == if s == "null" then M.NULL else if s == "true" then M.TRUE else M.FALSE
  {
  }

  // ----- counting the tokens of a subtree -----

  /** dict_levelcount is exact on the tokens of a derivation. */
  lemma {:induction false} LevelCountDerived(toks: seq<Token>, i: nat, v: G.Value, at: nat)
    requires TokensAt(toks, i, ValueToks(v, at))
    ensures LevelCount(toks, i) == |ValueToks(v, at)|
    decreases v, 1
  {
    hide G.Text;
    var t := ValueToks(v, at)[0];
    TokenAt(toks, i, ValueToks(v, at));
    if v.Array? {
      TokensSplit(toks, i, [t], ElementToks(v.elements, at + 1));
      SkipElements(toks, i + 1, v.elements, at + 1);
    } else if v.Object? {
      TokensSplit(toks, i, [t], MemberToks(v.members, at + 1));
      SkipMembers(toks, i + 1, v.members, at + 1);
    }
  }

  lemma {:induction false} SkipOneMore(toks: seq<Token>, i: nat, n: nat)
    requires 0 <= Skip(toks, i, n) && 0 < LevelCount(toks, i + Skip(toks, i, n))
    ensures Skip(toks, i, n + 1) == Skip(toks, i, n) + LevelCount(toks, i + Skip(toks, i, n))
    decreases n
  {
    hide LevelCount;
    if n == 0 {
      assert Skip(toks, i, 0) == 0;
      assert Skip(toks, i + LevelCount(toks, i), 0) == 0;
    } else {
      var c := LevelCount(toks, i);
      assert Skip(toks, i, n) == c + Skip(toks, i + c, n - 1);
      SkipOneMore(toks, i + c, n - 1);
    }
  }

  lemma {:induction false} SkipElements(toks: seq<Token>, i: nat, es: seq<G.Element>, at: nat)
    requires TokensAt(toks, i, ElementToks(es, at))
    ensures Skip(toks, i, |es|) == |ElementToks(es, at)|
    decreases es, 2
  {
    hide ValueToks, LevelCount, TokensAt, G.Elements;
    if es == [] {
      SkipNone(toks, i);
    } else {
      var rest, e := es[..|es| - 1], es[|es| - 1];
      var q := at + |G.Elements(rest)| + |e.before|;
      TokensSplit(toks, i, ElementToks(rest, at), ValueToks(e.value, q));
      SkipElements(toks, i, rest, at);
      LevelCountDerived(toks, i + |ElementToks(rest, at)|, e.value, q);
      SkipOneMore(toks, i, |rest|);
    }
  }

  lemma {:induction false} SkipMembers(toks: seq<Token>, i: nat, ms: seq<G.Member>, at: nat)
    requires TokensAt(toks, i, MemberToks(ms, at))
    ensures Skip(toks, i, 2 * |ms|) == |MemberToks(ms, at)|
    decreases ms, 2
  {
    hide ValueToks, LevelCount, TokensAt, G.Members, MemberKey;
    if ms == [] {
      SkipNone(toks, i);
    } else {
      var rest, m := ms[..|ms| - 1], ms[|ms| - 1];
      var q := at + |G.Members(rest)|;
      var value := ValueToks(m.element.value, ValueAt(m, q));
      TokensSplit(toks, i, MemberToks(rest, at) + [MemberKey(m, q, 1)], value);
      TokensSplit(toks, i, MemberToks(rest, at), [MemberKey(m, q, 1)]);
      SkipMembers(toks, i, rest, at);
      KeyCounts(toks, i + |MemberToks(rest, at)|, m, q);
      SkipOneMore(toks, i, 2 * |rest|);
      LevelCountDerived(toks, i + |MemberToks(rest, at)| + 1, m.element.value, ValueAt(m, q));
      SkipOneMore(toks, i, 2 * |rest| + 1);
    }
  }

  lemma KeyCounts(toks: seq<Token>, i: nat, m: G.Member, q: nat)
    requires TokensAt(toks, i, [MemberKey(m, q, 1)])
    ensures LevelCount(toks, i) == 1 && i < |toks| && toks[i] == MemberKey(m, q, 1)
  {
    TokenAt(toks, i, [MemberKey(m, q, 1)]);
  }

  // ----- decoding -----

  /** A nested container among the tokens. */
  lemma ContainerHere(data: string, toks: seq<Token>, i: nat, at: nat, v: G.Value)
    requires Bracketed(v) && At(data, at, G.Text(v)) && TokensAt(toks, i, ValueToks(v, at)) && i < |toks|
    ensures HasText(data, toks[i]) && Text(data, toks[i]) == G.Text(v) && toks[i].kind == if v.Array? then ARRAY else OBJECT
    ensures |ValueToks(v, at)| == 1 + Below(toks, i) && 0 <= Below(toks, i)
  {
    hide G.Text, LevelCount, Skip;
    TokenAt(toks, i, ValueToks(v, at));
    LevelCountDerived(toks, i, v, at);
    LevelBelow(toks, i);
  }

  lemma AddTree(obj: M.Marshal, kids: seq<M.Marshal>, kid: M.Marshal)
    ensures Add(obj.(kids := obj.kids + kids), kid) == obj.(kids := obj.kids + (kids + [kid]))
  {
    assert obj.kids + kids + [kid] == obj.kids + (kids + [kid]);
  }

  lemma OneTok(v: G.Value, at: nat)
    requires !Bracketed(v)
    ensures |ValueToks(v, at)| == 1 && ValueToks(v, at) == [ValueToks(v, at)[0]]
  {
  }

  /** The text of a container, decoded by itself. */
  lemma {:induction false} DecodeDerived(before: string, v: G.Value, after: string, room: int, name: string)
    requires Bracketed(v) && G.DerivationOk(G.Derivation(before, v, after), room)
    ensures Decode(G.DerivationText(G.Derivation(before, v, after)), name) == Object(TreeOf(name, v))
    decreases v, 3
  {
    hide Parse, ValueToks, G.Text, G.ValueOk, DecodeList, DecodeMap, ElementToks, MemberToks, At, TokensAt, AllHaveText, InnerText,
         ElementTrees, MemberTrees;
    var d := G.Derivation(before, v, after);
    var data, p := G.DerivationText(d), |before|;
    var toks := ValueToks(v, p);
    ParseDerived(d, room);
    ParseHasText(data);
    ValueParts(v, room);
    InnerPlace(d);
    TopTokens(v, p);
    StartDerived(data, toks, v, name);
    if v.Array? {
      var obj := M.Marshal(name, M.LIST, [], []);
      DecodeElements(data, toks, p + 1, v.elements, room - 1, obj);
      DecodeListEnd(data, toks, |toks|, obj.(kids := obj.kids + ElementTrees(v.elements)));
      assert [] + ElementTrees(v.elements) == ElementTrees(v.elements);
    } else {
      var obj := M.Marshal(name, M.MAP, [], []);
      DecodeMembers(data, toks, p + 1, v.members, room - 1, obj);
      DecodeMapEnd(data, toks, |toks|, obj.(kids := obj.kids + MemberTrees(v.members)));
      assert [] + MemberTrees(v.members) == MemberTrees(v.members);
    }
  }

  lemma StartDerived(data: string, toks: seq<Token>, v: G.Value, name: string)
    requires Bracketed(v) && Parse(data, |data|) == Tokens(toks) && AllHaveText(data, toks)
    requires toks != [] && toks[0].kind == if v.Array? then ARRAY else OBJECT
    ensures Decode(data, name) ==
      if v.Array? then DecodeList(data, toks, 1, M.Marshal(name, M.LIST, [], []))
      else DecodeMap(data, toks, 1, M.Marshal(name, M.MAP, [], []), NoKey)
  {
    hide Parse, DecodeList, DecodeMap;
  }

  lemma InnerPlace(d: G.Derivation)
    requires Bracketed(d.value)
    ensures At(G.DerivationText(d), |d.before| + 1, InnerText(d.value))
  {
    var v, str := d.value, G.DerivationText(d);
    var open, close := if v.Array? then '[' else '{', if v.Array? then ']' else '}';
    BracketedText(v);
    hide G.Text, InnerText;
    assert str[0..|str|] == str;
    AtSplit(str, 0, d.before + G.Text(v), d.after);
    AtSplit(str, 0, d.before, G.Text(v));
    assert G.Text(v) == [open] + InnerText(v) + [close];
    Between(str, |d.before|, open, InnerText(v), close);
  }

  lemma TopTokens(v: G.Value, p: nat)
    requires Bracketed(v)
    ensures var toks := ValueToks(v, p);
      && toks != [] && toks[0].kind == (if v.Array? then ARRAY else OBJECT)
      && (v.Array? ==> TokensAt(toks, 1, ElementToks(v.elements, p + 1)) && |toks| == 1 + |ElementToks(v.elements, p + 1)|)
      && (v.Object? ==> TokensAt(toks, 1, MemberToks(v.members, p + 1)) && |toks| == 1 + |MemberToks(v.members, p + 1)|)
      && InnerText(v) == if v.Array? && v.elements != [] then Listed(v.elements)
                         else if v.Object? && v.members != [] then ListedMembers(v.members)
                         else v.pad
  {
    hide G.Text, ElementToks, MemberToks;
  }

  /** The elements of an array, up to the last of es. */
  lemma {:induction false} DecodeElements(data: string, toks: seq<Token>, at: nat, es: seq<G.Element>, room: int, obj: M.Marshal)
    requires AllHaveText(data, toks) && EachElement(es, room) && (es != [] ==> At(data, at, Listed(es)))
    requires TokensAt(toks, 1, ElementToks(es, at))
    ensures DecodeList(data, toks, 1, obj)
         == DecodeList(data, toks, 1 + |ElementToks(es, at)|, obj.(kids := obj.kids + ElementTrees(es)))
    decreases es, 2
  {
    hide ValueToks, DecodeList, AllHaveText, TokensAt, At, Add, TreeOf, G.Elements, G.ElementText, EachElement, G.ElementOk;
    if es == [] {
      assert obj.(kids := obj.kids + []) == obj;
    } else {
      LastElement(es, room);
      var rest, e := es[..|es| - 1], es[|es| - 1];
      var q, done := at + |G.Elements(rest)|, ElementToks(rest, at);
      AtSplit(data, at, G.Elements(rest), G.ElementText(e));
      ElementsListed(rest);
      if rest != [] {
        AtSplit(data, at, Listed(rest), ",");
      }
      TokensSplit(toks, 1, done, ValueToks(e.value, q + |e.before|));
      DecodeElements(data, toks, at, rest, room, obj);
      var sofar := obj.(kids := obj.kids + ElementTrees(rest));
      ElementPlace(data, q, e);
      DecodeValue(data, toks, 1 + |done|, q + |e.before|, e.value, room, sofar);
      AddTree(obj, ElementTrees(rest), TreeOf([], e.value));
    }
  }

  lemma ElementPlace(data: string, q: nat, e: G.Element)
    requires At(data, q, G.ElementText(e))
    ensures At(data, q + |e.before|, G.Text(e.value))
  {
    hide G.Text;
    AtSplit(data, q, e.before + G.Text(e.value), e.after);
    AtSplit(data, q, e.before, G.Text(e.value));
  }

  lemma {:induction false} DecodeValue(data: string, toks: seq<Token>, i: nat, at: nat, v: G.Value, room: int, obj: M.Marshal)
    requires 1 <= i && AllHaveText(data, toks) && G.ValueOk(v, room) && At(data, at, G.Text(v))
    requires TokensAt(toks, i, ValueToks(v, at))
    ensures DecodeList(data, toks, i, obj) == DecodeList(data, toks, i + |ValueToks(v, at)|, Add(obj, TreeOf([], v)))
    decreases v, 4
  {
    hide ValueToks, G.Text, DecodeList, Decode, TokensAt, At, AllHaveText, Below, LeafOf, Add, TreeOf, G.ValueOk;
    TokenAt(toks, i, ValueToks(v, at));
    HereHasText(data, toks, i);
    if Bracketed(v) {
      ContainerHere(data, toks, i, at, v);
      Alone(v, room);
      DecodeDerived([], v, [], room, []);
      ListOne(data, toks, i, obj, TreeOf([], v));
    } else {
      OneTok(v, at);
      DerivedLeaf(data, at, v, room, [], toks[i]);
      ListLeaf(data, toks, i, obj);
    }
  }

  lemma HereHasText(data: string, toks: seq<Token>, i: nat)
    requires AllHaveText(data, toks) && i < |toks|
    ensures HasText(data, toks[i])
  {
  }

  /** A text without blanks around it. */
  lemma Alone(v: G.Value, room: int)
    requires G.ValueOk(v, room) && Bracketed(v)
    ensures G.DerivationOk(G.Derivation([], v, []), room) && G.DerivationText(G.Derivation([], v, [])) == G.Text(v)
  {
    hide G.Text, G.ValueOk;
  }

  lemma ListOne(data: string, toks: seq<Token>, i: nat, obj: M.Marshal, kid: M.Marshal)
    requires 1 <= i < |toks| && AllHaveText(data, toks) && (toks[i].kind == ARRAY || toks[i].kind == OBJECT)
    requires HasText(data, toks[i]) && Decode(Text(data, toks[i]), []) == Object(kid) && 0 <= Below(toks, i)
    ensures DecodeList(data, toks, i, obj) == DecodeList(data, toks, i + 1 + Below(toks, i), Add(obj, kid))
  {
    hide Decode, DecodeMap, Below, LeafOf;
  }

  /** The members of an object, up to the last of ms. */
  lemma {:induction false} DecodeMembers(data: string, toks: seq<Token>, at: nat, ms: seq<G.Member>, room: int, obj: M.Marshal)
    requires AllHaveText(data, toks) && EachMember(ms, room) && (ms != [] ==> At(data, at, ListedMembers(ms)))
    requires TokensAt(toks, 1, MemberToks(ms, at))
    ensures DecodeMap(data, toks, 1, obj, NoKey)
         == DecodeMap(data, toks, 1 + |MemberToks(ms, at)|, obj.(kids := obj.kids + MemberTrees(ms)), NoKey)
    decreases ms, 2
  {
    hide ValueToks, DecodeMap, AllHaveText, TokensAt, At, Add, TreeOf, G.Members, G.MemberText, EachMember, G.MemberOk, MemberKey, Unquoted;
    if ms == [] {
      assert obj.(kids := obj.kids + []) == obj;
    } else {
      LastMember(ms, room);
      var rest, m := ms[..|ms| - 1], ms[|ms| - 1];
      var q, done := at + |G.Members(rest)|, MemberToks(rest, at);
      var key, value := [MemberKey(m, q, 1)], ValueToks(m.element.value, ValueAt(m, q));
      AtSplit(data, at, G.Members(rest), G.MemberText(m));
      MembersListed(rest);
      if rest != [] {
        AtSplit(data, at, ListedMembers(rest), ",");
      }
      TokensSplit(toks, 1, done + key, value);
      TokensSplit(toks, 1, done, key);
      DecodeMembers(data, toks, at, rest, room, obj);
      var sofar := obj.(kids := obj.kids + MemberTrees(rest));
      DecodeMember(data, toks, 1 + |done|, q, m, room, sofar);
      AddTree(obj, MemberTrees(rest), TreeOf(Unquoted(m.key), m.element.value));
    }
  }

  lemma {:induction false} DecodeMember(data: string, toks: seq<Token>, i: nat, q: nat, m: G.Member, room: int, obj: M.Marshal)
    requires 1 <= i && AllHaveText(data, toks) && G.MemberOk(m, room) && At(data, q, G.MemberText(m))
    requires TokensAt(toks, i, [MemberKey(m, q, 1)]) && TokensAt(toks, i + 1, ValueToks(m.element.value, ValueAt(m, q)))
    ensures DecodeMap(data, toks, i, obj, NoKey)
         == DecodeMap(data, toks, i + 1 + |ValueToks(m.element.value, ValueAt(m, q))|,
                      Add(obj, TreeOf(Unquoted(m.key), m.element.value)), NoKey)
    decreases m, 5
  {
    hide ValueToks, G.Text, G.ElementText, DecodeMap, Decode, TokensAt, At, AllHaveText, Below, LeafOf, Add, TreeOf, G.ValueOk, Unquoted,
         LevelCount;
    var v, at, name := m.element.value, ValueAt(m, q), Unquoted(m.key);
    MemberParts(data, q, m);
    ElementPlace(data, at - |m.element.before|, m.element);
    KeyCounts(toks, i, m, q);
    QuotedLong(m.key);
    KeyHere(data, m, q);
    MapKey(data, toks, i, obj);
    TokenAt(toks, i + 1, ValueToks(v, at));
    HereHasText(data, toks, i + 1);
    if Bracketed(v) {
      ContainerHere(data, toks, i + 1, at, v);
      Alone(v, room);
      DecodeDerived([], v, [], room, name);
      MapOne(data, toks, i + 1, obj, name, TreeOf(name, v));
    } else {
      OneTok(v, at);
      DerivedLeaf(data, at, v, room, name, toks[i + 1]);
      MapLeaf(data, toks, i + 1, obj, name);
    }
  }

  lemma KeyHere(data: string, m: G.Member, q: nat)
    requires At(data, q + |m.before|, m.key) && |m.key| >= 2
    ensures HasText(data, MemberKey(m, q, 1)) && Text(data, MemberKey(m, q, 1)) == Unquoted(m.key)
  {
    QuotedPiece(data, q + |m.before|, m.key);
  }

  lemma MapOne(data: string, toks: seq<Token>, i: nat, obj: M.Marshal, name: string, kid: M.Marshal)
    requires 1 <= i < |toks| && AllHaveText(data, toks) && (toks[i].kind == ARRAY || toks[i].kind == OBJECT)
    requires HasText(data, toks[i]) && Decode(Text(data, toks[i]), name) == Object(kid) && 0 <= Below(toks, i)
    ensures DecodeMap(data, toks, i, obj, Key(name)) == DecodeMap(data, toks, i + 1 + Below(toks, i), Add(obj, kid), NoKey)
  {
    hide Decode, DecodeList, Below, LeafOf;
  }

  /** The decoder on the texts of the grammar. */
  lemma DecodesGrammar(d: G.Derivation, room: int)
    requires G.DerivationOk(d, room)
    ensures Decode(G.DerivationText(d), []) == Object(TreeOf([], d.value))
  {
    hide G.DerivationText, Decode, TreeOf, G.ValueOk;
    DecodeDerived(d.before, d.value, d.after, room, []);
  }
}

/**
 * The decoder (marshall_dict_decode, src/dict_marshall.c): from a text back to
 * an object tree, by tokenizing the text, taking leaves from the token array,
 * and decoding every nested container from its own piece of the text.
 */
module DictMarshall {
  import opened Dict
  import opened Marshal
  import opened DictPrinted

  // ----- counting the tokens of a subtree -----

  /** dict_levelcount: the number of tokens of the subtree at token i; -1 when the
      count goes on to tokens that were never written. */
  function LevelCount(toks: seq<Token>, i: nat): (c: int)
    ensures c == -1 || 0 < c
    decreases if i < |toks| then |toks| - i else 0, 0, 0
  {
    if i >= |toks| then -1
    else
      match toks[i].kind
      case OBJECT => (var c := Skip(toks, i + 1, 2 * toks[i].size); if c < 0 then -1 else 1 + c)
      case ARRAY => (var c := Skip(toks, i + 1, toks[i].size); if c < 0 then -1 else 1 + c)
      case _ => 1
  }

  /** The tokens of n subtrees in a row. */
  function Skip(toks: seq<Token>, i: nat, n: int): (c: int)
    ensures -1 <= c
    decreases if i < |toks| then |toks| - i else 0, 1, n
  {
    if n <= 0 then 0
    else
      var c := LevelCount(toks, i);
      if c < 0 then -1
      else
        var d := Skip(toks, i + c, n - 1);
        if d < 0 then -1 else c + d
  }

  /** The children of a container token. */
  function Below(toks: seq<Token>, i: nat): int
    requires i < |toks|
  {
    Skip(toks, i + 1, if toks[i].kind == OBJECT then 2 * toks[i].size else toks[i].size)
  }

  predicate TokensAt(toks: seq<Token>, i: nat, s: seq<Token>) {
    i + |s| <= |toks| && toks[i..i + |s|] == s
  }

  lemma TokensSplit(toks: seq<Token>, i: nat, a: seq<Token>, b: seq<Token>)
    requires TokensAt(toks, i, a + b)
    ensures TokensAt(toks, i, a) && TokensAt(toks, i + |a|, b)
  {
    var s := toks[i..i + |a + b|];
    assert s[..|a|] == a && s[|a|..] == b;
    assert toks[i..i + |a|] == s[..|a|] && toks[i + |a|..i + |a| + |b|] == s[|a|..];
  }

  lemma TokenAt(toks: seq<Token>, i: nat, s: seq<Token>)
    requires TokensAt(toks, i, s) && s != []
    ensures i < |toks| && toks[i] == s[0]
  {
    assert toks[i..i + |s|][0] == toks[i];
  }

  /** dict_levelcount is exact on the tokens of a printed tree. */
  lemma {:induction false} LevelCountIs(toks: seq<Token>, i: nat, m: Marshal, at: nat)
    requires Printable(m) && TokensAt(toks, i, Toks(m, at))
    ensures LevelCount(toks, i) == |Toks(m, at)|
    decreases m, 1
  {
    hide Body;
    TokenAt(toks, i, Toks(m, at));
    if IsContainer(m) {
      PrintableKids(m);
      TokensSplit(toks, i, [Toks(m, at)[0]], KidToks(m.kids, at + 1));
      SkipIs(toks, i + 1, m.kids, at + 1, m.tag == MAP);
    }
  }

  lemma {:induction false} SkipIs(toks: seq<Token>, i: nat, kids: seq<Marshal>, at: nat, named: bool)
    requires TokensAt(toks, i, KidToks(kids, at))
    requires forall j | 0 <= j < |kids| :: Printable(kids[j]) && (kids[j].name == [] <==> !named)
    ensures Skip(toks, i, if named then 2 * |kids| else |kids|) == |KidToks(kids, at)|
    decreases kids, 2
  {
    hide Toks, Print, Printable, LevelCount, Skip, NameToks, TokensAt, KidToks;
    if kids == [] {
      KidToksUnfolded(kids, at);
      SkipNone(toks, i);
    } else {
      var kid, rest := kids[0], kids[1..];
      var key, value := NameToks(kid.name, at, 1), Toks(kid, at + |Prefix(kid.name)|);
      var after := KidToks(rest, at + |Print(kid)| + 1);
      KidToksUnfolded(kids, at);
      TokensSplit(toks, i, key, value + after);
      TokensSplit(toks, i + |key|, value, after);
      LevelCountIs(toks, i + |key|, kid, at + |Prefix(kid.name)|);
      SkipIs(toks, i + |key| + |value|, rest, at + |Print(kid)| + 1, named);
      KeyCount(toks, i, kid.name, at);
      if named {
        SkipStep(toks, i + 1, 2 * |kids| - 1);
        SkipStep(toks, i, 2 * |kids|);
      } else {
        SkipStep(toks, i, |kids|);
      }
    }
  }

  lemma KidToksUnfolded(kids: seq<Marshal>, at: nat)
    ensures kids == [] ==> KidToks(kids, at) == []
    ensures kids != [] ==>
      KidToks(kids, at) == NameToks(kids[0].name, at, 1)
                           + (Toks(kids[0], at + |Prefix(kids[0].name)|) + KidToks(kids[1..], at + |Print(kids[0])| + 1))
  {
    if kids != [] {
      hide Toks, Print, NameToks, Prefix;
      var a, b, c := NameToks(kids[0].name, at, 1), Toks(kids[0], at + |Prefix(kids[0].name)|), KidToks(kids[1..], at + |Print(kids[0])| + 1);
      assert KidToks(kids, at) == a + b + c;
    }
  }

  lemma SkipNone(toks: seq<Token>, i: nat)
    ensures Skip(toks, i, 0) == 0
  {
  }

  lemma SkipStep(toks: seq<Token>, i: nat, n: nat)
    requires n > 0 && 0 <= LevelCount(toks, i) && 0 <= Skip(toks, i + LevelCount(toks, i), n - 1)
    ensures Skip(toks, i, n) == LevelCount(toks, i) + Skip(toks, i + LevelCount(toks, i), n - 1)
  {
  }

  lemma KeyCount(toks: seq<Token>, i: nat, name: string, at: nat)
    requires TokensAt(toks, i, NameToks(name, at, 1))
    ensures if name == [] then NameToks(name, at, 1) == [] else |NameToks(name, at, 1)| == 1 && LevelCount(toks, i) == 1
  {
    if name != [] {
      TokenAt(toks, i, NameToks(name, at, 1));
    }
  }

  // ----- tokens lie inside their text -----

  /** Tokens found before position pos: none starts before the text or ends past
      pos, and only the first can start at the very beginning. */
  predicate Spanned(toks: seq<Token>, pos: nat) {
    forall i | 0 <= i < |toks| ::
      0 <= toks[i].start <= pos && (toks[i].end == -1 || toks[i].start <= toks[i].end <= pos) && (i > 0 ==> 0 < toks[i].start)
  }

  lemma NextSpanned(str: string, pos: nat, st: State, limit: nat)
    requires st.Ok() && More(str, pos) && Spanned(st.toks, pos) && (st.toks != [] ==> 0 < pos)
    requires Next(str, pos, st, limit).Go?
    ensures var r := Next(str, pos, st, limit); Spanned(r.state.toks, r.pos)
  {
    hide Spanned, Bump, Innermost, InnermostContainer, ScanString, ScanPrimitive, Delimiter, StartsPrimitive;
    var r := Next(str, pos, st, limit);
    SpannedLater(st.toks, pos, r.pos);
    SpannedBump(st.toks, st.super, r.pos);
    if str[pos] == '}' || str[pos] == ']' {
      SpannedClose(st.toks, Innermost(st.toks), r.pos);
    } else if |r.state.toks| > |st.toks| {
      SpannedMore(Bump(st.toks, st.super), r.state.toks[|st.toks|], r.pos);
    }
  }

  lemma SpannedLater(toks: seq<Token>, pos: nat, later: nat)
    requires Spanned(toks, pos) && pos <= later
    ensures Spanned(toks, later)
  {
  }

  lemma SpannedBump(toks: seq<Token>, super: int, pos: nat)
    requires Spanned(toks, pos) && -1 <= super < |toks|
    ensures Spanned(Bump(toks, super), pos)
  {
  }

  lemma SpannedClose(toks: seq<Token>, i: int, pos: nat)
    requires Spanned(toks, pos) && 0 <= i < |toks|
    ensures Spanned(toks[i := toks[i].(end := pos)], pos)
  {
  }

  lemma SpannedMore(toks: seq<Token>, t: Token, pos: nat)
    requires Spanned(toks, pos) && 0 <= t.start <= pos && (t.end == -1 || t.start <= t.end <= pos)
    requires toks != [] ==> 0 < t.start
    ensures Spanned(toks + [t], pos)
  {
  }

  lemma {:induction false} RunSpanned(str: string, pos: nat, st: State, limit: nat)
    requires st.Ok() && pos <= |str| && Spanned(st.toks, pos) && (st.toks != [] ==> 0 < pos)
    requires Run(str, pos, st, limit).Tokens?
    ensures var toks := Run(str, pos, st, limit).toks; Spanned(toks, |str|) && Innermost(toks) == -1
    decreases |str| - pos
  {
    if More(str, pos) {
      NextSpanned(str, pos, st, limit);
      hide Next;
      var r := Next(str, pos, st, limit);
      RunSpanned(str, r.pos, r.state, limit);
    }
  }

  /** Every token of a tokenized text has its piece of the text. */
  predicate HasText(data: string, t: Token) {
    0 <= t.start <= t.end <= |data|
  }

  lemma ParseSpanned(data: string, limit: nat)
    requires Parse(data, limit).Tokens?
    ensures var toks := Parse(data, limit).toks;
      forall i | 0 <= i < |toks| :: HasText(data, toks[i]) && (i > 0 ==> 0 < toks[i].start)
  {
    RunSpanned(data, 0, State([], -1), limit);
    NoneOpen(Parse(data, limit).toks);
  }

  // ----- the decoder, as a function -----

  /** The result of decoding: no object when the text cannot be tokenized; Broken
      where the program would follow a null pointer, or look before its tokens or
      behind them. */
  datatype Decoded = NoObject | Object(m: Marshal) | Broken

  function Text(data: string, t: Token): string
    requires HasText(data, t)
  {
    data[t.start..t.end]
  }

  function StringTag(s: string): Type {
    if QuidText(s) then QUID else TEXT
  }

  function LeafOf(name: string, data: string, t: Token): Marshal
    requires HasText(data, t)
  {
    var s := Text(data, t);
    if t.kind == STRING then Marshal(name, StringTag(s), s, [])
    else
      var tag := PrimitiveTag(s);
      Marshal(name, tag, if tag == INT || tag == FLOAT then s else [], [])
  }

  predicate AllHaveText(data: string, toks: seq<Token>) {
    forall i | 0 <= i < |toks| :: HasText(data, toks[i]) && (i > 0 ==> 0 < toks[i].start)
  }

  function Decode(data: string, name: string): Decoded
    decreases |data|, 1, 0
  {
    match Parse(data, |data|)
    case Error(e) => if e == OUTSIDE then Broken else NoObject
    case Tokens(toks) =>
      if toks == [] then NoObject
      else
        ParseSpanned(data, |data|);
        match toks[0].kind
        case ARRAY => DecodeList(data, toks, 1, Marshal(name, LIST, [], []))
        case OBJECT => DecodeMap(data, toks, 1, Marshal(name, MAP, [], []), NoKey)
        case _ => Object(Marshal(name, NULL, [], []))
  }

  function Add(obj: Marshal, kid: Marshal): Marshal {
    obj.(kids := obj.kids + [kid])
  }

  /** The elements of an array from token i on. */
  function DecodeList(data: string, toks: seq<Token>, i: nat, obj: Marshal): Decoded
    requires 1 <= i && AllHaveText(data, toks)
    decreases |data|, 0, |toks| - i
  {
    if i >= |toks| then Object(obj)
    else
      var t := toks[i];
      if t.kind == PRIMITIVE || t.kind == STRING then DecodeList(data, toks, i + 1, Add(obj, LeafOf([], data, t)))
      else
        match Decode(Text(data, t), [])
        case Object(kid) => if Below(toks, i) < 0 then Broken else DecodeList(data, toks, i + 1 + Below(toks, i), Add(obj, kid))
        case _ => Broken
  }

  datatype Pending = NoKey | Key(name: string)

  /** The members of an object from token i on; the key of the next one may have
      been read already. */
  function DecodeMap(data: string, toks: seq<Token>, i: nat, obj: Marshal, key: Pending): Decoded
    requires 1 <= i && AllHaveText(data, toks)
    decreases |data|, 0, |toks| - i
  {
    if i >= |toks| then Object(obj)
    else
      var t := toks[i];
      if t.kind == STRING && key.NoKey? then DecodeMap(data, toks, i + 1, obj, Key(Text(data, t)))
      else if key.NoKey? then Broken
      else if t.kind == PRIMITIVE || t.kind == STRING then
        DecodeMap(data, toks, i + 1, Add(obj, LeafOf(key.name, data, t)), NoKey)
      else
        match Decode(Text(data, t), key.name)
        case Object(kid) =>
          if Below(toks, i) < 0 then Broken else DecodeMap(data, toks, i + 1 + Below(toks, i), Add(obj, kid), NoKey)
        case _ => Broken
  }

  // ----- decoding what was printed -----

  /** The piece of text a leaf token stands for is the leaf. */
  lemma LeafIs(data: string, at: nat, kid: Marshal, t: Token)
    requires Printable(kid) && !IsContainer(kid) && At(data, at, Body(kid)) && Toks(kid, at) == [t]
    ensures HasText(data, t) && LeafOf(kid.name, data, t) == kid && (t.kind == PRIMITIVE || t.kind == STRING)
  {
    hide QuidText, FloatText, Clean, PrimitiveText;
    var b := Body(kid);
    if IsPrimitive(kid) {
      assert Text(data, t) == b;
      PrimitiveLeaf(kid);
    } else {
      CleanUnescaped(kid.data);
      assert b == "\"" + (kid.data + "\"");
      QuotedText(data, at, kid.data);
      assert t == Token(STRING, at + 1, at + 1 + |kid.data|, 0);
    }
  }

  lemma PrimitiveLeaf(kid: Marshal)
    requires Printable(kid) && IsPrimitive(kid)
    ensures var tag := PrimitiveTag(Body(kid));
      Marshal(kid.name, tag, if tag == INT || tag == FLOAT then Body(kid) else [], []) == kid
  {
    hide QuidText, FloatText, Clean, PrimitiveText;
  }

  lemma QuotedText(data: string, at: nat, s: string)
    requires At(data, at, "\"" + (s + "\""))
    ensures at + 1 + |s| <= |data| && data[at + 1..at + 1 + |s|] == s
  {
    AtSplit(data, at, "\"", s + "\"");
    AtSplit(data, at + 1, s, "\"");
  }

  lemma LeafToks(kid: Marshal, at: nat)
    requires !IsContainer(kid)
    ensures |Toks(kid, at)| == 1 && Toks(kid, at) == [Toks(kid, at)[0]]
  {
  }

  lemma ContainerTok(kid: Marshal, at: nat)
    requires IsContainer(kid)
    ensures Toks(kid, at)[0] == Token(KindOf(kid), at, at + |Body(kid)|, |kid.kids|)
  {
  }

  /** A tree can be printed and decoded again under the same name. */
  lemma {:induction false} RoundTrip(m: Marshal)
    requires Printable(m) && IsContainer(m)
    ensures Decode(Body(m), m.name) == Object(m)
    decreases m, 1
  {
    hide Printable, Toks, Body, Parse, DecodeList, DecodeMap, KidToks, At, TokensAt, Joined, AllHaveText;
    var data, toks := Body(m), Toks(m, 0);
    ParsePrinted(m);
    ParseHasText(data);
    ContainerTok(m, 0);
    PrintableKids(m);
    WholeText(m);
    DecodeStart(m);
    var obj := Marshal(m.name, m.tag, [], []);
    if m.tag == LIST {
      DecodeKids(data, toks, 1, 1, obj, m.kids);
    } else {
      DecodeEntries(data, toks, 1, 1, obj, m.kids);
    }
    TreeIs(m);
  }

  lemma ParseHasText(data: string)
    requires Parse(data, |data|).Tokens?
    ensures AllHaveText(data, Parse(data, |data|).toks)
  {
    ParseSpanned(data, |data|);
  }

  lemma WholeText(m: Marshal)
    requires Printable(m) && IsContainer(m)
    ensures At(Body(m), 1, Joined(m.kids)) && TokensAt(Toks(m, 0), 1, KidToks(m.kids, 1))
    ensures |Toks(m, 0)| == 1 + |KidToks(m.kids, 1)|
  {
    ContainerBody(m);
    assert Body(m)[0..|Body(m)|] == Body(m);
    ContainerText(Body(m), 0, m);
    assert Toks(m, 0)[1..] == KidToks(m.kids, 1);
  }

  lemma DecodeStart(m: Marshal)
    requires Printable(m) && IsContainer(m) && Parse(Body(m), |Body(m)|) == Tokens(Toks(m, 0))
    requires AllHaveText(Body(m), Toks(m, 0))
    ensures var obj := Marshal(m.name, m.tag, [], []);
      Decode(Body(m), m.name) ==
        if m.tag == LIST then DecodeList(Body(m), Toks(m, 0), 1, obj) else DecodeMap(Body(m), Toks(m, 0), 1, obj, NoKey)
  {
    ContainerTok(m, 0);
    hide Parse, Body, Printable, DecodeList, DecodeMap;
  }

  lemma TreeIs(m: Marshal)
    requires Printable(m) && IsContainer(m)
    ensures Marshal(m.name, m.tag, [], [] + m.kids) == m
  {
  }

  /** The elements of a printed array. */
  lemma {:induction false} DecodeKids(data: string, toks: seq<Token>, i: nat, at: nat, obj: Marshal, kids: seq<Marshal>)
    requires kids != [] && 1 <= i && AllHaveText(data, toks) && At(data, at, Joined(kids))
    requires TokensAt(toks, i, KidToks(kids, at)) && i + |KidToks(kids, at)| == |toks|
    requires forall j | 0 <= j < |kids| :: Printable(kids[j]) && kids[j].name == []
    ensures DecodeList(data, toks, i, obj) == Object(obj.(kids := obj.kids + kids))
    decreases kids, 2
  {
    hide Printable, Toks, Body, Print, DecodeList, KidToks, Joined, AllHaveText, TokensAt, At, NameToks, Add, Prefix;
    KidToksUnfolded(kids, at);
    var kid, rest := kids[0], kids[1..];
    var key, value := NameToks(kid.name, at, 1), Toks(kid, at + |Prefix(kid.name)|);
    var next := at + |Print(kid)| + 1;
    var after := KidToks(rest, next);
    JoinedFirst(kids);
    TokensSplit(toks, i, key, value + after);
    TokensSplit(toks, i + |key|, value, after);
    AtSplit(data, at, Print(kid), CommaJoined(rest));
    DecodeElement(data, toks, i, at, obj, kid);
    if rest == [] {
      KidToksUnfolded(rest, next);
      DecodeListEnd(data, toks, i + |key| + |value|, Add(obj, kid));
      AddAll(obj, kids);
    } else {
      AtSplit(data, at + |Print(kid)|, ",", Joined(rest));
      DecodeKids(data, toks, i + |key| + |value|, next, Add(obj, kid), rest);
      AddAll(obj, kids);
    }
  }

  /** The members of a printed object. */
  lemma {:induction false} DecodeEntries(data: string, toks: seq<Token>, i: nat, at: nat, obj: Marshal, kids: seq<Marshal>)
    requires kids != [] && 1 <= i && AllHaveText(data, toks) && At(data, at, Joined(kids))
    requires TokensAt(toks, i, KidToks(kids, at)) && i + |KidToks(kids, at)| == |toks|
    requires forall j | 0 <= j < |kids| :: Printable(kids[j]) && kids[j].name != []
    ensures DecodeMap(data, toks, i, obj, NoKey) == Object(obj.(kids := obj.kids + kids))
    decreases kids, 2
  {
    hide Printable, Toks, Body, Print, DecodeMap, KidToks, Joined, AllHaveText, TokensAt, At, NameToks, Add, Prefix;
    KidToksUnfolded(kids, at);
    var kid, rest := kids[0], kids[1..];
    var key, value := NameToks(kid.name, at, 1), Toks(kid, at + |Prefix(kid.name)|);
    var next := at + |Print(kid)| + 1;
    var after := KidToks(rest, next);
    JoinedFirst(kids);
    TokensSplit(toks, i, key, value + after);
    TokensSplit(toks, i + |key|, value, after);
    AtSplit(data, at, Print(kid), CommaJoined(rest));
    DecodeEntry(data, toks, i, at, obj, kid);
    if rest == [] {
      KidToksUnfolded(rest, next);
      DecodeMapEnd(data, toks, i + |key| + |value|, Add(obj, kid));
      AddAll(obj, kids);
    } else {
      AtSplit(data, at + |Print(kid)|, ",", Joined(rest));
      DecodeEntries(data, toks, i + |key| + |value|, next, Add(obj, kid), rest);
      AddAll(obj, kids);
    }
  }

  lemma {:induction false} DecodeElement(data: string, toks: seq<Token>, i: nat, at: nat, obj: Marshal, kid: Marshal)
    requires 1 <= i && AllHaveText(data, toks) && Printable(kid) && kid.name == [] && At(data, at, Print(kid))
    requires TokensAt(toks, i + |NameToks(kid.name, at, 1)|, Toks(kid, at + |Prefix(kid.name)|))
    ensures DecodeList(data, toks, i, obj)
         == DecodeList(data, toks, i + |NameToks(kid.name, at, 1)| + |Toks(kid, at + |Prefix(kid.name)|)|, Add(obj, kid))
    decreases kid, 3
  {
    hide Printable, Toks, Body, Print, DecodeList, DecodeMap, Decode, TokensAt, At, LevelCount, Skip, LeafOf;
    Unnamed(kid, at);
    TokenAt(toks, i, Toks(kid, at));
    if IsContainer(kid) {
      RoundTrip(kid);
      ContainerAt(data, toks, i, at, kid);
      ListContainer(data, toks, i, obj, kid);
    } else {
      LeafToks(kid, at);
      LeafIs(data, at, kid, toks[i]);
      ListLeaf(data, toks, i, obj);
    }
  }

  /** A nested container among the tokens: its text, and how many tokens to skip. */
  lemma ContainerAt(data: string, toks: seq<Token>, i: nat, at: nat, kid: Marshal)
    requires Printable(kid) && IsContainer(kid) && At(data, at, Body(kid)) && TokensAt(toks, i, Toks(kid, at)) && i < |toks|
    ensures HasText(data, toks[i]) && Text(data, toks[i]) == Body(kid) && toks[i].kind == KindOf(kid)
    ensures |Toks(kid, at)| == 1 + Below(toks, i) && 0 <= Below(toks, i)
  {
    hide Printable, Toks, Body, LevelCount, Skip, TokensAt;
    TokenAt(toks, i, Toks(kid, at));
    ContainerTok(kid, at);
    LevelCountIs(toks, i, kid, at);
    LevelBelow(toks, i);
  }

  lemma LevelBelow(toks: seq<Token>, i: nat)
    requires i < |toks| && (toks[i].kind == ARRAY || toks[i].kind == OBJECT) && 0 <= LevelCount(toks, i)
    ensures LevelCount(toks, i) == 1 + Below(toks, i) && 0 <= Below(toks, i)
  {
  }

  lemma ListContainer(data: string, toks: seq<Token>, i: nat, obj: Marshal, kid: Marshal)
    requires 1 <= i < |toks| && AllHaveText(data, toks) && IsContainer(kid) && toks[i].kind == KindOf(kid)
    requires Decode(Text(data, toks[i]), []) == Object(kid) && 0 <= Below(toks, i)
    ensures DecodeList(data, toks, i, obj) == DecodeList(data, toks, i + 1 + Below(toks, i), Add(obj, kid))
  {
    hide Decode, DecodeMap, Below, LeafOf;
  }

  lemma ListLeaf(data: string, toks: seq<Token>, i: nat, obj: Marshal)
    requires 1 <= i < |toks| && AllHaveText(data, toks) && (toks[i].kind == PRIMITIVE || toks[i].kind == STRING)
    ensures DecodeList(data, toks, i, obj) == DecodeList(data, toks, i + 1, Add(obj, LeafOf([], data, toks[i])))
  {
    hide Decode, DecodeMap, Below, LeafOf;
  }

  lemma {:induction false} DecodeEntry(data: string, toks: seq<Token>, i: nat, at: nat, obj: Marshal, kid: Marshal)
    requires 1 <= i && AllHaveText(data, toks) && Printable(kid) && kid.name != [] && At(data, at, Print(kid))
    requires TokensAt(toks, i, NameToks(kid.name, at, 1))
    requires TokensAt(toks, i + |NameToks(kid.name, at, 1)|, Toks(kid, at + |Prefix(kid.name)|))
    ensures DecodeMap(data, toks, i, obj, NoKey)
         == DecodeMap(data, toks, i + |NameToks(kid.name, at, 1)| + |Toks(kid, at + |Prefix(kid.name)|)|, Add(obj, kid), NoKey)
    decreases kid, 3
  {
    hide Printable, Toks, Body, Print, DecodeList, DecodeMap, Decode, TokensAt, At, LevelCount, Skip, LeafOf;
    var q := at + |Prefix(kid.name)|;
    EntryText(data, at, kid);
    KeyTok(data, toks, i, at, kid.name);
    MapKey(data, toks, i, obj);
    TokenAt(toks, i + 1, Toks(kid, q));
    if IsContainer(kid) {
      RoundTrip(kid);
      ContainerAt(data, toks, i + 1, q, kid);
      MapContainer(data, toks, i + 1, obj, kid);
    } else {
      LeafToks(kid, q);
      LeafIs(data, q, kid, toks[i + 1]);
      MapLeaf(data, toks, i + 1, obj, kid.name);
    }
  }

  lemma KeyTok(data: string, toks: seq<Token>, i: nat, at: nat, name: string)
    requires name != [] && TokensAt(toks, i, NameToks(name, at, 1)) && At(data, at, "\"" + (name + "\""))
    ensures |NameToks(name, at, 1)| == 1 && i < |toks| && toks[i].kind == STRING
    ensures HasText(data, toks[i]) && Text(data, toks[i]) == name
  {
    TokenAt(toks, i, NameToks(name, at, 1));
    AtSplit(data, at, "\"", name + "\"");
    AtSplit(data, at + 1, name, "\"");
  }

  lemma MapKey(data: string, toks: seq<Token>, i: nat, obj: Marshal)
    requires 1 <= i < |toks| && AllHaveText(data, toks) && toks[i].kind == STRING
    ensures DecodeMap(data, toks, i, obj, NoKey) == DecodeMap(data, toks, i + 1, obj, Key(Text(data, toks[i])))
  {
    hide Decode, DecodeList, Below, LeafOf;
  }

  lemma MapContainer(data: string, toks: seq<Token>, i: nat, obj: Marshal, kid: Marshal)
    requires 1 <= i < |toks| && AllHaveText(data, toks) && IsContainer(kid) && toks[i].kind == KindOf(kid)
    requires Decode(Text(data, toks[i]), kid.name) == Object(kid) && 0 <= Below(toks, i)
    ensures DecodeMap(data, toks, i, obj, Key(kid.name)) == DecodeMap(data, toks, i + 1 + Below(toks, i), Add(obj, kid), NoKey)
  {
    hide Decode, DecodeList, Below, LeafOf;
  }

  lemma MapLeaf(data: string, toks: seq<Token>, i: nat, obj: Marshal, name: string)
    requires 1 <= i < |toks| && AllHaveText(data, toks) && (toks[i].kind == PRIMITIVE || toks[i].kind == STRING)
    ensures DecodeMap(data, toks, i, obj, Key(name)) == DecodeMap(data, toks, i + 1, Add(obj, LeafOf(name, data, toks[i])), NoKey)
  {
    hide Decode, DecodeList, Below, LeafOf;
  }

  lemma AddAll(obj: Marshal, kids: seq<Marshal>)
    requires kids != []
    ensures Add(obj, kids[0]).(kids := Add(obj, kids[0]).kids + kids[1..]) == obj.(kids := obj.kids + kids)
    ensures kids[1..] == [] ==> Add(obj, kids[0]) == obj.(kids := obj.kids + kids)
  {
    assert obj.kids + [kids[0]] + kids[1..] == obj.kids + kids;
    assert kids[1..] == [] ==> obj.kids + [kids[0]] == obj.kids + kids;
  }

  lemma Unnamed(kid: Marshal, at: nat)
    requires kid.name == []
    ensures Print(kid) == Body(kid) && NameToks(kid.name, at, 1) == [] && |Prefix(kid.name)| == 0
  {
    hide Body;
    assert [] + Body(kid) == Body(kid);
  }

  lemma DecodeListEnd(data: string, toks: seq<Token>, i: nat, obj: Marshal)
    requires 1 <= i && AllHaveText(data, toks) && i == |toks|
    ensures DecodeList(data, toks, i, obj) == Object(obj)
  {
  }

  lemma DecodeMapEnd(data: string, toks: seq<Token>, i: nat, obj: Marshal)
    requires 1 <= i && AllHaveText(data, toks) && i == |toks|
    ensures DecodeMap(data, toks, i, obj, NoKey) == Object(obj)
  {
  }

  /** The law of the printer and the decoder: every printable tree comes back. */
  lemma PrintedComesBack(m: Marshal)
    requires Printable(m) && IsContainer(m) && m.name == []
    ensures Decode(Print(m), []) == Object(m)
  {
    hide Printable, Body, Decode;
    RoundTrip(m);
    Unnamed(m, 0);
  }

  // ----- the decoder itself -----

  /** marshall_dict_decode. */
  method MarshallDecode(data: string, name: string) returns (r: Decoded)
    ensures r == Decode(data, name)
    decreases |data|, 1
  {
    hide LeafOf, Skip, LevelCount, Parse, Run;
    var toks, failed := Tokenize(data);
    if failed.Error? {
      return if failed.error == OUTSIDE then Broken else NoObject;
    }
    if toks == [] {
      return NoObject;
    }
    ParseHasText(data);
    match toks[0].kind {
      case ARRAY => r := DecodeArray(data, name, toks);
      case OBJECT => r := DecodeObject(data, name, toks);
      case _ => r := Object(Marshal(name, NULL, [], []));
    }
  }

  /** dict_init and dict_parse, with as many tokens as characters. */
  method Tokenize(data: string) returns (toks: seq<Token>, o: Outcome)
    ensures o == Parse(data, |data|) && (o.Tokens? ==> toks == o.toks)
  {
    var tokens := new Token[|data|](_ => Token(PRIMITIVE, -1, -1, 0));
    var p := new Parser(tokens);
    var c := p.Parse(data);
    if c.Fails? {
      return [], Error(c.error);
    }
    toks := tokens[..c.n];
    o := Tokens(toks);
  }

  method DecodeArray(data: string, name: string, toks: seq<Token>) returns (r: Decoded)
    requires toks != [] && AllHaveText(data, toks)
    ensures r == DecodeList(data, toks, 1, Marshal(name, LIST, [], []))
    decreases |data|, 0
  {
    hide LeafOf, Skip, Decode, Below;
    var obj, i := Marshal(name, LIST, [], []), 1;
    while i < |toks|
      invariant 1 <= i
      invariant DecodeList(data, toks, i, obj) == DecodeList(data, toks, 1, Marshal(name, LIST, [], []))
      decreases |toks| - i
    {
      var t := toks[i];
      if t.kind == PRIMITIVE || t.kind == STRING {
        obj := Add(obj, LeafOf([], data, t));
        i := i + 1;
      } else {
        var kid := MarshallDecode(Text(data, t), []);
        var below := Below(toks, i);
        if !kid.Object? || below < 0 {
          return Broken;
        }
        obj := Add(obj, kid.m);
        i := i + 1 + below;
      }
    }
    r := Object(obj);
  }

  method DecodeObject(data: string, name: string, toks: seq<Token>) returns (r: Decoded)
    requires toks != [] && AllHaveText(data, toks)
    ensures r == DecodeMap(data, toks, 1, Marshal(name, MAP, [], []), NoKey)
    decreases |data|, 0
  {
    hide LeafOf, Skip, Decode, Below;
    var obj, i, key := Marshal(name, MAP, [], []), 1, NoKey;
    while i < |toks|
      invariant 1 <= i
      invariant DecodeMap(data, toks, i, obj, key) == DecodeMap(data, toks, 1, Marshal(name, MAP, [], []), NoKey)
      decreases |toks| - i
    {
      var t := toks[i];
      if t.kind == STRING && key.NoKey? {
        key := Key(Text(data, t));
        i := i + 1;
      } else if key.NoKey? {
        return Broken;
      } else if t.kind == PRIMITIVE || t.kind == STRING {
        obj := Add(obj, LeafOf(key.name, data, t));
        key := NoKey;
        i := i + 1;
      } else {
        var kid := MarshallDecode(Text(data, t), key.name);
        var below := Below(toks, i);
        if !kid.Object? || below < 0 {
          return Broken;
        }
        obj := Add(obj, kid.m);
        key := NoKey;
        i := i + 1 + below;
      }
    }
    r := Object(obj);
  }

  /** Printing a tree and decoding the text. */
  method PrintAndDecode(m: Marshal) returns (r: Decoded)
    requires Printable(m) && IsContainer(m) && m.name == []
    ensures r == Object(m)
  {
    hide Printable, Print, Decode;
    PrintedComesBack(m);
    var text := Serialize(m);
    r := MarshallDecode(text, []);
  }
}

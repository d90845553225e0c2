/**
 * Tokenizing the texts of the grammar: the tokens of a derivation are its values
 * in pre-order, each with its span and its number of direct children, wherever
 * the text has blanks.
 */
module DictDerived {
  import opened Dict
  import opened DictPrinted
  import G = JsonGrammar

  // ----- the tokens of a derivation -----

  predicate Bracketed(v: G.Value) {
    v.Array? || v.Object?
  }

  function ValueToks(v: G.Value, at: nat): (r: seq<Token>)
    ensures |r| > 0
    decreases v, 1
  {
    var end := at + |G.Text(v)|;
    match v
    case Word(_) => [Token(PRIMITIVE, at, end, 0)]
    case Num(_) => [Token(PRIMITIVE, at, end, 0)]
    case Str(_) => [Token(STRING, at + 1, end - 1, 0)]
    case Array(_, es) => [Token(ARRAY, at, end, |es|)] + ElementToks(es, at + 1)
    case Object(_, ms) => [Token(OBJECT, at, end, |ms|)] + MemberToks(ms, at + 1)
  }

  function ElementToks(es: seq<G.Element>, at: nat): seq<Token>
    decreases es, 2
  {
    if es == [] then []
    else
      var rest, e := es[..|es| - 1], es[|es| - 1];
      ElementToks(rest, at) + ValueToks(e.value, at + |G.Elements(rest)| + |e.before|)
  }

  /** A key has its value as its only child. */
  function MemberKey(m: G.Member, at: nat, size: int): Token {
    Token(STRING, at + |m.before| + 1, at + |m.before| + |m.key| - 1, size)
  }

  /** Where the value of a member begins. */
  function ValueAt(m: G.Member, at: nat): nat {
    at + |m.before| + |m.key| + |m.gap| + 1 + |m.element.before|
  }

  function MemberToks(ms: seq<G.Member>, at: nat): seq<Token>
    decreases ms, 2
  {
    if ms == [] then []
    else
      var rest, m := ms[..|ms| - 1], ms[|ms| - 1];
      var q := at + |G.Members(rest)|;
      MemberToks(rest, at) + [MemberKey(m, q, 1)] + ValueToks(m.element.value, ValueAt(m, q))
  }

  predicate EachElement(es: seq<G.Element>, room: int) {
    forall i | 0 <= i < |es| :: G.ElementOk(es[i], room)
  }

  predicate EachMember(ms: seq<G.Member>, room: int) {
    forall i | 0 <= i < |ms| :: G.MemberOk(ms[i], room)
  }

  lemma ValueParts(v: G.Value, room: int)
    requires G.ValueOk(v, room)
    ensures v.Array? ==> EachElement(v.elements, room - 1)
    ensures v.Object? ==> EachMember(v.members, room - 1)
  {
  }

  lemma LastElement(es: seq<G.Element>, room: int)
    requires es != [] && EachElement(es, room)
    ensures EachElement(es[..|es| - 1], room) && G.ElementOk(es[|es| - 1], room) && G.ValueOk(es[|es| - 1].value, room)
  {
    assert G.ElementOk(es[|es| - 1], room);
  }

  lemma LastMember(ms: seq<G.Member>, room: int)
    requires ms != [] && EachMember(ms, room)
    ensures EachMember(ms[..|ms| - 1], room) && G.MemberOk(ms[|ms| - 1], room) && G.ValueOk(ms[|ms| - 1].element.value, room)
    ensures |ms[|ms| - 1].key| >= 2
  {
    assert G.MemberOk(ms[|ms| - 1], room) && G.ElementOk(ms[|ms| - 1].element, room);
  }

  lemma QuotedLong(s: string)
    requires G.Quoted(s)
    ensures |s| >= 2
  {
  }

  lemma {:induction false} ToksClosed(v: G.Value, room: int, at: nat)
    requires G.ValueOk(v, room)
    ensures Closed(ValueToks(v, at))
    decreases v, 1
  {
    ValueParts(v, room);
    if v.Array? {
      ElementToksClosed(v.elements, room - 1, at + 1);
    } else if v.Object? {
      MemberToksClosed(v.members, room - 1, at + 1);
    }
  }

  lemma {:induction false} ElementToksClosed(es: seq<G.Element>, room: int, at: nat)
    requires EachElement(es, room)
    ensures Closed(ElementToks(es, at))
    decreases es, 2
  {
    hide EachElement, G.ElementOk;
    if es != [] {
      LastElement(es, room);
      var rest, e := es[..|es| - 1], es[|es| - 1];
      ElementToksClosed(rest, room, at);
      ToksClosed(e.value, room, at + |G.Elements(rest)| + |e.before|);
    }
  }

  lemma {:induction false} MemberToksClosed(ms: seq<G.Member>, room: int, at: nat)
    requires EachMember(ms, room)
    ensures Closed(MemberToks(ms, at))
    decreases ms, 2
  {
    hide EachMember, G.MemberOk;
    if ms != [] {
      LastMember(ms, room);
      var rest, m := ms[..|ms| - 1], ms[|ms| - 1];
      MemberToksClosed(rest, room, at);
      ToksClosed(m.element.value, room, ValueAt(m, at + |G.Members(rest)|));
    }
  }

  /** There is room for the tokens: no more of them than characters. */
  lemma {:induction false} ToksFit(v: G.Value, room: int, at: nat)
    requires G.ValueOk(v, room)
    ensures |ValueToks(v, at)| <= |G.Text(v)|
    decreases v, 1
  {
    ValueParts(v, room);
    if v.Array? {
      ElementToksFit(v.elements, room - 1, at + 1);
    } else if v.Object? {
      MemberToksFit(v.members, room - 1, at + 1);
    }
  }

  lemma {:induction false} ElementToksFit(es: seq<G.Element>, room: int, at: nat)
    requires EachElement(es, room)
    ensures |ElementToks(es, at)| <= |Listed(es)|
    decreases es, 2
  {
    hide ValueToks, G.Text;
    hide EachElement, G.ElementOk;
    if es != [] {
      LastElement(es, room);
      var rest, e := es[..|es| - 1], es[|es| - 1];
      ElementToksFit(rest, room, at);
      ElementsListed(rest);
      ToksFit(e.value, room, at + |G.Elements(rest)| + |e.before|);
    }
  }

  lemma {:induction false} MemberToksFit(ms: seq<G.Member>, room: int, at: nat)
    requires EachMember(ms, room)
    ensures |MemberToks(ms, at)| <= |ListedMembers(ms)|
    decreases ms, 2
  {
    hide ValueToks, G.Text;
    hide EachMember, G.MemberOk;
    if ms != [] {
      LastMember(ms, room);
      var rest, m := ms[..|ms| - 1], ms[|ms| - 1];
      MemberToksFit(rest, room, at);
      MembersListed(rest);
      MemberLength(m);
      ToksFit(m.element.value, room, ValueAt(m, at + |G.Members(rest)|));
    }
  }

  lemma MemberLength(m: G.Member)
    ensures |G.MemberText(m)| >= |m.key| + 1 + |G.Text(m.element.value)|
  {
    hide G.Text;
    assert |G.ElementText(m.element)| >= |G.Text(m.element.value)|;
  }

  // ----- the text inside the brackets -----

  function Listed(es: seq<G.Element>): string {
    if es == [] then [] else G.Elements(es[..|es| - 1]) + G.ElementText(es[|es| - 1])
  }

  function ListedMembers(ms: seq<G.Member>): string {
    if ms == [] then [] else G.Members(ms[..|ms| - 1]) + G.MemberText(ms[|ms| - 1])
  }

  lemma ElementsListed(es: seq<G.Element>)
    ensures G.Elements(es) == if es == [] then [] else Listed(es) + ","
  {
    hide G.ElementText;
  }

  lemma MembersListed(ms: seq<G.Member>)
    ensures G.Members(ms) == if ms == [] then [] else ListedMembers(ms) + ","
  {
    hide G.MemberText;
  }

  // ----- leaves -----

  lemma {:induction false} SkipBlanks(str: string, pos: nat, w: string, st: State, limit: nat)
    requires st.Ok() && At(str, pos, w) && G.Spaces(w)
    ensures Run(str, pos, st, limit) == Run(str, pos + |w|, st, limit)
    decreases |w|
  {
    if w != [] {
      AtTail(str, pos, w);
      RunGo(str, pos, st, limit, pos + 1, st);
      SkipBlanks(str, pos + 1, w[1..], st, limit);
    }
  }

  lemma {:induction false} ScansChars(str: string, at: nat, s: string)
    requires At(str, at, s) && at + |s| < |str| && str[at + |s|] == '"' && G.Chars(s)
    ensures ScanString(str, at) == Found(at + |s|)
    decreases |s|
  {
    if s != [] {
      AtTail(str, at, s);
      if G.Plain(s[0]) && G.Chars(s[1..]) {
        ScansChars(str, at + 1, s[1..]);
      } else if |s| >= 2 && s[0] == '\\' && G.Escape(s[1]) && G.Chars(s[2..]) {
        AtTail(str, at + 1, s[1..]);
        assert s[1..][1..] == s[2..];
        ScansChars(str, at + 2, s[2..]);
      } else {
        assert s == s[..6] + s[6..];
        AtSplit(str, at, s[..6], s[6..]);
        HexScanned(str, at, s[..6]);
        ScansChars(str, at + 6, s[6..]);
      }
    }
  }

  lemma HexScanned(str: string, at: nat, s: string)
    requires At(str, at, s) && G.Unicode(s)
    ensures str[at] == '\\' && str[at + 1] == 'u' && ScanHex(str, at + 2, 4) == Found(at + 6)
  {
    AtChar(str, at, s, 0);
    AtChar(str, at, s, 1);
    AtChar(str, at, s, 2);
    AtChar(str, at, s, 3);
    AtChar(str, at, s, 4);
    AtChar(str, at, s, 5);
    assert ScanHex(str, at + 6, 0) == Found(at + 6);
    assert ScanHex(str, at + 5, 1) == Found(at + 6);
    assert ScanHex(str, at + 4, 2) == Found(at + 6);
    assert ScanHex(str, at + 3, 3) == Found(at + 6);
  }

  lemma WordPrimitive(text: string)
    requires text == "true" || text == "false" || text == "null"
    ensures PrimitiveText(text)
  {
  }

  predicate NumberChars(s: string) {
    forall i | 0 <= i < |s| :: G.Numeral(s[i]) || s[i] == '-' || s[i] == '+' || s[i] == '.' || s[i] == 'e' || s[i] == 'E'
  }

  lemma NumberPrimitive(n: G.Number)
    requires G.NumberOk(n)
    ensures PrimitiveText(G.NumberText(n))
  {
    ExponentChars(n.exponent);
    assert NumberChars(n.whole) && NumberChars(n.fraction);
    var s := G.NumberText(n);
    assert NumberChars(s);
    assert n.whole != [] && (s[0] == '-' || s[0] == n.whole[0]);
  }

  lemma ExponentChars(s: string)
    requires s == [] || G.Exponent(s)
    ensures NumberChars(s)
  {
    forall i | 2 <= i < |s| ensures G.Numeral(s[i]) {
      if s[1] == '+' || s[1] == '-' {
        assert s[2..][i - 2] == s[i];
      } else {
        assert s[1..][i - 1] == s[i];
      }
    }
    assert |s| >= 2 && !(s[1] == '+' || s[1] == '-') ==> s[1..][0] == s[1];
  }

  // ----- one value -----

  /** The state after a value. */
  function After(st: State, v: G.Value, at: nat): State
    requires st.Ok()
  {
    var toks := Bump(st.toks, st.super);
    State(toks + ValueToks(v, at), if Bracketed(v) then Innermost(toks) else st.super)
  }

  predicate Ready(st: State, v: G.Value)
    requires st.Ok()
  {
    !Bracketed(v) ==> st.super != -1 && !Misplaced(st)
  }

  /** A primitive has to be followed by something that ends it. */
  predicate Ended(str: string, end: nat) {
    end < |str| && Delimiter(str[end])
  }

  lemma ParseLeaf(str: string, at: nat, v: G.Value, room: int, st: State, limit: nat)
    requires G.ValueOk(v, room) && !Bracketed(v) && st.Ok() && Ready(st, v) && |st.toks| < limit
    requires At(str, at, G.Text(v)) && Ended(str, at + |G.Text(v)|)
    ensures After(st, v, at).Ok() && Run(str, at, st, limit) == Run(str, at + |G.Text(v)|, After(st, v, at), limit)
  {
    hide Run, Bump, Innermost, G.Chars, G.NumberText, G.NumberOk;
    if v.Str? {
      ParseQuotedChars(str, at, v.text, st, limit);
    } else {
      if v.Word? {
        WordPrimitive(v.text);
      } else {
        NumberPrimitive(v.number);
      }
      AtChar(str, at, G.Text(v), 0);
      ScansPrimitive(str, at, G.Text(v));
      RunGo(str, at, st, limit, at + |G.Text(v)|, After(st, v, at));
    }
  }

  /** A string in quotes, as a value or as a key. */
  lemma ParseQuotedChars(str: string, at: nat, s: string, st: State, limit: nat)
    requires st.Ok() && |st.toks| < limit && G.Quoted(s) && At(str, at, s)
    ensures var st' := State(Bump(st.toks, st.super) + [Token(STRING, at + 1, at + |s| - 1, 0)], st.super);
      st'.Ok() && Run(str, at, st, limit) == Run(str, at + |s|, st', limit)
  {
    hide Run, G.Chars;
    var t := s[1..|s| - 1];
    assert s == "\"" + (t + "\"");
    AtChar(str, at, s, 0);
    AtSplit(str, at, "\"", t + "\"");
    AtSplit(str, at + 1, t, "\"");
    AtChar(str, at + 1 + |t|, "\"", 0);
    ScansChars(str, at + 1, t);
    RunGo(str, at, st, limit, at + |s|, State(Bump(st.toks, st.super) + [Token(STRING, at + 1, at + |s| - 1, 0)], st.super));
  }

  /** Tokenizing the text of a value, whatever surrounds it. */
  lemma {:induction false} ParseValue(str: string, at: nat, v: G.Value, room: int, st: State, limit: nat)
    requires G.ValueOk(v, room) && st.Ok() && Ready(st, v) && |st.toks| + |ValueToks(v, at)| <= limit
    requires At(str, at, G.Text(v)) && (!Bracketed(v) ==> Ended(str, at + |G.Text(v)|))
    ensures After(st, v, at).Ok() && Run(str, at, st, limit) == Run(str, at + |G.Text(v)|, After(st, v, at), limit)
    decreases v, 1
  {
    if v.Array? {
      ParseArray(str, at, v, room, st, limit);
    } else if v.Object? {
      ParseObject(str, at, v, room, st, limit);
    } else {
      ParseLeaf(str, at, v, room, st, limit);
    }
  }

  /** The text between two brackets. */
  lemma Between(str: string, at: nat, open: char, text: string, close: char)
    requires At(str, at, [open] + text + [close])
    ensures at < |str| && str[at] == open && At(str, at + 1, text)
    ensures at + 1 + |text| < |str| && str[at + 1 + |text|] == close
  {
    assert [open] + text + [close] == [open] + (text + [close]);
    AtSplit(str, at, [open], text + [close]);
    AtSplit(str, at + 1, text, [close]);
    AtChar(str, at, [open], 0);
    AtChar(str, at + 1 + |text|, [close], 0);
  }

  function InnerText(v: G.Value): string
    requires Bracketed(v)
  {
    match v
    case Array(pad, es) => if es == [] then pad else Listed(es)
    case Object(pad, ms) => if ms == [] then pad else ListedMembers(ms)
  }

  lemma BracketedText(v: G.Value)
    requires Bracketed(v)
    ensures G.Text(v) == (if v.Array? then "[" else "{") + InnerText(v) + (if v.Array? then "]" else "}")
  {
  }

  lemma {:induction false} ParseArray(str: string, at: nat, v: G.Value, room: int, st: State, limit: nat)
    requires G.ValueOk(v, room) && v.Array? && st.Ok() && |st.toks| + |ValueToks(v, at)| <= limit && At(str, at, G.Text(v))
    ensures After(st, v, at).Ok() && Run(str, at, st, limit) == Run(str, at + |G.Text(v)|, After(st, v, at), limit)
    decreases v, 0
  {
    hide Run, Innermost, Bump, At, Inside, ElementToks, G.Elements, G.ElementText, Listed, EachElement;
    var base, es, p := Bump(st.toks, st.super), v.elements, at + 1;
    BracketedText(v);
    ValueParts(v, room);
    Between(str, at, '[', InnerText(v), ']');
    OpenInside(str, at, ARRAY, st, limit);
    var done := ElementToks(es, p);
    if es == [] {
      SkipBlanks(str, p, v.pad, State(Inside(base, ARRAY, at, 0, []), |base|), limit);
      NoElements(p);
    } else {
      ParseElements(str, p, base, at, es, room - 1, limit);
    }
    ElementToksClosed(es, room - 1, p);
    InsideSize(base, ARRAY, at, |es|, done);
    CloseInside(str, p + |InnerText(v)|, base, ARRAY, at, |es|, done, |base|, limit);
    Regroup(base, Token(ARRAY, at, at + |G.Text(v)|, |es|), done);
  }

  lemma Regroup(base: seq<Token>, t: Token, done: seq<Token>)
    ensures base + [t] + done == base + ([t] + done)
  {
  }

  lemma NoElements(at: nat)
    ensures ElementToks([], at) == [] && MemberToks([], at) == []
  {
  }

  /** The elements of an open array, and the commas between them. */
  lemma {:induction false} ParseElements(str: string, p: nat, base: seq<Token>, at: nat, es: seq<G.Element>, room: int, limit: nat)
    requires es != [] && EachElement(es, room) && At(str, p, Listed(es)) && Ended(str, p + |Listed(es)|)
    requires |base| + 1 + |ElementToks(es, p)| <= limit
    ensures Run(str, p, State(Inside(base, ARRAY, at, 0, []), |base|), limit)
         == Run(str, p + |Listed(es)|, State(Inside(base, ARRAY, at, |es|, ElementToks(es, p)), |base|), limit)
    decreases es, 2
  {
    hide Run, Innermost, Bump, At, Inside, ValueToks, G.ElementText, G.ElementOk, EachElement, AtMember;
    LastElement(es, room);
    var rest, e, n := es[..|es| - 1], es[|es| - 1], |es| - 1;
    ElementToksClosed(rest, room, p);
    AtSplit(str, p, G.Elements(rest), G.ElementText(e));
    ElementsBefore(str, p, base, at, rest, room, limit);
    ParseElement(str, p + |G.Elements(rest)|, base, at, e, room, n, ElementToks(rest, p), limit);
  }

  /** The elements before another one, each with its comma. */
  lemma {:induction false} ElementsBefore(str: string, p: nat, base: seq<Token>, at: nat, es: seq<G.Element>, room: int, limit: nat)
    requires EachElement(es, room) && At(str, p, G.Elements(es)) && |base| + 1 + |ElementToks(es, p)| <= limit
    ensures Run(str, p, State(Inside(base, ARRAY, at, 0, []), |base|), limit)
         == Run(str, p + |G.Elements(es)|, State(Inside(base, ARRAY, at, |es|, ElementToks(es, p)), |base|), limit)
    decreases es, 3
  {
    hide Run, Innermost, Bump, At, Inside, Listed, G.Elements, EachElement, AtMember, ElementToks;
    ElementsListed(es);
    NoElements(p);
    if es != [] {
      AtSplit(str, p, Listed(es), ",");
      AtChar(str, p + |Listed(es)|, ",", 0);
      ParseElements(str, p, base, at, es, room, limit);
      ElementToksClosed(es, room, p);
      AtContainer(base, ARRAY, at, |es|, ElementToks(es, p));
      CommaInside(str, p + |Listed(es)|, base, ARRAY, at, |es|, ElementToks(es, p), |base|, limit);
    }
  }

  lemma AtContainer(base: seq<Token>, kind: Kind, at: nat, n: int, done: seq<Token>)
    ensures AtMember(Inside(base, kind, at, n, done), |base|, |base|)
  {
  }

  lemma {:induction false} ParseElement(str: string, p: nat, base: seq<Token>, at: nat, e: G.Element, room: int,
                                        n: nat, done: seq<Token>, limit: nat)
    requires Closed(done) && G.ElementOk(e, room) && At(str, p, G.ElementText(e)) && Ended(str, p + |G.ElementText(e)|)
    requires |base| + 1 + |done| + |ValueToks(e.value, p + |e.before|)| <= limit
    ensures Run(str, p, State(Inside(base, ARRAY, at, n, done), |base|), limit)
         == Run(str, p + |G.ElementText(e)|, State(Inside(base, ARRAY, at, n + 1, done + ValueToks(e.value, p + |e.before|)), |base|), limit)
    decreases e, 2
  {
    hide Run, Innermost, ValueToks, G.Text;
    var st, q := State(Inside(base, ARRAY, at, n, done), |base|), p + |e.before|;
    var toks := ValueToks(e.value, q);
    ElementParts(str, p, e);
    SkipBlanks(str, p, e.before, st, limit);
    ParseValue(str, q, e.value, room, st, limit);
    BumpInside(base, ARRAY, at, n, done, toks);
    BumpInside(base, ARRAY, at, n, done, []);
    assert done + [] == done && Bump(st.toks, |base|) + [] == Bump(st.toks, |base|);
    InnermostInside(base, ARRAY, at, n + 1, done);
    SkipBlanks(str, q + |G.Text(e.value)|, e.after, State(Inside(base, ARRAY, at, n + 1, done + toks), |base|), limit);
  }

  /** What the text of an element is made of; blanks end a primitive, too. */
  lemma ElementParts(str: string, p: nat, e: G.Element)
    requires G.Spaces(e.after) && At(str, p, G.ElementText(e)) && Ended(str, p + |G.ElementText(e)|)
    ensures At(str, p, e.before) && At(str, p + |e.before|, G.Text(e.value))
    ensures At(str, p + |e.before| + |G.Text(e.value)|, e.after) && Ended(str, p + |e.before| + |G.Text(e.value)|)
    ensures |G.ElementText(e)| == |e.before| + |G.Text(e.value)| + |e.after|
  {
    hide G.Text;
    AtSplit(str, p, e.before + G.Text(e.value), e.after);
    AtSplit(str, p, e.before, G.Text(e.value));
    if e.after != [] {
      AtChar(str, p + |e.before| + |G.Text(e.value)|, e.after, 0);
    }
  }

  lemma {:induction false} ParseObject(str: string, at: nat, v: G.Value, room: int, st: State, limit: nat)
    requires G.ValueOk(v, room) && v.Object? && st.Ok() && |st.toks| + |ValueToks(v, at)| <= limit && At(str, at, G.Text(v))
    ensures After(st, v, at).Ok() && Run(str, at, st, limit) == Run(str, at + |G.Text(v)|, After(st, v, at), limit)
    decreases v, 0
  {
    hide Run, Innermost, Bump, At, Inside, MemberToks, G.Members, G.MemberText, ListedMembers, EachMember, AtMember;
    var base, ms, p := Bump(st.toks, st.super), v.members, at + 1;
    BracketedText(v);
    ValueParts(v, room);
    Between(str, at, '{', InnerText(v), '}');
    OpenInside(str, at, OBJECT, st, limit);
    var done, s := MemberToks(ms, p), |base|;
    if ms == [] {
      SkipBlanks(str, p, v.pad, State(Inside(base, OBJECT, at, 0, []), |base|), limit);
      NoElements(p);
      AtContainer(base, OBJECT, at, 0, []);
    } else {
      s := ParseMembers(str, p, base, at, ms, room - 1, limit);
    }
    MemberToksClosed(ms, room - 1, p);
    AtMemberOk(base, OBJECT, at, |ms|, done, s);
    CloseInside(str, p + |InnerText(v)|, base, OBJECT, at, |ms|, done, s, limit);
    Regroup(base, Token(OBJECT, at, at + |G.Text(v)|, |ms|), done);
  }

  /** The members of an open object, and the commas between them. */
  lemma {:induction false} ParseMembers(str: string, p: nat, base: seq<Token>, at: nat, ms: seq<G.Member>, room: int, limit: nat)
    returns (s: int)
    requires ms != [] && EachMember(ms, room) && At(str, p, ListedMembers(ms)) && Ended(str, p + |ListedMembers(ms)|)
    requires |base| + 1 + |MemberToks(ms, p)| <= limit
    ensures var toks := Inside(base, OBJECT, at, |ms|, MemberToks(ms, p));
      && AtMember(toks, |base|, s)
      && Run(str, p, State(Inside(base, OBJECT, at, 0, []), |base|), limit) == Run(str, p + |ListedMembers(ms)|, State(toks, s), limit)
    decreases ms, 2
  {
    hide Run, Innermost, Bump, At, Inside, ValueToks, G.MemberText, G.MemberOk, AtMember, EachMember;
    LastMember(ms, room);
    var rest, m, n := ms[..|ms| - 1], ms[|ms| - 1], |ms| - 1;
    MemberToksClosed(rest, room, p);
    AtSplit(str, p, G.Members(rest), G.MemberText(m));
    MembersBefore(str, p, base, at, rest, room, limit);
    s := ParseMember(str, p + |G.Members(rest)|, base, at, m, room, n, MemberToks(rest, p), limit);
  }

  lemma {:induction false} MembersBefore(str: string, p: nat, base: seq<Token>, at: nat, ms: seq<G.Member>, room: int, limit: nat)
    requires EachMember(ms, room) && At(str, p, G.Members(ms)) && |base| + 1 + |MemberToks(ms, p)| <= limit
    ensures Run(str, p, State(Inside(base, OBJECT, at, 0, []), |base|), limit)
         == Run(str, p + |G.Members(ms)|, State(Inside(base, OBJECT, at, |ms|, MemberToks(ms, p)), |base|), limit)
    decreases ms, 3
  {
    hide Run, Innermost, Bump, At, Inside, ListedMembers, G.Members, EachMember, AtMember, MemberToks;
    MembersListed(ms);
    NoElements(p);
    if ms != [] {
      AtSplit(str, p, ListedMembers(ms), ",");
      AtChar(str, p + |ListedMembers(ms)|, ",", 0);
      var s := ParseMembers(str, p, base, at, ms, room, limit);
      MemberToksClosed(ms, room, p);
      CommaInside(str, p + |ListedMembers(ms)|, base, OBJECT, at, |ms|, MemberToks(ms, p), s, limit);
    }
  }

  lemma {:induction false} ParseMember(str: string, p: nat, base: seq<Token>, at: nat, m: G.Member, room: int,
                                       n: nat, done: seq<Token>, limit: nat)
    returns (s: int)
    requires Closed(done) && G.MemberOk(m, room) && At(str, p, G.MemberText(m)) && Ended(str, p + |G.MemberText(m)|)
    requires |base| + 2 + |done| + |ValueToks(m.element.value, ValueAt(m, p))| <= limit
    ensures var toks := Inside(base, OBJECT, at, n + 1, done + [MemberKey(m, p, 1)] + ValueToks(m.element.value, ValueAt(m, p)));
      && AtMember(toks, |base|, s)
      && Run(str, p, State(Inside(base, OBJECT, at, n, done), |base|), limit) == Run(str, p + |G.MemberText(m)|, State(toks, s), limit)
    decreases m, 2
  {
    hide Run, Innermost, ValueToks, G.Text, G.ElementText, Bump, At, Inside, G.Spaces, G.Quoted, AtMember;
    var e, q, k := m.element, ValueAt(m, p), |base| + 1 + |done|;
    MemberParts(str, p, m);
    ParseKey(str, p, base, at, m, n, done, limit);
    var st := State(Inside(base, OBJECT, at, n + 1, done + [MemberKey(m, p, 0)]), k);
    KeyReady(base, at, n + 1, done, m, p, e.value);
    ElementParts(str, q - |e.before|, e);
    SkipBlanks(str, q - |e.before|, e.before, st, limit);
    ParseValue(str, q, e.value, room, st, limit);
    QuotedLong(m.key);
    KeyAfter(base, at, n + 1, done, m, p);
    s := After(st, e.value, q).super;
    SkipBlanks(str, q + |G.Text(e.value)|, e.after, After(st, e.value, q), limit);
  }

  lemma MemberParts(str: string, p: nat, m: G.Member)
    requires At(str, p, G.MemberText(m))
    ensures At(str, p, m.before) && At(str, p + |m.before|, m.key) && At(str, p + |m.before| + |m.key|, m.gap)
    ensures At(str, p + |m.before| + |m.key| + |m.gap|, ":")
    ensures At(str, ValueAt(m, p) - |m.element.before|, G.ElementText(m.element))
    ensures |G.MemberText(m)| == |m.before| + |m.key| + |m.gap| + 1 + |G.ElementText(m.element)|
  {
    hide G.ElementText;
    var a, b := m.before + m.key + m.gap, G.ElementText(m.element);
    AtSplit(str, p, a + ":", b);
    AtSplit(str, p, a, ":");
    AtSplit(str, p, m.before + m.key, m.gap);
    AtSplit(str, p, m.before, m.key);
  }

  /** A key and the colon after it. */
  lemma ParseKey(str: string, p: nat, base: seq<Token>, at: nat, m: G.Member, n: nat, done: seq<Token>, limit: nat)
    requires G.Spaces(m.before) && G.Quoted(m.key) && G.Spaces(m.gap) && |base| + 1 + |done| < limit
    requires At(str, p, m.before) && At(str, p + |m.before|, m.key) && At(str, p + |m.before| + |m.key|, m.gap)
    requires At(str, p + |m.before| + |m.key| + |m.gap|, ":")
    ensures var toks := Inside(base, OBJECT, at, n + 1, done + [MemberKey(m, p, 0)]);
      Run(str, p, State(Inside(base, OBJECT, at, n, done), |base|), limit)
      == Run(str, p + |m.before| + |m.key| + |m.gap| + 1, State(toks, |base| + 1 + |done|), limit)
  {
    hide Run, G.Quoted, G.Spaces, Bump, At, Inside;
    var st, key := State(Inside(base, OBJECT, at, n, done), |base|), MemberKey(m, p, 0);
    var toks := Inside(base, OBJECT, at, n + 1, done + [key]);
    InsideSize(base, OBJECT, at, n, done);
    InsideSize(base, OBJECT, at, n + 1, done + [key]);
    SkipBlanks(str, p, m.before, st, limit);
    ParseQuotedChars(str, p + |m.before|, m.key, st, limit);
    BumpInside(base, OBJECT, at, n, done, [key]);
    SkipBlanks(str, p + |m.before| + |m.key|, m.gap, State(toks, |base|), limit);
    Colon(str, p + |m.before| + |m.key| + |m.gap|, State(toks, |base|), limit);
  }

  lemma KeyReady(base: seq<Token>, at: nat, n: int, done: seq<Token>, m: G.Member, p: nat, v: G.Value)
    ensures var toks, k := Inside(base, OBJECT, at, n, done + [MemberKey(m, p, 0)]), |base| + 1 + |done|;
      State(toks, k).Ok() && Ready(State(toks, k), v) && |toks| == |base| + 2 + |done|
  {
    var toks, k := Inside(base, OBJECT, at, n, done + [MemberKey(m, p, 0)]), |base| + 1 + |done|;
    assert toks[k] == MemberKey(m, p, 0);
  }

  lemma KeyAfter(base: seq<Token>, at: nat, n: int, done: seq<Token>, m: G.Member, p: nat)
    requires Closed(done) && |m.key| >= 2
    ensures var v, k, q := m.element.value, |base| + 1 + |done|, ValueAt(m, p);
      var st := State(Inside(base, OBJECT, at, n, done + [MemberKey(m, p, 0)]), k);
      && st.Ok() && After(st, v, q).toks == Inside(base, OBJECT, at, n, done + [MemberKey(m, p, 1)] + ValueToks(v, q))
      && AtMember(After(st, v, q).toks, |base|, After(st, v, q).super)
  {
    hide Innermost, ValueToks, G.Text;
    var v, k, q, key := m.element.value, |base| + 1 + |done|, ValueAt(m, p), [MemberKey(m, p, 1)];
    var st := State(Inside(base, OBJECT, at, n, done + [MemberKey(m, p, 0)]), k);
    BumpKey(base, OBJECT, at, n, done, key[0].start, key[0].end, ValueToks(v, q));
    BumpKey(base, OBJECT, at, n, done, key[0].start, key[0].end, []);
    assert Bump(st.toks, k) + [] == Bump(st.toks, k) && done + key + [] == done + key;
    InnermostInside(base, OBJECT, at, n, done + key);
    assert Inside(base, OBJECT, at, n, done + key + ValueToks(v, q))[k] == key[0];
  }

  // ----- a whole text -----

  /** Tokenizing a text of the grammar gives the tokens of its derivation. */
  lemma ParseDerived(d: G.Derivation, room: int)
    requires G.DerivationOk(d, room)
    ensures var str := G.DerivationText(d); Parse(str, |str|) == Tokens(ValueToks(d.value, |d.before|))
  {
    hide ValueToks, G.Text, Run, Innermost, G.ValueOk;
    var str, v, p := G.DerivationText(d), d.value, |d.before|;
    var toks, st := ValueToks(v, p), State([], -1);
    assert str[0..|str|] == str;
    AtSplit(str, 0, d.before + G.Text(v), d.after);
    AtSplit(str, 0, d.before, G.Text(v));
    ToksFit(v, room, p);
    SkipBlanks(str, 0, d.before, st, |str|);
    ParseValue(str, p, v, room, st, |str|);
    ToksClosed(v, room, p);
    InnermostClosed([], toks);
    assert [] + toks == toks;
    InnermostNone();
    SkipBlanks(str, p + |G.Text(v)|, d.after, State(toks, -1), |str|);
    RunEnd(str, State(toks, -1), |str|);
  }
}

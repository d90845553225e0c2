/**
 * Tokenizing printed trees: the tokens of a printed tree are the tree in
 * pre-order, each with its span and its number of direct children.
 */
module DictPrinted {
  import opened Dict
  import opened Marshal

  // ----- trees whose text can be read back -----

  predicate PrimitiveText(s: string) {
    s != [] && StartsPrimitive(s[0]) && forall i | 0 <= i < |s| :: ' ' < s[i] <= '~' && !Delimiter(s[i])
  }

  /** strismatch with the characters of a number, and exactly one point. */
  predicate FloatText(s: string) {
    (forall i | 0 <= i < |s| :: '0' <= s[i] <= '9' || s[i] == '-' || s[i] == '.') && Occurrences(s, '.') == 1
  }

  function Occurrences(s: string, c: char): nat {
    if s == [] then 0 else (if s[0] == c then 1 else 0) + Occurrences(s[1..], c)
  }

  /** What the decoder takes a primitive for. */
  function PrimitiveTag(s: string): Type {
    if s == "null" then NULL
    else if s == "true" then TRUE
    else if s == "false" then FALSE
    else if FloatText(s) then FLOAT
    else INT
  }

  /** strquid_format: a quid, with or without braces. */
  predicate QuidText(s: string) {
    if |s| == 38 then
      s[0] == '{' && s[37] == '}' && (forall i | 0 <= i < 38 :: HexDigit(s[i]) || s[i] == '-' || s[i] == '{' || s[i] == '}')
      && forall i | 0 <= i < 38 :: s[i] == '-' <==> i == 9 || i == 14 || i == 19 || i == 24
    else
      |s| == 36 && (forall i | 0 <= i < 36 :: HexDigit(s[i]) || s[i] == '-')
      && forall i | 0 <= i < 36 :: s[i] == '-' <==> i == 8 || i == 13 || i == 18 || i == 23
  }

  predicate IsContainer(m: Marshal) {
    m.tag == LIST || m.tag == MAP
  }

  predicate IsPrimitive(m: Marshal) {
    m.tag == NULL || m.tag == TRUE || m.tag == FALSE || m.tag == INT || m.tag == FLOAT
  }

  /** Non-empty containers, names on the members of maps only, no character that
      would need escaping, and leaves with the type the decoder gives them. */
  predicate Printable(m: Marshal) {
    && Clean(m.name)
    && (IsContainer(m) ==>
          && m.data == [] && m.kids != []
          && (forall i | 0 <= i < |m.kids| :: Printable(m.kids[i]))
          && (forall i | 0 <= i < |m.kids| :: m.kids[i].name == [] <==> m.tag == LIST))
    && (!IsContainer(m) ==> m.kids == [])
    && (m.tag == NULL || m.tag == TRUE || m.tag == FALSE ==> m.data == [])
    && (m.tag == INT || m.tag == FLOAT ==> PrimitiveText(m.data) && PrimitiveTag(m.data) == m.tag)
    && (m.tag == TEXT || m.tag == QUID ==> Clean(m.data) && (m.tag == QUID <==> QuidText(m.data)))
  }

  // ----- the tokens of a tree -----

  function Toks(m: Marshal, at: nat): (r: seq<Token>)
    ensures |r| > 0
    decreases m, 1
  {
    var end := at + |Body(m)|;
    if IsPrimitive(m) then [Token(PRIMITIVE, at, end, 0)]
    else if m.tag == LIST then [Token(ARRAY, at, end, |m.kids|)] + KidToks(m.kids, at + 1)
    else if m.tag == MAP then [Token(OBJECT, at, end, |m.kids|)] + KidToks(m.kids, at + 1)
    else [Token(STRING, at + 1, end - 1, 0)]
  }

  /** A name is the token of a string with one child, the value. */
  function NameToks(name: string, at: nat, size: int): seq<Token> {
    if name == [] then [] else [Token(STRING, at + 1, at + 1 + |name|, size)]
  }

  function KidToks(kids: seq<Marshal>, at: nat): seq<Token>
    decreases kids, 2
  {
    if kids == [] then []
    else
      NameToks(kids[0].name, at, 1) + Toks(kids[0], at + |Prefix(kids[0].name)|)
      + KidToks(kids[1..], at + |Print(kids[0])| + 1)
  }

  predicate Closed(toks: seq<Token>) {
    forall i | 0 <= i < |toks| :: toks[i].start != -1 && toks[i].end != -1
  }

  lemma {:induction false} ToksClosed(m: Marshal, at: nat)
    ensures Closed(Toks(m, at))
    decreases m, 1
  {
    if IsContainer(m) {
      KidToksClosed(m.kids, at + 1);
    } else if !IsPrimitive(m) {
      assert |Body(m)| >= 2;
    }
  }

  lemma {:induction false} KidToksClosed(kids: seq<Marshal>, at: nat)
    ensures Closed(KidToks(kids, at))
    decreases kids, 2
  {
    if kids != [] {
      ToksClosed(kids[0], at + |Prefix(kids[0].name)|);
      KidToksClosed(kids[1..], at + |Print(kids[0])| + 1);
    }
  }

  // ----- finding a piece of text -----

  predicate At(str: string, at: nat, s: string) {
    at + |s| <= |str| && str[at..at + |s|] == s
  }

  lemma AtSplit(str: string, at: nat, a: string, b: string)
    requires At(str, at, a + b)
    ensures At(str, at, a) && At(str, at + |a|, b)
  {
    var s := str[at..at + |a + b|];
    assert s[..|a|] == a && s[|a|..] == b;
    assert str[at..at + |a|] == s[..|a|] && str[at + |a|..at + |a| + |b|] == s[|a|..];
  }

  lemma AtChar(str: string, at: nat, s: string, i: nat)
    requires At(str, at, s) && i < |s|
    ensures str[at + i] == s[i]
  {
    assert str[at..at + |s|][i] == str[at + i];
  }

  lemma AtTail(str: string, at: nat, s: string)
    requires At(str, at, s) && s != []
    ensures At(str, at + 1, s[1..]) && str[at] == s[0]
  {
    assert s == [s[0]] + s[1..];
    AtSplit(str, at, [s[0]], s[1..]);
    AtChar(str, at, s, 0);
  }

  lemma {:induction false} ScansPrimitive(str: string, at: nat, s: string)
    requires At(str, at, s) && at + |s| < |str| && Delimiter(str[at + |s|])
    requires forall i | 0 <= i < |s| :: ' ' < s[i] <= '~' && !Delimiter(s[i])
    ensures ScanPrimitive(str, at) == Found(at + |s|)
    decreases |s|
  {
    if s != [] {
      AtTail(str, at, s);
      assert forall i | 0 <= i < |s| - 1 :: s[1..][i] == s[i + 1];
      ScansPrimitive(str, at + 1, s[1..]);
    }
  }

  lemma {:induction false} ScansString(str: string, at: nat, s: string)
    requires At(str, at, s) && at + |s| < |str| && str[at + |s|] == '"' && Clean(s)
    ensures ScanString(str, at) == Found(at + |s|)
    decreases |s|
  {
    if s != [] {
      AtTail(str, at, s);
      assert forall i | 0 <= i < |s| - 1 :: s[1..][i] == s[i + 1];
      ScansString(str, at + 1, s[1..]);
      CleanFirst(s);
    }
  }

  lemma CleanFirst(s: string)
    requires Clean(s) && s != []
    ensures s[0] != '"' && s[0] != '\\' && s[0] != '\0'
  {
    assert Stresc1(s[0]) == [s[0]];
    assert |Stresc1('"')| == 2 && |Stresc1('\\')| == 2;
  }

  // ----- states inside a container -----

  /** The tokens while a container is open: those before it, the container with
      the children counted so far, and the closed tokens inside it. */
  function Inside(base: seq<Token>, kind: Kind, at: nat, n: int, done: seq<Token>): seq<Token> {
    base + [Token(kind, at, -1, n)] + done
  }

  lemma {:induction false} InnermostInside(base: seq<Token>, kind: Kind, at: nat, n: int, done: seq<Token>)
    requires Closed(done) && (kind == ARRAY || kind == OBJECT)
    ensures Innermost(Inside(base, kind, at, n, done)) == |base|
    ensures InnermostContainer(Inside(base, kind, at, n, done)) == |base|
    decreases |done|
  {
    var t := Inside(base, kind, at, n, done);
    if done == [] {
      assert t == base + [Token(kind, at, -1, n)];
    } else {
      var d := done[..|done| - 1];
      InnermostInside(base, kind, at, n, d);
      assert t[..|t| - 1] == Inside(base, kind, at, n, d);
      assert t[|t| - 1] == done[|done| - 1];
    }
  }

  lemma {:induction false} InnermostClosed(base: seq<Token>, done: seq<Token>)
    requires Closed(done)
    ensures Innermost(base + done) == Innermost(base)
    decreases |done|
  {
    var t := base + done;
    if done == [] {
      assert t == base;
    } else {
      var d := done[..|done| - 1];
      InnermostClosed(base, d);
      assert t[..|t| - 1] == base + d && t[|t| - 1] == done[|done| - 1];
    }
  }

  lemma BumpInside(base: seq<Token>, kind: Kind, at: nat, n: int, done: seq<Token>, more: seq<Token>)
    ensures Bump(Inside(base, kind, at, n, done), |base|) + more == Inside(base, kind, at, n + 1, done + more)
  {
  }

  /** A key that gets its value. */
  lemma BumpKey(base: seq<Token>, kind: Kind, at: nat, n: int, done: seq<Token>, start: int, end: int, more: seq<Token>)
    ensures Bump(Inside(base, kind, at, n, done + [Token(STRING, start, end, 0)]), |base| + 1 + |done|) + more
         == Inside(base, kind, at, n, done + [Token(STRING, start, end, 1)] + more)
  {
  }

  // ----- one value -----

  /** The state after a value: its tokens are there, the superior token has one
      more child, and after a container the innermost open one is superior. */
  function After(st: State, m: Marshal, at: nat): State
    requires st.Ok()
  {
    var toks := Bump(st.toks, st.super);
    State(toks + Toks(m, at), if IsContainer(m) then Innermost(toks) else st.super)
  }

  /** Where a value may stand: a container anywhere, a leaf inside something, a
      primitive not as a key and not behind another value. */
  predicate Ready(st: State, m: Marshal)
    requires st.Ok()
  {
    !IsContainer(m) ==> st.super != -1 && !Misplaced(st)
  }

  lemma RunGo(str: string, pos: nat, st: State, limit: nat, pos': nat, st': State)
    requires st.Ok() && More(str, pos) && Next(str, pos, st, limit) == Go(pos', st')
    ensures st'.Ok() && Run(str, pos, st, limit) == Run(str, pos', st', limit)
  {
  }

  lemma PrimitiveBody(m: Marshal)
    requires Printable(m) && IsPrimitive(m)
    ensures PrimitiveText(Body(m))
  {
  }

  lemma ParsePrimitive(str: string, at: nat, m: Marshal, st: State, limit: nat)
    requires Printable(m) && IsPrimitive(m) && st.Ok() && Ready(st, m) && |st.toks| < limit
    requires At(str, at, Body(m)) && at + |Body(m)| < |str| && Delimiter(str[at + |Body(m)|])
    ensures After(st, m, at).Ok()
    ensures Run(str, at, st, limit) == Run(str, at + |Body(m)|, After(st, m, at), limit)
  {
    PrimitiveBody(m);
    AtChar(str, at, Body(m), 0);
    ScansPrimitive(str, at, Body(m));
    RunGo(str, at, st, limit, at + |Body(m)|, After(st, m, at));
  }

  lemma ParseText(str: string, at: nat, m: Marshal, st: State, limit: nat)
    requires Printable(m) && (m.tag == TEXT || m.tag == QUID) && st.Ok() && |st.toks| < limit
    requires At(str, at, Body(m))
    ensures After(st, m, at).Ok()
    ensures Run(str, at, st, limit) == Run(str, at + |Body(m)|, After(st, m, at), limit)
  {
    hide Run, Bump, Innermost, QuidText;
    CleanUnescaped(m.data);
    assert Body(m) == "\"" + (m.data + "\"");
    ParseQuoted(str, at, m.data, st, limit);
  }

  /** A string in quotes, as a value or as a key. */
  lemma ParseQuoted(str: string, at: nat, s: string, st: State, limit: nat)
    requires st.Ok() && |st.toks| < limit && Clean(s) && At(str, at, "\"" + (s + "\""))
    ensures var st' := State(Bump(st.toks, st.super) + [Token(STRING, at + 1, at + 1 + |s|, 0)], st.super);
      st'.Ok() && Run(str, at, st, limit) == Run(str, at + |s| + 2, st', limit)
  {
    AtChar(str, at, "\"" + (s + "\""), 0);
    AtSplit(str, at, "\"", s + "\"");
    AtSplit(str, at + 1, s, "\"");
    AtChar(str, at + 1 + |s|, "\"", 0);
    ScansString(str, at + 1, s);
    RunGo(str, at, st, limit, at + |s| + 2,
          State(Bump(st.toks, st.super) + [Token(STRING, at + 1, at + 1 + |s|, 0)], st.super));
  }

  // ----- trees -----

  /** Tokenizing the text of a value, whatever surrounds it. */
  lemma {:induction false} ParseValue(str: string, at: nat, m: Marshal, st: State, limit: nat)
    requires Printable(m) && st.Ok() && Ready(st, m) && |st.toks| + |Toks(m, at)| <= limit
    requires At(str, at, Body(m))
    requires IsPrimitive(m) ==> at + |Body(m)| < |str| && Delimiter(str[at + |Body(m)|])
    ensures After(st, m, at).Ok()
    ensures Run(str, at, st, limit) == Run(str, at + |Body(m)|, After(st, m, at), limit)
    decreases m, 1
  {
    if IsPrimitive(m) {
      ParsePrimitive(str, at, m, st, limit);
    } else if !IsContainer(m) {
      ParseText(str, at, m, st, limit);
    } else {
      ParseContainer(str, at, m, st, limit);
    }
  }

  function KindOf(m: Marshal): Kind
    requires IsContainer(m)
  {
    if m.tag == LIST then ARRAY else OBJECT
  }

  function OpenChar(m: Marshal): char
    requires IsContainer(m)
  {
    if m.tag == LIST then '[' else '{'
  }

  function CloseChar(m: Marshal): char
    requires IsContainer(m)
  {
    if m.tag == LIST then ']' else '}'
  }

  lemma {:induction false} ParseContainer(str: string, at: nat, m: Marshal, st: State, limit: nat)
    requires Printable(m) && IsContainer(m) && st.Ok() && |st.toks| + |Toks(m, at)| <= limit
    requires At(str, at, Body(m))
    ensures After(st, m, at).Ok()
    ensures Run(str, at, st, limit) == Run(str, at + |Body(m)|, After(st, m, at), limit)
    decreases m, 0
  {
    hide Run, Printable, Innermost, Joined, Toks, KidToks, Body, Inside, Bump, At, AtMember;
    var base, kind, kids, done := Bump(st.toks, st.super), KindOf(m), m.kids, KidToks(m.kids, at + 1);
    ContainerText(str, at, m);
    ContainerToks(m, at);
    PrintableKids(m);
    OpenInside(str, at, KindOf(m), st, limit);
    var s := ParseKids(str, at + 1, base, kind, at, kids, 0, [], limit);
    assert [] + done == done;
    KidToksClosed(kids, at + 1);
    CloseInside(str, at + 1 + |Joined(kids)|, base, kind, at, |kids|, done, s, limit);
    ClosedContainer(st, m, at);
  }

  lemma ContainerToks(m: Marshal, at: nat)
    requires IsContainer(m)
    ensures |Toks(m, at)| == 1 + |KidToks(m.kids, at + 1)|
  {
  }

  lemma OpenInside(str: string, at: nat, kind: Kind, st: State, limit: nat)
    requires (kind == ARRAY || kind == OBJECT) && st.Ok() && |st.toks| < limit
    requires at < |str| && str[at] == if kind == ARRAY then '[' else '{'
    ensures |Bump(st.toks, st.super)| == |st.toks|
    ensures State(Inside(Bump(st.toks, st.super), kind, at, 0, []), |st.toks|).Ok()
    ensures Run(str, at, st, limit)
         == Run(str, at + 1, State(Inside(Bump(st.toks, st.super), kind, at, 0, []), |st.toks|), limit)
  {
    var base := Bump(st.toks, st.super);
    assert Inside(base, kind, at, 0, []) == base + [Token(kind, at, -1, 0)];
    RunGo(str, at, st, limit, at + 1, State(base + [Token(kind, at, -1, 0)], |st.toks|));
  }

  lemma ContainerText(str: string, at: nat, m: Marshal)
    requires Printable(m) && IsContainer(m) && At(str, at, Body(m))
    ensures |Body(m)| == |Joined(m.kids)| + 2 && str[at] == OpenChar(m)
    ensures At(str, at + 1, Joined(m.kids)) && at + 1 + |Joined(m.kids)| < |str| && str[at + 1 + |Joined(m.kids)|] == CloseChar(m)
  {
    hide Body, Joined, Printable;
    var open, text, close := [OpenChar(m)], Joined(m.kids), [CloseChar(m)];
    ContainerBody(m);
    AtSplit(str, at, open, text + close);
    AtSplit(str, at + 1, text, close);
    AtChar(str, at, open, 0);
    AtChar(str, at + 1 + |text|, close, 0);
  }

  lemma ContainerBody(m: Marshal)
    requires Printable(m) && IsContainer(m)
    ensures Body(m) == [OpenChar(m)] + (Joined(m.kids) + [CloseChar(m)])
  {
    Assoc([OpenChar(m)], Joined(m.kids), [CloseChar(m)]);
  }

  lemma PrintableKids(m: Marshal)
    requires Printable(m) && IsContainer(m)
    ensures m.kids != []
    ensures forall i | 0 <= i < |m.kids| :: Printable(m.kids[i]) && (m.kids[i].name == [] <==> KindOf(m) == ARRAY)
  {
  }

  /** The closing bracket: the container gets its end, and the innermost open
      token around it becomes the superior one. */
  lemma CloseInside(str: string, pos: nat, base: seq<Token>, kind: Kind, at: nat, n: int, done: seq<Token>, s: int, limit: nat)
    requires Closed(done) && (kind == ARRAY || kind == OBJECT) && pos < |str| && str[pos] == if kind == ARRAY then ']' else '}'
    requires State(Inside(base, kind, at, n, done), s).Ok()
    ensures var toks := base + [Token(kind, at, pos + 1, n)] + done;
      && State(toks, Innermost(base)).Ok()
      && Run(str, pos, State(Inside(base, kind, at, n, done), s), limit) == Run(str, pos + 1, State(toks, Innermost(base)), limit)
  {
    hide Run, Innermost;
    var toks, t := Inside(base, kind, at, n, done), Token(kind, at, pos + 1, n);
    InnermostInside(base, kind, at, n, done);
    assert toks[|base|] == Token(kind, at, -1, n);
    assert toks[|base| := t] == base + ([t] + done);
    InnermostClosed(base, [t] + done);
    assert base + [t] + done == base + ([t] + done);
    RunGo(str, pos, State(toks, s), limit, pos + 1, State(toks[|base| := t], Innermost(base)));
  }

  lemma ClosedContainer(st: State, m: Marshal, at: nat)
    requires IsContainer(m) && st.Ok() && |Body(m)| == |Joined(m.kids)| + 2
    ensures var base := Bump(st.toks, st.super);
      After(st, m, at)
      == State(base + [Token(KindOf(m), at, at + 2 + |Joined(m.kids)|, |m.kids|)] + KidToks(m.kids, at + 1), Innermost(base))
  {
    hide Body, KidToks, Joined, Bump, Innermost;
  }

  /** Tokenizing the children of an open container and the commas between them. */
  lemma {:induction false} ParseKids(str: string, p: nat, base: seq<Token>, kind: Kind, at: nat, kids: seq<Marshal>,
                                     n: nat, done: seq<Token>, limit: nat)
    returns (s: int)
    requires kids != [] && Closed(done) && (kind == ARRAY || kind == OBJECT)
    requires forall i | 0 <= i < |kids| :: Printable(kids[i]) && (kids[i].name == [] <==> kind == ARRAY)
    requires At(str, p, Joined(kids)) && p + |Joined(kids)| < |str| && Delimiter(str[p + |Joined(kids)|])
    requires |base| + 1 + |done| + |KidToks(kids, p)| <= limit
    ensures var st' := State(Inside(base, kind, at, n + |kids|, done + KidToks(kids, p)), s);
      && AtMember(st'.toks, |base|, s) && st'.Ok()
      && Run(str, p, State(Inside(base, kind, at, n, done), |base|), limit) == Run(str, p + |Joined(kids)|, st', limit)
    decreases kids, 2
  {
    hide Run, Printable, Innermost, Print, Toks, Closed, Joined, KidToks, Inside, AtMember, NameToks;
    var kid, rest := kids[0], kids[1..];
    var end := p + |Print(kid)|;
    var done' := done + NameToks(kid.name, p, 1) + Toks(kid, p + |Prefix(kid.name)|);
    JoinedFirst(kids);
    KidToksFirst(kids, p, done);
    MemberClosed(done, kid, p);
    AtSplit(str, p, Print(kid), CommaJoined(rest));
    var all := done + KidToks(kids, p);
    if rest == [] {
      assert all == done' && n + |kids| == n + 1 && p + |Joined(kids)| == end;
      s := ParseMember(str, p, base, kind, at, kid, n, done, limit);
      AtMemberOk(base, kind, at, n + 1, done', s);
    } else {
      assert all == done' + KidToks(rest, end + 1) && n + |kids| == n + 1 + |rest|;
      assert p + |Joined(kids)| == end + 1 + |Joined(rest)|;
      AtSplit(str, end, ",", Joined(rest));
      AtChar(str, end, ",", 0);
      s := ParseMember(str, p, base, kind, at, kid, n, done, limit);
      CommaInside(str, end, base, kind, at, n + 1, done', s, limit);
      s := ParseKids(str, end + 1, base, kind, at, rest, n + 1, done', limit);
    }
  }

  lemma AtMemberOk(base: seq<Token>, kind: Kind, at: nat, n: int, done: seq<Token>, s: int)
    requires AtMember(Inside(base, kind, at, n, done), |base|, s)
    ensures State(Inside(base, kind, at, n, done), s).Ok()
  {
  }

  lemma KidToksFirst(kids: seq<Marshal>, p: nat, done: seq<Token>)
    requires kids != []
    ensures var kid := kids[0];
      var first := NameToks(kid.name, p, 1) + Toks(kid, p + |Prefix(kid.name)|);
      && |KidToks(kids, p)| == |first| + |KidToks(kids[1..], p + |Print(kid)| + 1)|
      && done + KidToks(kids, p) == done + NameToks(kid.name, p, 1) + Toks(kid, p + |Prefix(kid.name)|) + KidToks(kids[1..], p + |Print(kid)| + 1)
    ensures kids[1..] == [] ==> KidToks(kids[1..], p + |Print(kids[0])| + 1) == []
  {
    hide Toks, Print, NameToks;
    var kid := kids[0];
    Assoc4(done, NameToks(kid.name, p, 1), Toks(kid, p + |Prefix(kid.name)|), KidToks(kids[1..], p + |Print(kid)| + 1));
  }

  lemma Assoc4<T>(a: seq<T>, b: seq<T>, c: seq<T>, d: seq<T>)
    ensures a + (b + c + d) == a + b + c + d
  {
  }

  /** What follows a child in the text of its siblings. */
  function CommaJoined(kids: seq<Marshal>): string {
    if kids == [] then [] else "," + Joined(kids)
  }

  lemma JoinedFirst(kids: seq<Marshal>)
    requires kids != []
    ensures Joined(kids) == Print(kids[0]) + CommaJoined(kids[1..])
  {
    if |kids| > 1 {
      Assoc(Print(kids[0]), ",", Joined(kids[1..]));
    }
  }

  lemma Assoc(a: string, b: string, c: string)
    ensures a + b + c == a + (b + c)
  {
  }

  lemma MemberClosed(done: seq<Token>, kid: Marshal, p: nat)
    requires Closed(done)
    ensures Closed(done + NameToks(kid.name, p, 1) + Toks(kid, p + |Prefix(kid.name)|))
  {
    ToksClosed(kid, p + |Prefix(kid.name)|);
  }

  /** The superior token at the end of a member: the container itself, or the key
      when its value was a leaf. */
  predicate AtMember(toks: seq<Token>, container: nat, s: int) {
    container < |toks| && 0 <= s < |toks| && (s == container || !Container(toks[s]))
  }

  lemma CommaInside(str: string, pos: nat, base: seq<Token>, kind: Kind, at: nat, n: int, done: seq<Token>, s: int, limit: nat)
    requires Closed(done) && (kind == ARRAY || kind == OBJECT) && pos < |str| && str[pos] == ','
    requires AtMember(Inside(base, kind, at, n, done), |base|, s)
    ensures var toks := Inside(base, kind, at, n, done);
      Run(str, pos, State(toks, s), limit) == Run(str, pos + 1, State(toks, |base|), limit)
  {
    hide Run, InnermostContainer;
    InnermostInside(base, kind, at, n, done);
    RunGo(str, pos, State(Inside(base, kind, at, n, done), s), limit, pos + 1, State(Inside(base, kind, at, n, done), |base|));
  }

  lemma {:induction false} ParseMember(str: string, p: nat, base: seq<Token>, kind: Kind, at: nat, kid: Marshal,
                                       n: nat, done: seq<Token>, limit: nat)
    returns (s: int)
    requires Closed(done) && (kind == ARRAY || kind == OBJECT) && Printable(kid) && (kid.name == [] <==> kind == ARRAY)
    requires At(str, p, Print(kid)) && p + |Print(kid)| < |str| && Delimiter(str[p + |Print(kid)|])
    requires |base| + 1 + |done| + |NameToks(kid.name, p, 1)| + |Toks(kid, p + |Prefix(kid.name)|)| <= limit
    ensures var toks := Inside(base, kind, at, n + 1, done + NameToks(kid.name, p, 1) + Toks(kid, p + |Prefix(kid.name)|));
      && AtMember(toks, |base|, s)
      && Run(str, p, State(Inside(base, kind, at, n, done), |base|), limit) == Run(str, p + |Print(kid)|, State(toks, s), limit)
    decreases kid, 3
  {
    if kid.name == [] {
      s := ParseElement(str, p, base, kind, at, kid, n, done, limit);
    } else {
      s := ParseEntry(str, p, base, kind, at, kid, n, done, limit);
    }
  }

  lemma {:induction false} ParseElement(str: string, p: nat, base: seq<Token>, kind: Kind, at: nat, kid: Marshal,
                                        n: nat, done: seq<Token>, limit: nat)
    returns (s: int)
    requires Closed(done) && kind == ARRAY && Printable(kid) && kid.name == []
    requires At(str, p, Print(kid)) && p + |Print(kid)| < |str| && Delimiter(str[p + |Print(kid)|])
    requires |base| + 1 + |done| + |Toks(kid, p)| <= limit
    ensures var toks := Inside(base, kind, at, n + 1, done + [] + Toks(kid, p));
      && AtMember(toks, |base|, s)
      && Run(str, p, State(Inside(base, kind, at, n, done), |base|), limit) == Run(str, p + |Print(kid)|, State(toks, s), limit)
    decreases kid, 2
  {
    hide Run, Printable, Innermost, Toks, Body;
    var st := State(Inside(base, kind, at, n, done), |base|);
    assert Print(kid) == Body(kid);
    ParseValue(str, p, kid, st, limit);
    BumpInside(base, kind, at, n, done, Toks(kid, p));
    BumpInside(base, kind, at, n, done, []);
    assert done + [] == done && Bump(st.toks, |base|) + [] == Bump(st.toks, |base|);
    InnermostInside(base, kind, at, n + 1, done);
    s := |base|;
  }

  lemma {:induction false} ParseEntry(str: string, p: nat, base: seq<Token>, kind: Kind, at: nat, kid: Marshal,
                                      n: nat, done: seq<Token>, limit: nat)
    returns (s: int)
    requires Closed(done) && kind == OBJECT && Printable(kid) && kid.name != []
    requires At(str, p, Print(kid)) && p + |Print(kid)| < |str| && Delimiter(str[p + |Print(kid)|])
    requires |base| + 2 + |done| + |Toks(kid, p + |Prefix(kid.name)|)| <= limit
    ensures var toks := Inside(base, kind, at, n + 1, done + NameToks(kid.name, p, 1) + Toks(kid, p + |Prefix(kid.name)|));
      && AtMember(toks, |base|, s)
      && Run(str, p, State(Inside(base, kind, at, n, done), |base|), limit) == Run(str, p + |Print(kid)|, State(toks, s), limit)
    decreases kid, 2
  {
    hide Run, Printable, Innermost, Toks, Body;
    var key, q := NameToks(kid.name, p, 0), p + |Prefix(kid.name)|;
    EntryText(str, p, kid);
    PrintableName(kid);
    var toks1 := Inside(base, kind, at, n + 1, done + key);
    var k := |base| + 1 + |done|;
    assert key == [Token(STRING, p + 1, p + 1 + |kid.name|, 0)] && toks1[k] == key[0];
    ParseKey(str, p, base, kind, at, kid.name, n, done, limit);
    var st := State(toks1, k);
    ParseValue(str, q, kid, st, limit);
    EntryAfter(base, kind, at, n + 1, done, kid, p);
    s := After(st, kid, q).super;
  }

  lemma PrintableName(m: Marshal)
    requires Printable(m)
    ensures Clean(m.name)
  {
  }

  lemma EntryText(str: string, p: nat, kid: Marshal)
    requires kid.name != [] && At(str, p, Print(kid))
    ensures At(str, p, "\"" + (kid.name + "\"")) && At(str, p + |kid.name| + 2, ":")
    ensures |Prefix(kid.name)| == |kid.name| + 3 && At(str, p + |Prefix(kid.name)|, Body(kid))
  {
    hide Body;
    var quoted := "\"" + (kid.name + "\"");
    assert Print(kid) == quoted + (":" + Body(kid));
    AtSplit(str, p, quoted, ":" + Body(kid));
    AtSplit(str, p + |quoted|, ":", Body(kid));
  }

  /** A key and the colon after it. */
  lemma ParseKey(str: string, p: nat, base: seq<Token>, kind: Kind, at: nat, name: string, n: nat, done: seq<Token>, limit: nat)
    requires kind == OBJECT && Clean(name) && name != [] && |base| + 1 + |done| < limit
    requires At(str, p, "\"" + (name + "\"")) && At(str, p + |name| + 2, ":")
    ensures var toks := Inside(base, kind, at, n + 1, done + NameToks(name, p, 0));
      Run(str, p, State(Inside(base, kind, at, n, done), |base|), limit)
      == Run(str, p + |name| + 3, State(toks, |base| + 1 + |done|), limit)
  {
    hide Run, Clean, Bump, At, Inside;
    var key := NameToks(name, p, 0);
    var toks := Inside(base, kind, at, n + 1, done + key);
    InsideSize(base, kind, at, n, done);
    InsideSize(base, kind, at, n + 1, done + key);
    ParseQuoted(str, p, name, State(Inside(base, kind, at, n, done), |base|), limit);
    BumpInside(base, kind, at, n, done, key);
    Colon(str, p + |name| + 2, State(toks, |base|), limit);
  }

  lemma InsideSize(base: seq<Token>, kind: Kind, at: nat, n: int, done: seq<Token>)
    ensures |Inside(base, kind, at, n, done)| == |base| + 1 + |done|
  {
  }

  lemma Colon(str: string, pos: nat, st: State, limit: nat)
    requires st.Ok() && At(str, pos, ":")
    ensures Run(str, pos, st, limit) == Run(str, pos + 1, State(st.toks, |st.toks| - 1), limit)
  {
    AtChar(str, pos, ":", 0);
    RunGo(str, pos, st, limit, pos + 1, State(st.toks, |st.toks| - 1));
  }

  lemma EntryAfter(base: seq<Token>, kind: Kind, at: nat, n: int, done: seq<Token>, kid: Marshal, p: nat)
    requires Closed(done) && kind == OBJECT && kid.name != []
    ensures var k, q := |base| + 1 + |done|, p + |Prefix(kid.name)|;
      var st := State(Inside(base, kind, at, n, done + NameToks(kid.name, p, 0)), k);
      && st.Ok() && After(st, kid, q).toks == Inside(base, kind, at, n, done + NameToks(kid.name, p, 1) + Toks(kid, q))
      && AtMember(After(st, kid, q).toks, |base|, After(st, kid, q).super)
  {
    hide Innermost, Toks, Body;
    var k, q, key := |base| + 1 + |done|, p + |Prefix(kid.name)|, NameToks(kid.name, p, 1);
    var st := State(Inside(base, kind, at, n, done + NameToks(kid.name, p, 0)), k);
    BumpKey(base, kind, at, n, done, p + 1, p + 1 + |kid.name|, Toks(kid, q));
    BumpKey(base, kind, at, n, done, p + 1, p + 1 + |kid.name|, []);
    assert Bump(st.toks, k) + [] == Bump(st.toks, k) && done + key + [] == done + key;
    InnermostInside(base, kind, at, n, done + key);
    assert Inside(base, kind, at, n, done + key + Toks(kid, q))[k] == key[0];
  }

  // ----- a whole text -----

  /** There is room for the tokens: no more of them than characters. */
  lemma {:induction false} ToksFit(m: Marshal, at: nat)
    requires Printable(m)
    ensures |Toks(m, at)| <= |Body(m)|
    decreases m, 1
  {
    if IsPrimitive(m) {
      PrimitiveBody(m);
    } else if IsContainer(m) {
      PrintableKids(m);
      KidToksFit(m.kids, at + 1);
    }
  }

  lemma {:induction false} KidToksFit(kids: seq<Marshal>, at: nat)
    requires forall i | 0 <= i < |kids| :: Printable(kids[i])
    ensures |KidToks(kids, at)| <= |Joined(kids)|
    decreases kids, 2
  {
    hide Printable, Toks, Body;
    if kids != [] {
      ToksFit(kids[0], at + |Prefix(kids[0].name)|);
      KidToksFit(kids[1..], at + |Print(kids[0])| + 1);
      JoinedFirst(kids);
    }
  }

  lemma {:induction false} NoneOpen(toks: seq<Token>)
    requires Innermost(toks) == -1
    ensures forall i | 0 <= i < |toks| :: toks[i].start == -1 || toks[i].end != -1
    decreases |toks|
  {
    if toks != [] {
      var n := |toks| - 1;
      var t := toks[..n];
      NoneOpen(t);
      forall i | 0 <= i < |toks| ensures toks[i].start == -1 || toks[i].end != -1 {
        assert i < n ==> toks[i] == t[i];
      }
    }
  }

  lemma RunEnd(str: string, st: State, limit: nat)
    requires st.Ok() && Innermost(st.toks) == -1
    ensures Run(str, |str|, st, limit) == Tokens(st.toks)
  {
  }

  /** Tokenizing the text of a tree gives the tokens of the tree. */
  lemma ParsePrinted(m: Marshal)
    requires Printable(m) && IsContainer(m)
    ensures Parse(Body(m), |Body(m)|) == Tokens(Toks(m, 0))
  {
    hide Toks, Body, Printable, Run, Innermost;
    var str, toks := Body(m), Toks(m, 0);
    var st, st' := State([], -1), After(State([], -1), m, 0);
    ToksFit(m, 0);
    assert str[0..|str|] == str;
    ParseValue(str, 0, m, st, |str|);
    ToksClosed(m, 0);
    InnermostClosed([], toks);
    assert [] + toks == toks;
    InnermostNone();
    RunEnd(str, st', |str|);
  }

  lemma InnermostNone()
    ensures Innermost([]) == -1
  {
  }
}

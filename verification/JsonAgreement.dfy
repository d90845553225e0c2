/**
 * The two machines that read JSON agree: whatever the checker accepts, the
 * tokenizer tokenizes, with no more tokens than characters.
 */
module JsonAgreement {
  import opened Dict
  import opened JsonCheck
  import opened JsonStack

  // ----- open tokens -----

  predicate IsOpen(t: Token) {
    t.start != -1 && t.end == -1
  }

  /** The open tokens, outermost first. */
  function Opens(toks: seq<Token>): (r: seq<int>)
    ensures forall j | 0 <= j < |r| :: 0 <= r[j] < |toks|
  {
    if toks == [] then []
    else Opens(toks[..|toks| - 1]) + if IsOpen(toks[|toks| - 1]) then [|toks| - 1] else []
  }

  function Last(s: seq<int>): int {
    if s == [] then -1 else s[|s| - 1]
  }

  lemma {:induction false} InnermostIsLast(toks: seq<Token>)
    ensures Innermost(toks) == Last(Opens(toks))
  {
    if toks != [] {
      InnermostIsLast(toks[..|toks| - 1]);
    }
  }

  lemma {:induction false} InnermostContainerIs(toks: seq<Token>)
    requires forall i | 0 <= i < |toks| && IsOpen(toks[i]) :: Container(toks[i])
    ensures InnermostContainer(toks) == Innermost(toks)
  {
    if toks != [] {
      var t := toks[..|toks| - 1];
      assert forall i | 0 <= i < |t| :: t[i] == toks[i];
      InnermostContainerIs(t);
    }
  }

  lemma OpensMore(toks: seq<Token>, t: Token)
    ensures Opens(toks + [t]) == Opens(toks) + if IsOpen(t) then [|toks|] else []
  {
    assert (toks + [t])[..|toks|] == toks;
  }

  /** Changing a token without opening or closing it. */
  lemma {:induction false} OpensSame(toks: seq<Token>, i: nat, t: Token)
    requires i < |toks| && (IsOpen(t) <==> IsOpen(toks[i]))
    ensures Opens(toks[i := t]) == Opens(toks)
  {
    var n := |toks| - 1;
    if i < n {
      assert toks[i := t][..n] == toks[..n][i := t];
      OpensSame(toks[..n], i, t);
    } else {
      assert toks[i := t][..n] == toks[..n];
    }
  }

  lemma OpensBump(toks: seq<Token>, super: int)
    requires -1 <= super < |toks|
    ensures Opens(Bump(toks, super)) == Opens(toks)
  {
    if super != -1 {
      OpensSame(toks, super, toks[super].(size := toks[super].size + 1));
    }
  }

  /** Closing the innermost open token. */
  lemma {:induction false} OpensClose(toks: seq<Token>, t: Token)
    requires Opens(toks) != [] && !IsOpen(t)
    ensures Opens(toks[Last(Opens(toks)) := t]) == Opens(toks)[..|Opens(toks)| - 1]
  {
    var n, i := |toks| - 1, Last(Opens(toks));
    if IsOpen(toks[n]) {
      assert toks[n := t][..n] == toks[..n];
    } else {
      OpensClose(toks[..n], t);
      assert toks[i := t][..n] == toks[..n][i := t];
    }
  }

  // ----- how the two machines correspond -----

  /** The open tokens are the containers on the stack. */
  predicate SameOpen(stack: seq<Mode>, toks: seq<Token>) {
    var open := Opens(toks);
    && |stack| == |open| + 1 && stack[0] == MODE_DONE
    && (forall j | 0 < j < |stack| - 1 :: stack[j] != MODE_KEY)
    && (forall j | 0 <= j < |open| :: toks[open[j]].kind == KindOf(stack[j + 1]) && stack[j + 1] != MODE_DONE)
    && forall i | 0 <= i < |toks| && IsOpen(toks[i]) :: Container(toks[i])
  }

  function KindOf(mode: Mode): Kind {
    if mode == MODE_ARRAY then ARRAY else OBJECT
  }

  predicate FreshKey(t: Token) {
    t.kind == STRING && t.size == 0 && !IsOpen(t)
  }

  /** Where the superior token is, between two tokens. */
  predicate SuperOk(s: int, top: Mode, st: State)
    requires st.Ok()
  {
    var inner, n := Innermost(st.toks), |st.toks|;
    if s == GO then st.toks == [] && st.super == -1
    else if s == CO then st.super == inner && n > 0 && FreshKey(st.toks[n - 1])
    else if s == VA && top == MODE_OBJECT then st.super == n - 1 && n > 0 && FreshKey(st.toks[n - 1])
    else if s == OK && top == MODE_OBJECT then st.super == inner || (st.super != -1 && !Container(st.toks[st.super]))
    else st.super == inner
  }

  predicate Related(conf: Conf, st: State)
    requires st.Ok()
  {
    && conf.Conf? && InStructure(conf.state) && TopOk(conf.state, Top(conf.stack))
    && SameOpen(conf.stack, st.toks) && SuperOk(conf.state, Top(conf.stack), st)
  }

  lemma StartRelated()
    ensures Related(START, State([], -1))
  {
  }

  // ----- texts that the checker accepts -----

  /** From here the checker goes on to accept. */
  predicate Lives(conf: Conf, str: string, pos: nat, depth: nat)
    requires pos <= |str|
  {
    Done(Steps(conf, Seen(str[pos..]), depth))
  }

  predicate Ascii(str: string) {
    forall i | 0 <= i < |str| :: str[i] <= '\U{7f}'
  }

  lemma LivesStep(conf: Conf, str: string, pos: nat, depth: nat)
    requires Ascii(str) && pos <= |str| && Lives(conf, str, pos, depth)
    ensures conf.Conf?
    ensures More(str, pos) ==> Step(conf, str[pos], depth).Conf? && Lives(Step(conf, str[pos], depth), str, pos + 1, depth)
    ensures !More(str, pos) ==> Done(conf)
  {
    hide Step;
    if More(str, pos) {
      SeenStep(str, pos, conf, depth);
      StepsRejected(Seen(str[pos + 1..]), depth);
      StepRejected(str[pos], depth);
    }
  }

  /** The characters as both machines see them. */
  lemma Classes(c: char)
    ensures Blank(c) <==> White(ClassOf(c))
    ensures HexDigit(c) <==> Hex(ClassOf(c))
    ensures StartsPrimitive(c) <==> Digit(ClassOf(c)) || ClassOf(c) == C_MINUS || ClassOf(c) == C_LOW_T
                                    || ClassOf(c) == C_LOW_F || ClassOf(c) == C_LOW_N
    ensures Delimiter(c) <==> White(ClassOf(c)) || ClassOf(c) == C_COLON || ClassOf(c) == C_COMMA
                              || ClassOf(c) == C_RSQRB || ClassOf(c) == C_RCURB
    ensures Escaped(c) <==> ClassOf(c) == C_QUOTE || ClassOf(c) == C_SLASH || ClassOf(c) == C_BACKS || ClassOf(c) == C_LOW_B
                            || ClassOf(c) == C_LOW_F || ClassOf(c) == C_LOW_R || ClassOf(c) == C_LOW_N || ClassOf(c) == C_LOW_T
    ensures c == 'u' <==> ClassOf(c) == C_LOW_U
    ensures C_PLUS <= ClassOf(c) <= C_E && ClassOf(c) != C_ETC ==> ' ' < c <= '~'
  {
  }

  // ----- strings -----

  lemma InnerString(s: int, stack: seq<Mode>, c: char, depth: nat)
    requires InString(s) && Step(Conf(s, stack), c, depth).Conf?
    ensures s == ST && c != '"' && c != '\\' ==> Step(Conf(s, stack), c, depth) == Conf(ST, stack)
    ensures s == ST && c == '\\' ==> Step(Conf(s, stack), c, depth) == Conf(ES, stack)
    ensures s == ST && c == '"' ==> Step(Conf(s, stack), c, depth) == Act(QUOTE, stack, depth)
    ensures s == ES ==> Step(Conf(s, stack), c, depth) == Conf(if Escaped(c) then ST else U1, stack) && (Escaped(c) || c == 'u')
    ensures s > ES ==> HexDigit(c) && Step(Conf(s, stack), c, depth) == Conf(if s == U4 then ST else s + 1, stack)
  {
    Classes(c);
    ClassFacts(c);
    hide ClassOf;
  }

  /** Inside a string the checker reads up to the quote at which the tokenizer
      ends the string. */
  lemma {:induction false} StringEnds(str: string, pos: nat, stack: seq<Mode>, depth: nat) returns (end: nat)
    requires Ascii(str) && pos <= |str| && Top(stack) != MODE_DONE && Lives(Conf(ST, stack), str, pos, depth)
    ensures pos <= end < |str| && ScanString(str, pos) == Found(end)
    ensures Lives(Act(QUOTE, stack, depth), str, end + 1, depth)
    decreases |str| - pos
  {
    hide Step, Act, Lives;
    var conf := Conf(ST, stack);
    LivesStep(conf, str, pos, depth);
    NotOver(conf, str, pos);
    InnerString(ST, stack, str[pos], depth);
    if str[pos] == '"' {
      end := pos;
    } else if str[pos] == '\\' {
      var esc := Conf(ES, stack);
      LivesStep(esc, str, pos + 1, depth);
      NotOver(esc, str, pos + 1);
      InnerString(ES, stack, str[pos + 1], depth);
      if Escaped(str[pos + 1]) {
        end := StringEnds(str, pos + 2, stack, depth);
      } else {
        HexEnds(str, pos + 2, stack, U1, depth);
        end := StringEnds(str, pos + 6, stack, depth);
      }
    } else {
      end := StringEnds(str, pos + 1, stack, depth);
    }
  }

  lemma NotOver(conf: Conf, str: string, pos: nat)
    requires conf.Conf? && (conf.state != OK || Top(conf.stack) != MODE_DONE) && (!More(str, pos) ==> Done(conf))
    ensures More(str, pos)
  {
  }

  lemma {:induction false} HexEnds(str: string, pos: nat, stack: seq<Mode>, s: int, depth: nat)
    requires Ascii(str) && pos <= |str| && U1 <= s <= U4 && Lives(Conf(s, stack), str, pos, depth)
    ensures var n := U4 - s + 1;
      pos + n <= |str| && ScanHex(str, pos, n) == Found(pos + n) && Lives(Conf(ST, stack), str, pos + n, depth)
    decreases U4 - s
  {
    hide Step, Act, Lives;
    LivesStep(Conf(s, stack), str, pos, depth);
    NotOver(Conf(s, stack), str, pos);
    InnerString(s, stack, str[pos], depth);
    if s < U4 {
      HexEnds(str, pos + 1, stack, s + 1, depth);
    }
  }

  // ----- numbers and words -----

  /** States in the middle or at the end of a number or a word. */
  predicate InPrimitive(s: int) {
    s == OK || MI <= s <= N3
  }

  lemma InnerPrimitive(s: int, stack: seq<Mode>, c: char, depth: nat)
    requires InPrimitive(s) && Step(Conf(s, stack), c, depth).Conf?
    ensures Delimiter(c) ==> Step(Conf(s, stack), c, depth) == Step(Conf(OK, stack), c, depth)
    ensures !Delimiter(c) ==>
      ' ' < c <= '~' && exists s' :: InPrimitive(s') && Step(Conf(s, stack), c, depth) == Conf(s', stack)
  {
    Classes(c);
    hide ClassOf;
    var m := Transition(s, ClassOf(c));
    assert !Delimiter(c) ==> InPrimitive(m);
  }

  /** A number or a word ends at the delimiter at which the tokenizer ends the
      primitive, and the checker is as good as in the state after a value. */
  lemma {:induction false} PrimitiveEnds(str: string, pos: nat, s: int, stack: seq<Mode>, depth: nat) returns (end: nat)
    requires Ascii(str) && pos <= |str| && InPrimitive(s) && Top(stack) != MODE_DONE && Lives(Conf(s, stack), str, pos, depth)
    ensures pos <= end < |str| && ScanPrimitive(str, pos) == Found(end)
    ensures Lives(Conf(OK, stack), str, end, depth)
    decreases |str| - pos
  {
    hide Step, Lives, InPrimitive;
    LivesStep(Conf(s, stack), str, pos, depth);
    NotOver(Conf(s, stack), str, pos);
    InnerPrimitive(s, stack, str[pos], depth);
    if Delimiter(str[pos]) {
      end := pos;
      LivesBack(Conf(OK, stack), str, pos, depth);
    } else {
      var s' :| InPrimitive(s') && Step(Conf(s, stack), str[pos], depth) == Conf(s', stack);
      end := PrimitiveEnds(str, pos + 1, s', stack, depth);
    }
  }

  lemma LivesBack(conf: Conf, str: string, pos: nat, depth: nat)
    requires Ascii(str) && More(str, pos) && conf.Conf? && Lives(Step(conf, str[pos], depth), str, pos + 1, depth)
    ensures Lives(conf, str, pos, depth)
  {
    hide Step;
    SeenStep(str, pos, conf, depth);
  }

  // ----- one round of both machines -----

  /** What the checker can do between two tokens. */
  lemma Structure(s: int, stack: seq<Mode>, c: char, depth: nat)
    requires InStructure(s) && Step(Conf(s, stack), c, depth).Conf?
    ensures Blank(c) || c == '{' || c == '[' || c == '}' || c == ']' || c == '"' || c == ':' || c == ',' || StartsPrimitive(c)
    ensures var r := Step(Conf(s, stack), c, depth);
      && (Blank(c) ==> r == Conf(s, stack))
      && (c == '{' ==> s != OK && s != CO && s != OB && s != KE && r == Pushed(OB, stack, MODE_KEY, depth))
      && (c == '[' ==> s != OK && s != CO && s != OB && s != KE && r == Pushed(AR, stack, MODE_ARRAY, depth))
      && (c == '}' ==> r == Popped(OK, stack, if s == OB then MODE_KEY else MODE_OBJECT) && (s == OB || s == OK))
      && (c == ']' ==> r == Popped(OK, stack, MODE_ARRAY) && (s == AR || s == OK))
      && (c == '"' ==> r == Conf(ST, stack) && (s == OB || s == KE || s == VA || s == AR))
      && (c == ':' ==> r == Exchanged(VA, stack, MODE_KEY, MODE_OBJECT) && s == CO)
      && (c == ',' ==> r == Act(COMMA, stack, depth) && s == OK)
      && (StartsPrimitive(c) ==> r.stack == stack && InPrimitive(r.state) && (s == VA || s == AR))
  {
    Classes(c);
    ClassFacts(c);
    hide ClassOf;
  }

  lemma SameOpenTop(stack: seq<Mode>, toks: seq<Token>)
    requires SameOpen(stack, toks)
    ensures Innermost(toks) == Last(Opens(toks)) && InnermostContainer(toks) == Innermost(toks)
    ensures Top(stack) == MODE_DONE <==> Innermost(toks) == -1
    ensures Top(stack) != MODE_DONE ==> toks[Innermost(toks)].kind == KindOf(Top(stack)) && IsOpen(toks[Innermost(toks)])
  {
    InnermostIsLast(toks);
    InnermostContainerIs(toks);
    var open := Opens(toks);
    if open != [] {
      assert toks[open[|open| - 1]].kind == KindOf(stack[|open|]) && stack[|open|] != MODE_DONE;
      OpenLast(toks);
    }
  }

  lemma {:induction false} OpenLast(toks: seq<Token>)
    requires Opens(toks) != []
    ensures IsOpen(toks[Last(Opens(toks))])
  {
    var n := |toks| - 1;
    if !IsOpen(toks[n]) {
      OpenLast(toks[..n]);
    }
  }

  /** Tokens that differ only in how many children they have. */
  predicate Alike(a: seq<Token>, b: seq<Token>) {
    |a| == |b| && forall i | 0 <= i < |a| :: a[i].kind == b[i].kind && (IsOpen(a[i]) <==> IsOpen(b[i]))
  }

  lemma BumpAlike(toks: seq<Token>, super: int)
    requires -1 <= super < |toks|
    ensures Alike(toks, Bump(toks, super))
  {
  }

  lemma SameOpenAlike(stack: seq<Mode>, a: seq<Token>, b: seq<Token>)
    requires SameOpen(stack, a) && Alike(a, b) && Opens(a) == Opens(b)
    ensures SameOpen(stack, b)
  {
    hide Opens;
    var open := Opens(a);
    assert forall j | 0 <= j < |open| :: a[open[j]].kind == b[open[j]].kind;
  }

  lemma SameOpenBump(stack: seq<Mode>, toks: seq<Token>, super: int)
    requires SameOpen(stack, toks) && -1 <= super < |toks|
    ensures SameOpen(stack, Bump(toks, super)) && Innermost(Bump(toks, super)) == Innermost(toks)
  {
    hide Opens, Bump, SameOpen, Innermost, Alike;
    OpensBump(toks, super);
    InnermostIsLast(toks);
    InnermostIsLast(Bump(toks, super));
    BumpAlike(toks, super);
    SameOpenAlike(stack, toks, Bump(toks, super));
  }

  lemma SameOpenMore(stack: seq<Mode>, toks: seq<Token>, t: Token)
    requires SameOpen(stack, toks) && !IsOpen(t)
    ensures SameOpen(stack, toks + [t]) && Innermost(toks + [t]) == Innermost(toks)
  {
    OpensMore(toks, t);
    InnermostIsLast(toks);
    InnermostIsLast(toks + [t]);
    hide Opens, Innermost;
    var open := Opens(toks);
    assert forall j | 0 <= j < |open| :: (toks + [t])[open[j]] == toks[open[j]];
  }

  lemma SameOpenPush(stack: seq<Mode>, toks: seq<Token>, t: Token, mode: Mode)
    requires SameOpen(stack, toks) && IsOpen(t) && mode != MODE_DONE && t.kind == KindOf(mode) && Container(t)
    requires Top(stack) != MODE_KEY
    ensures SameOpen(stack + [mode], toks + [t]) && Innermost(toks + [t]) == |toks|
  {
    OpensMore(toks, t);
    InnermostIsLast(toks + [t]);
    hide Opens, Innermost;
    var open, toks', stack' := Opens(toks), toks + [t], stack + [mode];
    var open' := open + [|toks|];
    forall j | 0 <= j < |open'| ensures toks'[open'[j]].kind == KindOf(stack'[j + 1]) && stack'[j + 1] != MODE_DONE {
      if j < |open| {
        assert toks'[open[j]] == toks[open[j]] && stack'[j + 1] == stack[j + 1];
      }
    }
  }

  lemma OpenStep(conf: Conf, st: Dict.State, c: char, pos: nat, limit: nat, depth: nat)
    requires st.Ok() && Related(conf, st) && (c == '{' || c == '[') && |st.toks| < limit && Step(conf, c, depth).Conf?
    ensures var r := Open(st, if c == '{' then OBJECT else ARRAY, pos, limit);
      r.Go? && r.state.Ok() && Related(Step(conf, c, depth), r.state) && |r.state.toks| == |st.toks| + 1
  {
    Structure(conf.state, conf.stack, c, depth);
    var mode, t := if c == '{' then MODE_KEY else MODE_ARRAY, Token(if c == '{' then OBJECT else ARRAY, pos, -1, 0);
    SameOpenBump(conf.stack, st.toks, st.super);
    SameOpenPush(conf.stack, Bump(st.toks, st.super), t, mode);
    hide SameOpen, Step, Bump, Innermost;
    assert Top(conf.stack + [mode]) == mode;
  }

  lemma CloseStep(conf: Conf, st: Dict.State, c: char, pos: nat, depth: nat)
    requires st.Ok() && Related(conf, st) && (c == '}' || c == ']') && Step(conf, c, depth).Conf?
    ensures var r := Close(st, if c == '}' then OBJECT else ARRAY, pos);
      r.Go? && r.state.Ok() && Related(Step(conf, c, depth), r.state) && |r.state.toks| == |st.toks|
  {
    Structure(conf.state, conf.stack, c, depth);
    SameOpenTop(conf.stack, st.toks);
    var i, stack := Innermost(st.toks), conf.stack[..|conf.stack| - 1];
    var toks := st.toks[i := st.toks[i].(end := pos + 1)];
    hide Step, Innermost, Opens, SameOpen, InnermostContainer;
    PoppedOpen(conf.stack, st.toks, i, st.toks[i].(end := pos + 1));
    SameOpenTop(stack, toks);
    ClosedTop(conf.stack, st.toks);
  }

  /** Below a mode other than MODE_DONE there is never a key. */
  lemma ClosedTop(stack: seq<Mode>, toks: seq<Token>)
    requires SameOpen(stack, toks) && Top(stack) != MODE_DONE
    ensures |stack| > 1 && Top(stack[..|stack| - 1]) != MODE_KEY
  {
  }

  lemma PoppedOpen(stack: seq<Mode>, toks: seq<Token>, i: int, t: Token)
    requires SameOpen(stack, toks) && Top(stack) != MODE_DONE && i == Last(Opens(toks)) && i >= 0 && !IsOpen(t)
    ensures SameOpen(stack[..|stack| - 1], toks[i := t])
  {
    OpensClose(toks, t);
    OpensApart(toks);
    hide Opens;
    var open, n := Opens(toks), |Opens(toks)| - 1;
    var toks', stack' := toks[i := t], stack[..|stack| - 1];
    assert open != [] && open[n] == i;
    forall j | 0 <= j < n ensures toks'[open[j]].kind == KindOf(stack'[j + 1]) && stack'[j + 1] != MODE_DONE {
      assert open[j] < open[n] && stack'[j + 1] == stack[j + 1];
    }
  }

  lemma {:induction false} OpensApart(toks: seq<Token>)
    ensures forall j, k | 0 <= j < k < |Opens(toks)| :: Opens(toks)[j] < Opens(toks)[k]
  {
    if toks != [] {
      OpensApart(toks[..|toks| - 1]);
    }
  }

  /** A string or a primitive: the state of the tokenizer behind it. */
  function WithLeaf(st: Dict.State, kind: Kind, start: nat, end: nat): Dict.State
    requires st.Ok()
  {
    State(Bump(st.toks, st.super) + [Token(kind, start, end, 0)], st.super)
  }

  lemma LeafStep(conf: Conf, st: Dict.State, kind: Kind, start: nat, end: nat)
    requires st.Ok() && Related(conf, st) && conf.state != GO && conf.state != OK && conf.state != CO
    requires kind == STRING || (kind == PRIMITIVE && (conf.state == VA || conf.state == AR))
    ensures var st' := WithLeaf(st, kind, start, end);
      && st'.Ok() && |st'.toks| == |st.toks| + 1
      && Related(Conf(if Top(conf.stack) == MODE_KEY then CO else OK, conf.stack), st')
  {
    var bumped, t := Bump(st.toks, st.super), Token(kind, start, end, 0);
    SameOpenBump(conf.stack, st.toks, st.super);
    SameOpenMore(conf.stack, bumped, t);
    SameOpenTop(conf.stack, st.toks);
    hide SameOpen, Innermost, Opens, InnermostContainer;
    var st' := WithLeaf(st, kind, start, end);
    if conf.state == VA && Top(conf.stack) == MODE_OBJECT {
      assert st'.toks[st.super].kind == STRING;
    }
  }

  lemma ColonStep(conf: Conf, st: Dict.State, depth: nat)
    requires st.Ok() && Related(conf, st) && Step(conf, ':', depth).Conf?
    ensures State(st.toks, |st.toks| - 1).Ok() && Related(Step(conf, ':', depth), State(st.toks, |st.toks| - 1))
  {
    Structure(conf.state, conf.stack, ':', depth);
    ExchangedOpen(conf.stack, st.toks, MODE_OBJECT);
    hide SameOpen, Step, Innermost;
  }

  /** A key and the value that belongs to it are the same open object. */
  lemma ExchangedOpen(stack: seq<Mode>, toks: seq<Token>, mode: Mode)
    requires SameOpen(stack, toks) && (Top(stack) == MODE_KEY || Top(stack) == MODE_OBJECT) && (mode == MODE_KEY || mode == MODE_OBJECT)
    ensures SameOpen(stack[..|stack| - 1] + [mode], toks) && Top(stack[..|stack| - 1] + [mode]) == mode
  {
    hide Opens;
    var open, stack' := Opens(toks), stack[..|stack| - 1] + [mode];
    forall j | 0 <= j < |open| ensures toks[open[j]].kind == KindOf(stack'[j + 1]) && stack'[j + 1] != MODE_DONE {
      if j < |open| - 1 {
        assert stack'[j + 1] == stack[j + 1];
      } else {
        assert stack[j + 1] == Top(stack);
      }
    }
  }

  lemma CommaStep(conf: Conf, st: Dict.State, pos: nat, depth: nat)
    requires st.Ok() && Related(conf, st) && Step(conf, ',', depth).Conf?
    ensures var r := Comma(st, pos);
      r.Go? && r.pos == pos + 1 && r.state.Ok() && Related(Step(conf, ',', depth), r.state) && r.state.toks == st.toks
  {
    Structure(conf.state, conf.stack, ',', depth);
    SameOpenTop(conf.stack, st.toks);
    if Top(conf.stack) == MODE_OBJECT {
      ExchangedOpen(conf.stack, st.toks, MODE_KEY);
    }
    hide SameOpen, Step, Innermost, InnermostContainer, Opens;
  }

  /** A primitive value is not where a key should be. */
  lemma PrimitivePlaced(conf: Conf, st: Dict.State)
    requires st.Ok() && Related(conf, st) && (conf.state == VA || conf.state == AR)
    ensures st.super != -1 && !Misplaced(st)
  {
    SameOpenTop(conf.stack, st.toks);
    hide SameOpen, Innermost, InnermostContainer, Opens;
  }

  // ----- whole texts -----

  lemma RunStops(str: string, pos: nat, conf: Conf, st: Dict.State, limit: nat)
    requires st.Ok() && Related(conf, st) && Done(conf) && !More(str, pos)
    ensures Run(str, pos, st, limit) == Tokens(st.toks)
  {
    SameOpenTop(conf.stack, st.toks);
  }

  lemma RunsOn(str: string, pos: nat, st: Dict.State, limit: nat, pos': nat, st': Dict.State)
    requires st.Ok() && More(str, pos) && Next(str, pos, st, limit) == Go(pos', st')
    ensures st'.Ok() && Run(str, pos, st, limit) == Run(str, pos', st', limit)
  {
  }

  /** From related states on, what the checker accepts the tokenizer tokenizes. */
  lemma {:induction false} Simulates(str: string, pos: nat, conf: Conf, st: Dict.State, limit: nat, depth: nat)
    requires Ascii(str) && pos <= |str| <= limit && st.Ok() && Related(conf, st) && |st.toks| <= pos
    requires Lives(conf, str, pos, depth)
    ensures Run(str, pos, st, limit).Tokens?
    decreases |str| - pos
  {
    hide Step, Lives, Related, Run, Next, Act;
    LivesStep(conf, str, pos, depth);
    if !More(str, pos) {
      RunStops(str, pos, conf, st, limit);
    } else {
      var c, conf' := str[pos], Step(conf, str[pos], depth);
      var pos', next, st' := Round(str, pos, conf, st, limit, depth);
      RunsOn(str, pos, st, limit, pos', st');
      Simulates(str, pos', next, st', limit, depth);
    }
  }

  /** One round: the tokenizer goes on to a state that is related to one from
      which the checker still accepts. */
  lemma Round(str: string, pos: nat, conf: Conf, st: Dict.State, limit: nat, depth: nat)
    returns (pos': nat, conf': Conf, st': Dict.State)
    requires Ascii(str) && More(str, pos) && |str| <= limit && st.Ok() && Related(conf, st) && |st.toks| <= pos
    requires Step(conf, str[pos], depth).Conf? && Lives(Step(conf, str[pos], depth), str, pos + 1, depth)
    ensures Next(str, pos, st, limit) == Go(pos', st') && pos < pos' <= |str| && st'.Ok() && |st'.toks| <= pos'
    ensures Related(conf', st') && Lives(conf', str, pos', depth)
  {
    hide Step, Lives, Act, ScanString, ScanPrimitive;
    var c := str[pos];
    RelatedStructure(conf, st, c, depth);
    hide Related;
    conf' := Step(conf, c, depth);
    if c == '"' {
      pos', conf', st' := QuoteRound(str, pos, conf, st, limit, depth);
    } else if Blank(c) {
      pos', st' := pos + 1, st;
    } else if c == '{' || c == '[' {
      OpenStep(conf, st, c, pos, limit, depth);
      pos', st' := pos + 1, Open(st, if c == '{' then OBJECT else ARRAY, pos, limit).state;
    } else if c == '}' || c == ']' {
      CloseStep(conf, st, c, pos, depth);
      pos', st' := pos + 1, Close(st, if c == '}' then OBJECT else ARRAY, pos).state;
    } else if c == ':' {
      ColonStep(conf, st, depth);
      pos', st' := pos + 1, State(st.toks, |st.toks| - 1);
    } else if c == ',' {
      CommaStep(conf, st, pos, depth);
      pos', st' := pos + 1, Comma(st, pos).state;
    } else {
      pos', conf', st' := PrimitiveRound(str, pos, conf, st, limit, depth);
    }
  }

  lemma RelatedStructure(conf: Conf, st: Dict.State, c: char, depth: nat)
    requires st.Ok() && Related(conf, st) && Step(conf, c, depth).Conf?
    ensures Blank(c) || c == '{' || c == '[' || c == '}' || c == ']' || c == '"' || c == ':' || c == ',' || StartsPrimitive(c)
    ensures Blank(c) ==> Step(conf, c, depth) == conf
  {
    Structure(conf.state, conf.stack, c, depth);
  }

  lemma QuoteRound(str: string, pos: nat, conf: Conf, st: Dict.State, limit: nat, depth: nat)
    returns (pos': nat, conf': Conf, st': Dict.State)
    requires Ascii(str) && More(str, pos) && |str| <= limit && st.Ok() && Related(conf, st) && |st.toks| <= pos && str[pos] == '"'
    requires Step(conf, str[pos], depth).Conf? && Lives(Step(conf, str[pos], depth), str, pos + 1, depth)
    ensures Next(str, pos, st, limit) == Go(pos', st') && pos < pos' <= |str| && st'.Ok() && |st'.toks| <= pos'
    ensures Related(conf', st') && Lives(conf', str, pos', depth)
  {
    Structure(conf.state, conf.stack, '"', depth);
    hide Step, Lives, SameOpen, SuperOk, ScanString;
    var end := StringEnds(str, pos + 1, conf.stack, depth);
    LeafStep(conf, st, STRING, pos + 1, end);
    pos', conf', st' := end + 1, Act(QUOTE, conf.stack, depth), WithLeaf(st, STRING, pos + 1, end);
  }

  lemma PrimitiveRound(str: string, pos: nat, conf: Conf, st: Dict.State, limit: nat, depth: nat)
    returns (pos': nat, conf': Conf, st': Dict.State)
    requires Ascii(str) && More(str, pos) && |str| <= limit && st.Ok() && Related(conf, st) && |st.toks| <= pos
    requires StartsPrimitive(str[pos])
    requires Step(conf, str[pos], depth).Conf? && Lives(Step(conf, str[pos], depth), str, pos + 1, depth)
    ensures Next(str, pos, st, limit) == Go(pos', st') && pos < pos' <= |str| && st'.Ok() && |st'.toks| <= pos'
    ensures Related(conf', st') && Lives(conf', str, pos', depth)
  {
    Structure(conf.state, conf.stack, str[pos], depth);
    var inner := Step(conf, str[pos], depth).state;
    hide Step, Lives, SameOpen, ScanPrimitive, InPrimitive;
    var end := PrimitiveEnds(str, pos + 1, inner, conf.stack, depth);
    FirstOfPrimitive(str, pos, end);
    PrimitivePlaced(conf, st);
    LeafStep(conf, st, PRIMITIVE, pos, end);
    hide SuperOk, Misplaced;
    pos', conf', st' := end, Conf(OK, conf.stack), WithLeaf(st, PRIMITIVE, pos, end);
  }

  lemma FirstOfPrimitive(str: string, pos: nat, end: nat)
    requires More(str, pos) && StartsPrimitive(str[pos]) && ScanPrimitive(str, pos + 1) == Found(end)
    ensures ScanPrimitive(str, pos) == Found(end)
  {
  }
}

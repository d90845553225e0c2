/**
 * The syntax checker reads every text of the grammar: what each part of a
 * derivation does to its state and stack.
 */
module JsonRuns {
  import opened JsonCheck
  import opened JsonGrammar
  import opened JsonStack

  // ----- spaces and delimiters -----

  lemma SpaceStep(state: int, stack: seq<Mode>, c: char, depth: nat)
    requires InStructure(state) && Space(c)
    ensures Step(Conf(state, stack), c, depth) == Conf(state, stack)
  {
  }

  lemma {:induction false} SpacesRun(state: int, stack: seq<Mode>, w: string, depth: nat)
    requires InStructure(state) && Spaces(w)
    ensures Steps(Conf(state, stack), w, depth) == Conf(state, stack)
    decreases |w|
  {
    hide Step, Space;
    if w != [] {
      SpaceStep(state, stack, w[0], depth);
      SpacesRun(state, stack, w[1..], depth);
    }
  }

  /** A state in which a value may be over. */
  predicate ValueEnd(s: int) {
    s == OK || s == ZE || s == IN || s == FR || s == E3
  }

  predicate Delimits(c: char) {
    Space(c) || c == ',' || c == ']' || c == '}'
  }

  /** What follows a number is read as if the value had been over before. */
  lemma EndStep(s: int, stack: seq<Mode>, c: char, depth: nat)
    requires ValueEnd(s) && Delimits(c)
    ensures Step(Conf(s, stack), c, depth) == Step(Conf(OK, stack), c, depth)
  {
    hide Act;
  }

  lemma AfterRun(s: int, stack: seq<Mode>, w: string, depth: nat)
    requires ValueEnd(s) && Spaces(w)
    ensures Steps(Conf(s, stack), w, depth) == Conf(if w == [] then s else OK, stack)
  {
    hide Step, Space;
    if w != [] {
      assert Delimits(w[0]);
      EndStep(s, stack, w[0], depth);
      SpaceStep(OK, stack, w[0], depth);
      SpacesRun(OK, stack, w[1..], depth);
    }
  }

  // ----- strings -----

  lemma PlainStep(stack: seq<Mode>, c: char, depth: nat)
    requires Plain(c)
    ensures Step(Conf(ST, stack), c, depth) == Conf(ST, stack)
  {
  }

  lemma EscapeSteps(stack: seq<Mode>, c: char, depth: nat)
    requires Escape(c)
    ensures Step(Conf(ST, stack), '\\', depth) == Conf(ES, stack)
    ensures Step(Conf(ES, stack), c, depth) == Conf(ST, stack)
  {
  }

  lemma UnicodeSteps(stack: seq<Mode>, c: char, state: int, depth: nat)
    requires HexNumeral(c) && U1 <= state <= U4
    ensures Step(Conf(ST, stack), '\\', depth) == Conf(ES, stack)
    ensures Step(Conf(ES, stack), 'u', depth) == Conf(U1, stack)
    ensures Step(Conf(state, stack), c, depth) == Conf(if state == U4 then ST else state + 1, stack)
  {
  }

  lemma {:induction false} HexRun(state: int, stack: seq<Mode>, s: string, depth: nat)
    requires U1 <= state <= U4 && |s| == U4 + 1 - state && forall i | 0 <= i < |s| :: HexNumeral(s[i])
    ensures Steps(Conf(state, stack), s, depth) == Conf(ST, stack)
    decreases |s|
  {
    hide Step, HexNumeral;
    UnicodeSteps(stack, s[0], state, depth);
    if state < U4 {
      HexRun(state + 1, stack, s[1..], depth);
    } else {
      assert Steps(Conf(ST, stack), s[1..], depth) == Conf(ST, stack);
    }
  }

  lemma TwoSteps(conf: Conf, s: string, depth: nat)
    requires |s| >= 2
    ensures Steps(conf, s, depth) == Steps(Step(Step(conf, s[0], depth), s[1], depth), s[2..], depth)
  {
    hide Step;
    assert s[1..][1..] == s[2..];
    assert Steps(Step(conf, s[0], depth), s[1..], depth) == Steps(Step(Step(conf, s[0], depth), s[1], depth), s[1..][1..], depth);
  }

  lemma {:induction false} CharsRun(stack: seq<Mode>, s: string, depth: nat)
    requires Chars(s)
    ensures Steps(Conf(ST, stack), s, depth) == Conf(ST, stack)
    decreases |s|
  {
    hide Step, Plain, Escape, HexNumeral;
    if s == [] {
    } else if Plain(s[0]) && Chars(s[1..]) {
      PlainStep(stack, s[0], depth);
      CharsRun(stack, s[1..], depth);
    } else if |s| >= 2 && s[0] == '\\' && Escape(s[1]) && Chars(s[2..]) {
      TwoSteps(Conf(ST, stack), s, depth);
      EscapeSteps(stack, s[1], depth);
      CharsRun(stack, s[2..], depth);
    } else {
      TwoSteps(Conf(ST, stack), s, depth);
      assert HexNumeral(s[..6][2]);
      UnicodeSteps(stack, s[2], U1, depth);
      assert forall i | 2 <= i < 6 :: s[..6][i] == s[i];
      HexRun(U1, stack, s[2..6], depth);
      assert s[2..] == s[2..6] + s[6..];
      StepsConcat(Conf(U1, stack), s[2..6], s[6..], depth);
      CharsRun(stack, s[6..], depth);
    }
  }

  lemma QuoteSteps(state: int, stack: seq<Mode>, depth: nat)
    requires state == VA || state == AR || state == OB || state == KE
    requires Top(stack) != MODE_DONE
    ensures Step(Conf(state, stack), '"', depth) == Conf(ST, stack)
    ensures Step(Conf(ST, stack), '"', depth) == Conf(if Top(stack) == MODE_KEY then CO else OK, stack)
  {
  }

  lemma QuotedRun(state: int, stack: seq<Mode>, s: string, depth: nat)
    requires state == VA || state == AR || state == OB || state == KE
    requires Top(stack) != MODE_DONE && Quoted(s)
    ensures Steps(Conf(state, stack), s, depth) == Conf(if Top(stack) == MODE_KEY then CO else OK, stack)
  {
    hide Step, Chars, Top;
    var body := s[1..|s| - 1];
    QuoteSteps(state, stack, depth);
    CharsRun(stack, body, depth);
    assert s[1..] == body + ['"'];
    StepsConcat(Conf(ST, stack), body, ['"'], depth);
    StepsOne(Conf(ST, stack), '"', depth);
  }

  // ----- words and numbers -----

  lemma TrueSteps(state: int, stack: seq<Mode>, depth: nat)
    requires state == VA || state == AR
    ensures Step(Conf(state, stack), 't', depth) == Conf(T1, stack)
    ensures Step(Conf(T1, stack), 'r', depth) == Conf(T2, stack) && Step(Conf(T2, stack), 'u', depth) == Conf(T3, stack)
    ensures Step(Conf(T3, stack), 'e', depth) == Conf(OK, stack)
  {
  }

  lemma FalseSteps(state: int, stack: seq<Mode>, depth: nat)
    requires state == VA || state == AR
    ensures Step(Conf(state, stack), 'f', depth) == Conf(F1, stack) && Step(Conf(F1, stack), 'a', depth) == Conf(F2, stack)
    ensures Step(Conf(F2, stack), 'l', depth) == Conf(F3, stack) && Step(Conf(F3, stack), 's', depth) == Conf(F4, stack)
    ensures Step(Conf(F4, stack), 'e', depth) == Conf(OK, stack)
  {
  }

  lemma NullSteps(state: int, stack: seq<Mode>, depth: nat)
    requires state == VA || state == AR
    ensures Step(Conf(state, stack), 'n', depth) == Conf(N1, stack) && Step(Conf(N1, stack), 'u', depth) == Conf(N2, stack)
    ensures Step(Conf(N2, stack), 'l', depth) == Conf(N3, stack) && Step(Conf(N3, stack), 'l', depth) == Conf(OK, stack)
  {
  }

  lemma WordRun(state: int, stack: seq<Mode>, s: string, depth: nat)
    requires state == VA || state == AR
    requires s == "true" || s == "false" || s == "null"
    ensures Steps(Conf(state, stack), s, depth) == Conf(OK, stack)
  {
    hide Step;
    TrueSteps(state, stack, depth);
    FalseSteps(state, stack, depth);
    NullSteps(state, stack, depth);
    TwoSteps(Conf(state, stack), s, depth);
    var conf := Step(Step(Conf(state, stack), s[0], depth), s[1], depth);
    TwoSteps(conf, s[2..], depth);
    var rest := s[2..][2..];
    var conf' := Step(Step(conf, s[2], depth), s[3], depth);
    if s == "false" {
      assert rest == ['e'];
      StepsOne(conf', 'e', depth);
    } else {
      assert rest == [];
    }
  }

  lemma DigitStep(state: int, stack: seq<Mode>, c: char, depth: nat)
    requires Numeral(c)
    ensures state == IN || state == FR || state == E3 ==> Step(Conf(state, stack), c, depth) == Conf(state, stack)
    ensures state == E1 || state == E2 ==> Step(Conf(state, stack), c, depth) == Conf(E3, stack)
    ensures state == VA || state == AR || state == MI ==> Step(Conf(state, stack), c, depth) == Conf(if c == '0' then ZE else IN, stack)
  {
  }

  lemma {:induction false} DigitsRun(state: int, stack: seq<Mode>, s: string, depth: nat)
    requires state == IN || state == FR || state == E3
    requires Digits(s)
    ensures Steps(Conf(state, stack), s, depth) == Conf(state, stack)
    decreases |s|
  {
    hide Step, Numeral;
    if s != [] {
      DigitStep(state, stack, s[0], depth);
      DigitsRun(state, stack, s[1..], depth);
    }
  }

  lemma WholeRun(state: int, stack: seq<Mode>, s: string, depth: nat)
    requires state == VA || state == AR || state == MI
    requires Whole(s)
    ensures Steps(Conf(state, stack), s, depth) == Conf(if s == "0" then ZE else IN, stack)
  {
    hide Step, Numeral;
    assert Numeral('0') by {
      ZeroIsDigit();
    }
    DigitStep(state, stack, s[0], depth);
    if s == "0" {
      StepsOne(Conf(state, stack), '0', depth);
    } else {
      DigitsRun(IN, stack, s[1..], depth);
    }
  }

  lemma ZeroIsDigit()
    ensures Numeral('0')
  {
  }

  lemma PointStep(state: int, stack: seq<Mode>, depth: nat)
    ensures state == ZE || state == IN ==> Step(Conf(state, stack), '.', depth) == Conf(FR, stack)
    ensures state == VA || state == AR ==> Step(Conf(state, stack), '-', depth) == Conf(MI, stack)
  {
  }

  lemma ExponentSteps(state: int, stack: seq<Mode>, e: char, sign: char, depth: nat)
    requires (state == IN || state == FR) && (e == 'e' || e == 'E')
    ensures Step(Conf(state, stack), e, depth) == Conf(E1, stack)
    ensures sign == '+' || sign == '-' ==> Step(Conf(E1, stack), sign, depth) == Conf(E2, stack)
  {
  }

  lemma ExponentRun(state: int, stack: seq<Mode>, s: string, depth: nat)
    requires (state == IN || state == FR) && Exponent(s)
    ensures Steps(Conf(state, stack), s, depth) == Conf(E3, stack)
  {
    hide Step, Numeral;
    ExponentSteps(state, stack, s[0], s[1], depth);
    TwoSteps(Conf(state, stack), s, depth);
    if s[1] == '+' || s[1] == '-' {
      DigitStep(E2, stack, s[2], depth);
      DigitsRun(E3, stack, s[2..][1..], depth);
    } else {
      assert Numeral(s[1..][0]);
      DigitStep(E1, stack, s[1], depth);
      assert s[2..] == s[1..][1..];
      DigitsRun(E3, stack, s[2..], depth);
    }
  }

  /** The state after a number. */
  function NumberState(n: Number): int {
    if n.exponent != [] then E3 else if n.point then FR else if n.whole == "0" then ZE else IN
  }

  lemma MantissaRun(state: int, stack: seq<Mode>, n: Number, depth: nat)
    requires (state == VA || state == AR) && NumberOk(n)
    ensures Steps(Conf(state, stack), NumberText(n.(exponent := [])), depth) == Conf(NumberState(n.(exponent := [])), stack)
  {
    hide Step, Digits, Whole, Exponent;
    var sign := if n.minus then "-" else "";
    var part := if n.point then "." + n.fraction else "";
    var s0 := if n.minus then MI else state;
    PointStep(state, stack, depth);
    StepsOne(Conf(state, stack), '-', depth);
    WholeRun(s0, stack, n.whole, depth);
    StepsConcat(Conf(state, stack), sign, n.whole, depth);
    var s1 := if n.whole == "0" then ZE else IN;
    StepsConcat(Conf(state, stack), sign + n.whole, part, depth);
    if n.point {
      PointStep(s1, stack, depth);
      DigitsRun(FR, stack, n.fraction, depth);
      assert part[1..] == n.fraction;
    }
    assert NumberText(n.(exponent := [])) == sign + n.whole + part;
  }

  lemma NumberRun(state: int, stack: seq<Mode>, n: Number, depth: nat)
    requires (state == VA || state == AR) && NumberOk(n)
    ensures Steps(Conf(state, stack), NumberText(n), depth) == Conf(NumberState(n), stack)
  {
    MantissaRun(state, stack, n, depth);
    hide Step, Digits, Whole, Exponent;
    var head := NumberText(n.(exponent := []));
    assert NumberText(n) == head + n.exponent;
    if n.exponent != [] {
      StepsConcat(Conf(state, stack), head, n.exponent, depth);
      ExponentRun(NumberState(n.(exponent := [])), stack, n.exponent, depth);
    }
  }

  // ----- values -----

  function EndState(v: Value): int {
    if v.Num? then NumberState(v.number) else OK
  }

  lemma OpenSteps(state: int, stack: seq<Mode>, depth: nat)
    requires state == VA || state == AR || state == GO
    requires |stack| < depth
    ensures Step(Conf(state, stack), '[', depth) == Conf(AR, stack + [MODE_ARRAY])
    ensures Step(Conf(state, stack), '{', depth) == Conf(OB, stack + [MODE_KEY])
  {
  }

  lemma CloseSteps(stack: seq<Mode>, depth: nat)
    ensures Step(Conf(AR, stack + [MODE_ARRAY]), ']', depth) == Conf(OK, stack)
    ensures Step(Conf(OK, stack + [MODE_ARRAY]), ']', depth) == Conf(OK, stack)
    ensures Step(Conf(OB, stack + [MODE_KEY]), '}', depth) == Conf(OK, stack)
    ensures Step(Conf(OK, stack + [MODE_OBJECT]), '}', depth) == Conf(OK, stack)
  {
    assert forall m: Mode :: (stack + [m])[..|stack|] == stack;
  }

  lemma NextSteps(stack: seq<Mode>, depth: nat)
    ensures Step(Conf(OK, stack + [MODE_ARRAY]), ',', depth) == Conf(VA, stack + [MODE_ARRAY])
    ensures Step(Conf(OK, stack + [MODE_OBJECT]), ',', depth) == Conf(KE, stack + [MODE_KEY])
    ensures Step(Conf(CO, stack + [MODE_KEY]), ':', depth) == Conf(VA, stack + [MODE_OBJECT])
  {
    assert forall m: Mode :: (stack + [m])[..|stack|] == stack;
  }

  lemma EnclosedRun(conf: Conf, open: char, body: string, close: char, depth: nat)
    ensures Steps(conf, [open] + body + [close], depth) == Step(Steps(Step(conf, open, depth), body, depth), close, depth)
  {
    hide Step;
    StepsConcat(conf, [open] + body, [close], depth);
    StepsConcat(conf, [open], body, depth);
    StepsOne(conf, open, depth);
    StepsOne(Steps(Step(conf, open, depth), body, depth), close, depth);
  }

  lemma {:induction false} ValueRun(v: Value, room: nat, state: int, stack: seq<Mode>, depth: nat)
    requires ValueOk(v, room) && |stack| + room <= depth && Top(stack) != MODE_DONE && Top(stack) != MODE_KEY
    requires state == VA || state == AR
    ensures Steps(Conf(state, stack), Text(v), depth) == Conf(EndState(v), stack)
    decreases v, 1
  {
    match v {
      case Word(text) => WordRun(state, stack, text, depth);
      case Num(n) => NumberRun(state, stack, n, depth);
      case Str(text) => QuotedRun(state, stack, text, depth);
      case _ => ContainerRun(v, room, state, stack, depth);
    }
  }

  lemma {:induction false} ContainerRun(v: Value, room: nat, state: int, stack: seq<Mode>, depth: nat)
    requires ValueOk(v, room) && |stack| + room <= depth && (v.Array? || v.Object?)
    requires state == VA || state == AR || state == GO
    ensures Steps(Conf(state, stack), Text(v), depth) == Conf(OK, stack)
    decreases v, 0
  {
    if v.Array? {
      ArrayRun(v.pad, v.elements, room, state, stack, depth);
    } else {
      ObjectRun(v.pad, v.members, room, state, stack, depth);
    }
  }

  lemma {:induction false} ArrayRun(pad: string, es: seq<Element>, room: nat, state: int, stack: seq<Mode>, depth: nat)
    requires ValueOk(Array(pad, es), room) && |stack| + room <= depth
    requires state == VA || state == AR || state == GO
    ensures Steps(Conf(state, stack), Text(Array(pad, es)), depth) == Conf(OK, stack)
    decreases es, 3
  {
    hide Step, ValueEnd, Spaces;
    var st := stack + [MODE_ARRAY];
    OpenSteps(state, stack, depth);
    CloseSteps(stack, depth);
    if es == [] {
      EnclosedRun(Conf(state, stack), '[', pad, ']', depth);
      SpacesRun(AR, st, pad, depth);
    } else {
      var front, last := es[..|es| - 1], es[|es| - 1];
      EnclosedRun(Conf(state, stack), '[', Elements(front) + ElementText(last), ']', depth);
      StepsConcat(Conf(AR, st), Elements(front), ElementText(last), depth);
      ElementsRun(front, room - 1, stack, depth);
      ElementRun(last, room - 1, if front == [] then AR else VA, st, ']', depth);
    }
  }

  /** An element leaves a state in which the delimiter is read as after a value. */
  lemma {:induction false} ElementRun(e: Element, room: nat, state: int, stack: seq<Mode>, c: char, depth: nat)
    requires ElementOk(e, room) && |stack| + room <= depth && Top(stack) != MODE_DONE && Top(stack) != MODE_KEY
    requires (state == VA || state == AR) && Delimits(c)
    ensures Step(Steps(Conf(state, stack), ElementText(e), depth), c, depth) == Step(Conf(OK, stack), c, depth)
    decreases e, 1
  {
    hide Step, Spaces, Text, ValueOk, Top, Delimits;
    SpacesRun(state, stack, e.before, depth);
    ValueRun(e.value, room, state, stack, depth);
    StepsConcat(Conf(state, stack), e.before, Text(e.value), depth);
    StepsConcat(Conf(state, stack), e.before + Text(e.value), e.after, depth);
    AfterRun(EndState(e.value), stack, e.after, depth);
    EndStep(if e.after == [] then EndState(e.value) else OK, stack, c, depth);
  }

  lemma {:induction false} ElementsRun(es: seq<Element>, room: nat, stack: seq<Mode>, depth: nat)
    requires (forall i | 0 <= i < |es| :: ElementOk(es[i], room)) && |stack| + 1 + room <= depth
    ensures Steps(Conf(AR, stack + [MODE_ARRAY]), Elements(es), depth) == Conf(if es == [] then AR else VA, stack + [MODE_ARRAY])
    decreases es, 2
  {
    hide Step, ElementOk, ElementText;
    if es != [] {
      var front, last, st := es[..|es| - 1], es[|es| - 1], stack + [MODE_ARRAY];
      ElementsRun(front, room, stack, depth);
      StepsConcat(Conf(AR, st), Elements(front), ElementText(last), depth);
      StepsConcat(Conf(AR, st), Elements(front) + ElementText(last), ",", depth);
      var conf := Steps(Conf(AR, st), Elements(front) + ElementText(last), depth);
      StepsOne(conf, ',', depth);
      ElementRun(last, room, if front == [] then AR else VA, st, ',', depth);
      NextSteps(stack, depth);
    }
  }

  lemma {:induction false} ObjectRun(pad: string, ms: seq<Member>, room: nat, state: int, stack: seq<Mode>, depth: nat)
    requires ValueOk(Object(pad, ms), room) && |stack| + room <= depth
    requires state == VA || state == AR || state == GO
    ensures Steps(Conf(state, stack), Text(Object(pad, ms)), depth) == Conf(OK, stack)
    decreases ms, 3
  {
    hide Step, ValueEnd, Spaces;
    var st := stack + [MODE_KEY];
    OpenSteps(state, stack, depth);
    CloseSteps(stack, depth);
    if ms == [] {
      EnclosedRun(Conf(state, stack), '{', pad, '}', depth);
      SpacesRun(OB, st, pad, depth);
    } else {
      var front, last := ms[..|ms| - 1], ms[|ms| - 1];
      EnclosedRun(Conf(state, stack), '{', Members(front) + MemberText(last), '}', depth);
      StepsConcat(Conf(OB, st), Members(front), MemberText(last), depth);
      MembersRun(front, room - 1, stack, depth);
      MemberRun(last, room - 1, if front == [] then OB else KE, stack, '}', depth);
    }
  }

  lemma {:induction false} MemberRun(m: Member, room: nat, state: int, stack: seq<Mode>, c: char, depth: nat)
    requires MemberOk(m, room) && |stack| + 1 + room <= depth
    requires (state == OB || state == KE) && Delimits(c)
    ensures Step(Steps(Conf(state, stack + [MODE_KEY]), MemberText(m), depth), c, depth)
         == Step(Conf(OK, stack + [MODE_OBJECT]), c, depth)
    decreases m, 1
  {
    hide Step, Spaces, Quoted, ElementText, ElementOk, Delimits;
    var st, conf := stack + [MODE_KEY], Conf(state, stack + [MODE_KEY]);
    SpacesRun(state, st, m.before, depth);
    QuotedRun(state, st, m.key, depth);
    SpacesRun(CO, st, m.gap, depth);
    NextSteps(stack, depth);
    StepsOne(Conf(CO, st), ':', depth);
    StepsConcat(conf, m.before, m.key, depth);
    StepsConcat(conf, m.before + m.key, m.gap, depth);
    StepsConcat(conf, m.before + m.key + m.gap, ":", depth);
    StepsConcat(conf, m.before + m.key + m.gap + ":", ElementText(m.element), depth);
    ElementRun(m.element, room, VA, stack + [MODE_OBJECT], c, depth);
  }

  lemma {:induction false} MembersRun(ms: seq<Member>, room: nat, stack: seq<Mode>, depth: nat)
    requires (forall i | 0 <= i < |ms| :: MemberOk(ms[i], room)) && |stack| + 1 + room <= depth
    ensures Steps(Conf(OB, stack + [MODE_KEY]), Members(ms), depth) == Conf(if ms == [] then OB else KE, stack + [MODE_KEY])
    decreases ms, 2
  {
    hide Step, MemberOk, MemberText;
    if ms != [] {
      var front, last, st := ms[..|ms| - 1], ms[|ms| - 1], stack + [MODE_KEY];
      MembersRun(front, room, stack, depth);
      StepsConcat(Conf(OB, st), Members(front), MemberText(last), depth);
      StepsConcat(Conf(OB, st), Members(front) + MemberText(last), ",", depth);
      var conf := Steps(Conf(OB, st), Members(front) + MemberText(last), depth);
      StepsOne(conf, ',', depth);
      MemberRun(last, room, if front == [] then OB else KE, stack, ',', depth);
      NextSteps(stack, depth);
    }
  }

  /** Every text of the grammar is accepted. */
  lemma DerivedAccepted(d: Derivation, depth: nat)
    requires 0 < depth && DerivationOk(d, depth - 1)
    ensures Accepts(DerivationText(d), depth)
  {
    hide Step, Spaces, Text, ValueOk;
    SpacesRun(GO, [MODE_DONE], d.before, depth);
    ContainerRun(d.value, depth - 1, GO, [MODE_DONE], depth);
    SpacesRun(OK, [MODE_DONE], d.after, depth);
    StepsConcat(START, d.before, Text(d.value), depth);
    StepsConcat(START, d.before + Text(d.value), d.after, depth);
  }
}

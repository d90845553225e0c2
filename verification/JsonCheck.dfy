/**
 * The syntax checker (src/json_check.c): a pushdown automaton over characters
 * that says whether a text is JSON.
 */
module JsonCheck {
  // The enumerations of the source are numbers here, too.

  const C_NONE := -1
  const C_SPACE := 0
  const C_WHITE := 1
  const C_LCURB := 2
  const C_RCURB := 3
  const C_LSQRB := 4
  const C_RSQRB := 5
  const C_COLON := 6
  const C_COMMA := 7
  const C_QUOTE := 8
  const C_BACKS := 9
  const C_SLASH := 10
  const C_PLUS := 11
  const C_MINUS := 12
  const C_POINT := 13
  const C_ZERO := 14
  const C_DIGIT := 15
  const C_LOW_A := 16
  const C_LOW_B := 17
  const C_LOW_C := 18
  const C_LOW_D := 19
  const C_LOW_E := 20
  const C_LOW_F := 21
  const C_LOW_L := 22
  const C_LOW_N := 23
  const C_LOW_R := 24
  const C_LOW_S := 25
  const C_LOW_T := 26
  const C_LOW_U := 27
  const C_ABCDF := 28
  const C_E := 29
  const C_ETC := 30

  const GO := 0
  const OK := 1
  const OB := 2
  const KE := 3
  const CO := 4
  const VA := 5
  const AR := 6
  const ST := 7
  const ES := 8
  const U1 := 9
  const U4 := 12
  const MI := 13
  const ZE := 14
  const IN := 15
  const FR := 16
  const E1 := 17
  const E2 := 18
  const E3 := 19
  const T1 := 20
  const T2 := 21
  const T3 := 22
  const F1 := 23
  const F2 := 24
  const F3 := 25
  const F4 := 26
  const N1 := 27
  const N2 := 28
  const N3 := 29

  // The entries of state_transition_table that are not states.
  const REJECT := -1
  const COLON := -2
  const COMMA := -3
  const QUOTE := -4
  const OPEN_ARRAY := -5
  const OPEN_OBJECT := -6
  const CLOSE_ARRAY := -7
  const CLOSE_OBJECT := -8
  const CLOSE_EMPTY := -9

  datatype Mode = MODE_ARRAY | MODE_DONE | MODE_KEY | MODE_OBJECT

  /** ascii_class; everything beyond ASCII is C_ETC. */
  function ClassOf(c: char): int {
    if c == ' ' then C_SPACE
    else if c == '\t' || c == '\n' || c == '\r' then C_WHITE
    else if c < ' ' then C_NONE
    else if c == '{' then C_LCURB
    else if c == '}' then C_RCURB
    else if c == '[' then C_LSQRB
    else if c == ']' then C_RSQRB
    else if c == ':' then C_COLON
    else if c == ',' then C_COMMA
    else if c == '"' then C_QUOTE
    else if c == '\\' then C_BACKS
    else if c == '/' then C_SLASH
    else if c == '+' then C_PLUS
    else if c == '-' then C_MINUS
    else if c == '.' then C_POINT
    else if c == '0' then C_ZERO
    else if '1' <= c <= '9' then C_DIGIT
    else if c == 'a' then C_LOW_A
    else if c == 'b' then C_LOW_B
    else if c == 'c' then C_LOW_C
    else if c == 'd' then C_LOW_D
    else if c == 'e' then C_LOW_E
    else if c == 'f' then C_LOW_F
    else if c == 'l' then C_LOW_L
    else if c == 'n' then C_LOW_N
    else if c == 'r' then C_LOW_R
    else if c == 's' then C_LOW_S
    else if c == 't' then C_LOW_T
    else if c == 'u' then C_LOW_U
    else if c == 'E' then C_E
    else if 'A' <= c <= 'F' then C_ABCDF
    else C_ETC
  }

  predicate White(c: int) {
    c == C_SPACE || c == C_WHITE
  }

  predicate Digit(c: int) {
    c == C_ZERO || c == C_DIGIT
  }

  predicate Hex(c: int) {
    C_ZERO <= c <= C_LOW_F || c == C_ABCDF || c == C_E
  }

  /** What may begin a value. */
  function ValueMove(c: int): int {
    if c == C_LCURB then OPEN_OBJECT
    else if c == C_LSQRB then OPEN_ARRAY
    else if c == C_QUOTE then ST
    else if c == C_MINUS then MI
    else if c == C_ZERO then ZE
    else if c == C_DIGIT then IN
    else if c == C_LOW_F then F1
    else if c == C_LOW_N then N1
    else if c == C_LOW_T then T1
    else REJECT
  }

  /** What may follow a value. */
  function EndMove(c: int): int {
    if White(c) then OK
    else if c == C_RCURB then CLOSE_OBJECT
    else if c == C_RSQRB then CLOSE_ARRAY
    else if c == C_COMMA then COMMA
    else REJECT
  }

  function Only(c: int, want: int, next: int): int {
    if c == want then next else REJECT
  }

  // The rows of state_transition_table, in four groups: the next state, or what
  // to do.

  function StructureMove(s: int, c: int): int {
    if s == GO then if White(c) then GO else if c == C_LCURB then OPEN_OBJECT else Only(c, C_LSQRB, OPEN_ARRAY)
    else if s == OK then EndMove(c)
    else if s == OB then if White(c) then OB else if c == C_RCURB then CLOSE_EMPTY else Only(c, C_QUOTE, ST)
    else if s == KE then if White(c) then KE else Only(c, C_QUOTE, ST)
    else if s == CO then if White(c) then CO else Only(c, C_COLON, COLON)
    else if s == VA then if White(c) then VA else ValueMove(c)
    else if White(c) then AR else if c == C_RSQRB then CLOSE_ARRAY else ValueMove(c)  // AR
  }

  function StringMove(s: int, c: int): int {
    if s == ST then if c == C_WHITE then REJECT else if c == C_QUOTE then QUOTE else if c == C_BACKS then ES else ST
    else if s == ES then
      if c == C_QUOTE || c == C_BACKS || c == C_SLASH || c == C_LOW_B || c == C_LOW_F || c == C_LOW_N || c == C_LOW_R || c == C_LOW_T
      then ST
      else Only(c, C_LOW_U, U1)
    else if Hex(c) then if s == U4 then ST else s + 1
    else REJECT
  }

  function NumberMove(s: int, c: int): int {
    if s == MI then if c == C_ZERO then ZE else Only(c, C_DIGIT, IN)
    else if s == ZE then if c == C_POINT then FR else EndMove(c)
    else if s == IN then
      if c == C_POINT then FR else if Digit(c) then IN else if c == C_LOW_E || c == C_E then E1 else EndMove(c)
    else if s == FR then if Digit(c) then FR else if c == C_LOW_E || c == C_E then E1 else EndMove(c)
    else if s == E1 then if c == C_PLUS || c == C_MINUS then E2 else if Digit(c) then E3 else REJECT
    else if s == E2 then if Digit(c) then E3 else REJECT
    else if Digit(c) then E3 else EndMove(c)  // E3
  }

  function WordMove(s: int, c: int): int {
    if s == T1 then Only(c, C_LOW_R, T2)
    else if s == T2 then Only(c, C_LOW_U, T3)
    else if s == F1 then Only(c, C_LOW_A, F2)
    else if s == F2 then Only(c, C_LOW_L, F3)
    else if s == F3 then Only(c, C_LOW_S, F4)
    else if s == N1 then Only(c, C_LOW_U, N2)
    else if s == N2 then Only(c, C_LOW_L, N3)
    else if s == N3 then Only(c, C_LOW_L, OK)
    else Only(c, C_LOW_E, OK)  // T3, F4
  }

  predicate InStructure(s: int) {
    GO <= s <= AR
  }

  predicate InString(s: int) {
    ST <= s <= U4
  }

  predicate InNumber(s: int) {
    MI <= s <= E3
  }

  /** state_transition_table. */
  function Transition(s: int, c: int): int {
    if InStructure(s) then StructureMove(s, c)
    else if InString(s) then StringMove(s, c)
    else if InNumber(s) then NumberMove(s, c)
    else WordMove(s, c)
  }

  // ----- the automaton, as a function -----

  /** The state and the part of the stack in use, bottom first; Rejected is final. */
  datatype Conf = Conf(state: int, stack: seq<Mode>) | Rejected

  function Pushed(state: int, stack: seq<Mode>, mode: Mode, depth: nat): Conf {
    if |stack| >= depth then Rejected else Conf(state, stack + [mode])
  }

  function Popped(state: int, stack: seq<Mode>, mode: Mode): Conf {
    if stack == [] || stack[|stack| - 1] != mode then Rejected else Conf(state, stack[..|stack| - 1])
  }

  /** The top of the stack changes, its height does not. */
  function Exchanged(state: int, stack: seq<Mode>, mode: Mode, new_: Mode): Conf {
    if stack == [] || stack[|stack| - 1] != mode then Rejected else Conf(state, stack[..|stack| - 1] + [new_])
  }

  function Top(stack: seq<Mode>): Mode {
    if stack == [] then MODE_DONE else stack[|stack| - 1]
  }

  function Act(move: int, stack: seq<Mode>, depth: nat): Conf {
    if move >= 0 then Conf(move, stack)
    else if move == CLOSE_EMPTY then Popped(OK, stack, MODE_KEY)
    else if move == CLOSE_OBJECT then Popped(OK, stack, MODE_OBJECT)
    else if move == CLOSE_ARRAY then Popped(OK, stack, MODE_ARRAY)
    else if move == OPEN_OBJECT then Pushed(OB, stack, MODE_KEY, depth)
    else if move == OPEN_ARRAY then Pushed(AR, stack, MODE_ARRAY, depth)
    else if move == QUOTE then
      if Top(stack) == MODE_KEY then Conf(CO, stack) else if Top(stack) == MODE_DONE then Rejected else Conf(OK, stack)
    else if move == COMMA then
      if Top(stack) == MODE_OBJECT then Exchanged(KE, stack, MODE_OBJECT, MODE_KEY)
      else if Top(stack) == MODE_ARRAY then Conf(VA, stack)
      else Rejected
    else if move == COLON then Exchanged(VA, stack, MODE_KEY, MODE_OBJECT)
    else Rejected
  }

  /** json_check_char. */
  function Step(conf: Conf, c: char, depth: nat): Conf {
    if conf.Rejected? || ClassOf(c) == C_NONE then Rejected
    else Act(Transition(conf.state, ClassOf(c)), conf.stack, depth)
  }

  function Steps(conf: Conf, s: string, depth: nat): Conf
    decreases |s|
  {
    if s == [] then conf else Steps(Step(conf, s[0], depth), s[1..], depth)
  }

  predicate Done(conf: Conf) {
    conf.Conf? && conf.state == OK && Top(conf.stack) == MODE_DONE && conf.stack != []
  }

  const START := Conf(GO, [MODE_DONE])

  /** Texts the checker accepts with a stack of the given size. */
  predicate Accepts(s: string, depth: nat) {
    Done(Steps(START, s, depth))
  }

  lemma {:induction false} StepsRejected(s: string, depth: nat)
    ensures Steps(Rejected, s, depth) == Rejected
    decreases |s|
  {
    if s != [] {
      StepsRejected(s[1..], depth);
    }
  }

  lemma {:induction false} StepsConcat(conf: Conf, a: string, b: string, depth: nat)
    ensures Steps(conf, a + b, depth) == Steps(Steps(conf, a, depth), b, depth)
    decreases |a|
  {
    hide Step;
    if a == [] {
      assert a + b == b;
    } else {
      assert (a + b)[1..] == a[1..] + b;
      StepsConcat(Step(conf, a[0], depth), a[1..], b, depth);
    }
  }

  // ----- the automaton itself -----

  class Checker {
    var state: int
    const depth: nat
    var top: int
    const stack: array<Mode>

    ghost predicate Valid()
      reads this
    {
      stack.Length == depth && 0 <= top < depth
    }

    ghost function Now(): Conf
      requires Valid()
      reads this, stack
    {
      Conf(state, stack[..top + 1])
    }

    /** new_json_check. */
    constructor (depth: nat)
      requires 0 < depth
      ensures Valid() && Now() == START && this.depth == depth && fresh(stack)
    {
      state, top := GO, 0;
      this.depth := depth;
      stack := new Mode[depth](_ => MODE_DONE);
      new;
      assert stack[..1] == [MODE_DONE];
    }

    /** push. */
    method Push(mode: Mode) returns (ok: bool)
      requires stack.Length == depth && -1 <= top < depth
      modifies `top, stack
      ensures ok <==> old(top) + 1 < depth
      ensures ok ==> Valid() && stack[..top + 1] == old(stack[..top + 1]) + [mode]
    {
      top := top + 1;
      if top >= depth {
        return false;
      }
      stack[top] := mode;
      ok := true;
    }

    /** pop. */
    method Pop(mode: Mode) returns (ok: bool)
      requires Valid()
      modifies `top
      ensures ok <==> stack[old(top)] == mode
      ensures top == if ok then old(top) - 1 else old(top)
    {
      if top < 0 || stack[top] != mode {
        return false;
      }
      top := top - 1;
      ok := true;
    }

    /** json_check_char: false when the text is rejected. */
    method Char(c: char) returns (ok: bool)
      requires Valid() && stack[0] == MODE_DONE
      modifies this, stack
      ensures var r := Step(old(Now()), c, depth);
        if ok then Valid() && Now() == r && stack[0] == MODE_DONE else r.Rejected?
    {
      hide Transition, ClassOf, Act;
      var cls := ClassOf(c);
      if cls == C_NONE {
        return false;
      }
      ok := Apply(Transition(state, cls));
    }

    /** The switch of json_check_char. */
    method Apply(move: int) returns (ok: bool)
      requires Valid() && stack[0] == MODE_DONE
      modifies this, stack
      ensures var r := Act(move, old(stack[..top + 1]), depth);
        if ok then Valid() && Now() == r && stack[0] == MODE_DONE else r.Rejected?
    {
      ok := true;
      if move >= 0 {
        state := move;
      } else if move == CLOSE_EMPTY {
        ok := Close(MODE_KEY);
      } else if move == CLOSE_OBJECT {
        ok := Close(MODE_OBJECT);
      } else if move == CLOSE_ARRAY {
        ok := Close(MODE_ARRAY);
      } else if move == OPEN_OBJECT {
        ok := Open(OB, MODE_KEY);
      } else if move == OPEN_ARRAY {
        ok := Open(AR, MODE_ARRAY);
      } else if move == QUOTE {
        ok := EndString();
      } else if move == COMMA {
        ok := NextMember();
      } else if move == COLON {
        ok := Change(VA, MODE_KEY, MODE_OBJECT);
      } else {
        ok := false;
      }
    }

    method Open(next: int, mode: Mode) returns (ok: bool)
      requires Valid() && stack[0] == MODE_DONE
      modifies this, stack
      ensures var r := Pushed(next, old(stack[..top + 1]), mode, depth);
        if ok then Valid() && Now() == r && stack[0] == MODE_DONE else r.Rejected?
    {
      ghost var was := stack[..top + 1];
      ok := Push(mode);
      if ok {
        state := next;
        assert stack[..top + 1][0] == was[0];
      }
    }

    /** Back to the state after a value. */
    method Close(mode: Mode) returns (ok: bool)
      requires Valid() && stack[0] == MODE_DONE && mode != MODE_DONE
      modifies this
      ensures var r := Popped(OK, old(stack[..top + 1]), mode);
        if ok then Valid() && Now() == r && stack[0] == MODE_DONE else r.Rejected?
    {
      ok := Pop(mode);
      if ok {
        state := OK;
      }
    }

    method Change(next: int, mode: Mode, new_: Mode) returns (ok: bool)
      requires Valid() && stack[0] == MODE_DONE && mode != MODE_DONE
      modifies this, stack
      ensures var r := Exchanged(next, old(stack[..top + 1]), mode, new_);
        if ok then Valid() && Now() == r && stack[0] == MODE_DONE else r.Rejected?
    {
      ghost var was := stack[..top + 1];
      ok := Pop(mode);
      if ok {
        assert stack[..top + 1] == was[..|was| - 1] && was[0] == MODE_DONE;
        ok := Push(new_);
        state := next;
        assert stack[..top + 1][0] == was[0];
      }
    }

    method EndString() returns (ok: bool)
      requires Valid() && stack[0] == MODE_DONE
      modifies `state
      ensures var r := Act(QUOTE, old(stack[..top + 1]), depth);
        if ok then Valid() && Now() == r && stack[0] == MODE_DONE else r.Rejected?
    {
      ok := true;
      match stack[top] {
        case MODE_KEY => state := CO;
        case MODE_DONE => ok := false;
        case _ => state := OK;
      }
    }

    method NextMember() returns (ok: bool)
      requires Valid() && stack[0] == MODE_DONE
      modifies this, stack
      ensures var r := Act(COMMA, old(stack[..top + 1]), depth);
        if ok then Valid() && Now() == r && stack[0] == MODE_DONE else r.Rejected?
    {
      match stack[top] {
        case MODE_OBJECT => ok := Change(KE, MODE_OBJECT, MODE_KEY);
        case MODE_ARRAY =>
          state := VA;
          ok := true;
        case _ => ok := false;
      }
    }

    /** json_check_done. */
    method Finish() returns (ok: bool)
      requires Valid() && stack[0] == MODE_DONE
      modifies `top
      ensures ok <==> Done(old(Now()))
    {
      if state != OK {
        return false;
      }
      ok := Pop(MODE_DONE);
    }
  }

  /** The part of a text that json_valid looks at: it stops at the terminating
      zero, and at the first byte that is negative as a signed char. */
  function Seen(json: string): string {
    if json == [] || json[0] == '\0' || json[0] > '\U{7f}' then [] else [json[0]] + Seen(json[1..])
  }

  lemma SeenStep(json: string, i: nat, conf: Conf, depth: nat)
    requires i < |json| && json[i] != '\0' && json[i] <= '\U{7f}'
    ensures Seen(json[i..]) == [json[i]] + Seen(json[i + 1..])
    ensures Steps(conf, Seen(json[i..]), depth) == Steps(Step(conf, json[i], depth), Seen(json[i + 1..]), depth)
  {
    hide Step;
    assert json[i..][1..] == json[i + 1..];
    assert Seen(json[i..])[1..] == Seen(json[i + 1..]);
  }
}

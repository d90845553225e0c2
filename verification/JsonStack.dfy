/**
 * What the stack of the syntax checker means: it holds exactly the brackets
 * that are open, and the state says what its top can be.
 */
module JsonStack {
  import opened JsonCheck

  /** Brackets outside strings, read without any grammar: those still open, and
      whether the text ends inside a string or behind a backslash in one. */
  datatype Scan = Scan(open: string, inside: bool, escaped: bool)

  function Scanned(s: string): Scan {
    if s == [] then Scan([], false, false) else ScanChar(Scanned(s[..|s| - 1]), s[|s| - 1])
  }

  function ScanChar(p: Scan, c: char): Scan {
    if p.inside then
      if p.escaped then p.(escaped := false)
      else if c == '\\' then p.(escaped := true)
      else if c == '"' then p.(inside := false)
      else p
    else if c == '"' then p.(inside := true)
    else if c == '{' || c == '[' then p.(open := p.open + [c])
    else if (c == '}' || c == ']') && p.open != [] then p.(open := p.open[..|p.open| - 1])
    else p
  }

  /** What the top of the stack can be in a state. */
  predicate TopOk(s: int, top: Mode) {
    if s == GO then top == MODE_DONE
    else if s == OK then top != MODE_KEY
    else if s == OB || s == KE || s == CO then top == MODE_KEY
    else if s == AR then top == MODE_ARRAY
    else if InString(s) then top != MODE_DONE
    else GO <= s <= N3 && (top == MODE_ARRAY || top == MODE_OBJECT)
  }

  /** The mode of an open bracket; that of an object is about a key only while
      the object is innermost. */
  predicate ModeFits(mode: Mode, bracket: char, innermost: bool) {
    if bracket == '[' then mode == MODE_ARRAY
    else bracket == '{' && (mode == MODE_OBJECT || (innermost && mode == MODE_KEY))
  }

  predicate StackFits(stack: seq<Mode>, open: string) {
    && |stack| == |open| + 1 && stack[0] == MODE_DONE
    && forall i | 0 <= i < |open| :: ModeFits(stack[i + 1], open[i], i == |open| - 1)
  }

  predicate Fits(conf: Conf, p: Scan, depth: nat)
    requires conf.Conf?
  {
    && StackFits(conf.stack, p.open) && |p.open| < depth
    && TopOk(conf.state, Top(conf.stack))
    && (p.inside <==> InString(conf.state)) && (p.escaped <==> conf.state == ES)
  }

  lemma ClassFacts(c: char)
    ensures c == '"' <==> ClassOf(c) == C_QUOTE
    ensures c == '\\' <==> ClassOf(c) == C_BACKS
    ensures c == '{' <==> ClassOf(c) == C_LCURB
    ensures c == '[' <==> ClassOf(c) == C_LSQRB
    ensures c == '}' <==> ClassOf(c) == C_RCURB
    ensures c == ']' <==> ClassOf(c) == C_RSQRB
    ensures c == ',' <==> ClassOf(c) == C_COMMA
    ensures c == ':' <==> ClassOf(c) == C_COLON
  {
  }

  lemma PushFits(stack: seq<Mode>, open: string, mode: Mode, c: char)
    requires StackFits(stack, open) && Top(stack) != MODE_KEY && ModeFits(mode, c, true)
    ensures StackFits(stack + [mode], open + [c]) && Top(stack + [mode]) == mode
  {
  }

  lemma PopFits(stack: seq<Mode>, open: string)
    requires StackFits(stack, open) && Top(stack) != MODE_DONE
    ensures open != [] && StackFits(stack[..|stack| - 1], open[..|open| - 1]) && Top(stack[..|stack| - 1]) != MODE_KEY
  {
    var s, o := stack[..|stack| - 1], open[..|open| - 1];
    forall i | 0 <= i < |o| ensures ModeFits(s[i + 1], o[i], i == |o| - 1) {
      assert ModeFits(stack[i + 1], open[i], i == |open| - 1);
    }
    if o != [] {
      assert ModeFits(stack[|o|], open[|o| - 1], false);
    }
  }

  lemma ExchangeFits(stack: seq<Mode>, open: string, mode: Mode)
    requires StackFits(stack, open) && (Top(stack) == MODE_KEY || Top(stack) == MODE_OBJECT) && (mode == MODE_KEY || mode == MODE_OBJECT)
    ensures StackFits(stack[..|stack| - 1] + [mode], open) && Top(stack[..|stack| - 1] + [mode]) == mode
  {
  }

  predicate Bracket(c: int) {
    c == C_LCURB || c == C_RCURB || c == C_LSQRB || c == C_RSQRB
  }

  /** The moves that leave the stack alone. */
  predicate ToFits(s: int, c: int, top: Mode, s': int) {
    && TopOk(s', top)
    && (InString(s) ==> InString(s') && (s' == ES <==> s == ST && c == C_BACKS) && (c == C_QUOTE ==> s == ES) && (c == C_BACKS ==> s == ST || s == ES))
    && (!InString(s) ==> s' != ES && (InString(s') <==> c == C_QUOTE) && !Bracket(c))
  }

  /** The other moves: which characters, in which states. */
  predicate ActKnown(s: int, c: int, top: Mode, m: int) {
    && (m == CLOSE_OBJECT || m == CLOSE_EMPTY ==> c == C_RCURB && !InString(s))
    && (m == CLOSE_ARRAY ==> c == C_RSQRB && !InString(s))
    && (m == OPEN_OBJECT ==> c == C_LCURB && !InString(s) && top != MODE_KEY)
    && (m == OPEN_ARRAY ==> c == C_LSQRB && !InString(s) && top != MODE_KEY)
    && (m == QUOTE ==> c == C_QUOTE && s == ST)
    && (m == COMMA ==> c == C_COMMA && !InString(s))
    && (m == COLON ==> c == C_COLON && s == CO)
  }

  predicate MoveFits(s: int, c: int, top: Mode, m: int) {
    if m >= 0 then ToFits(s, c, top, m) else ActKnown(s, c, top, m)
  }

  lemma Moves(s: int, c: int, top: Mode)
    requires TopOk(s, top)
    ensures MoveFits(s, c, top, Transition(s, c))
  {
    hide MoveFits, StructureMove, StringMove, NumberMove, WordMove, TopOk;
    if InStructure(s) {
      StructureMoves(s, c, top);
    } else if InString(s) {
      StringMoves(s, c, top);
    } else if InNumber(s) {
      NumberMoves(s, c, top);
    } else {
      WordMoves(s, c, top);
    }
  }

  lemma StructureMoves(s: int, c: int, top: Mode)
    requires InStructure(s) && TopOk(s, top)
    ensures MoveFits(s, c, top, StructureMove(s, c))
  {
  }

  lemma StringMoves(s: int, c: int, top: Mode)
    requires InString(s) && TopOk(s, top)
    ensures MoveFits(s, c, top, StringMove(s, c))
  {
  }

  lemma NumberMoves(s: int, c: int, top: Mode)
    requires InNumber(s) && TopOk(s, top)
    ensures MoveFits(s, c, top, NumberMove(s, c))
  {
  }

  lemma WordMoves(s: int, c: int, top: Mode)
    requires !InStructure(s) && !InString(s) && !InNumber(s) && TopOk(s, top)
    ensures MoveFits(s, c, top, WordMove(s, c))
  {
  }

  /** Every step keeps the meaning of the stack. */
  lemma StepFits(conf: Conf, p: Scan, c: char, depth: nat)
    requires conf.Conf? && Fits(conf, p, depth) && Step(conf, c, depth).Conf?
    ensures Fits(Step(conf, c, depth), ScanChar(p, c), depth)
  {
    ClassFacts(c);
    hide ClassOf, StackFits, Transition;
    var stack, open, cls := conf.stack, p.open, ClassOf(c);
    var move := Transition(conf.state, cls);
    Moves(conf.state, cls, Top(stack));
    if move < 0 {
      if move == QUOTE {
        QuoteFits(stack, open);
      } else {
        ActFits(conf.state, stack, open, move, c, depth);
      }
    }
  }

  lemma QuoteFits(stack: seq<Mode>, open: string)
    requires Top(stack) != MODE_DONE
    ensures TopOk(if Top(stack) == MODE_KEY then CO else OK, Top(stack))
  {
  }

  lemma ActFits(s: int, stack: seq<Mode>, open: string, move: int, c: char, depth: nat)
    requires StackFits(stack, open) && |open| < depth && move < 0 && move != QUOTE && Act(move, stack, depth).Conf?
    requires (move == CLOSE_OBJECT || move == CLOSE_EMPTY ==> c == '}') && (move == CLOSE_ARRAY ==> c == ']')
    requires (move == OPEN_OBJECT ==> c == '{' && Top(stack) != MODE_KEY) && (move == OPEN_ARRAY ==> c == '[' && Top(stack) != MODE_KEY)
    requires move == COMMA || move == COLON ==> c == ',' || c == ':'
    ensures var r := Act(move, stack, depth);
      && Fits(r, ScanChar(Scan(open, false, false), c), depth)
  {
    hide StackFits;
    if move == CLOSE_EMPTY || move == CLOSE_OBJECT || move == CLOSE_ARRAY {
      PopFits(stack, open);
    } else if move == OPEN_OBJECT {
      PushFits(stack, open, MODE_KEY, c);
    } else if move == OPEN_ARRAY {
      PushFits(stack, open, MODE_ARRAY, c);
    } else if move == COMMA && Top(stack) == MODE_OBJECT {
      ExchangeFits(stack, open, MODE_KEY);
    } else if move == COLON {
      ExchangeFits(stack, open, MODE_OBJECT);
    }
  }

  // ----- whole texts -----

  /** In every reachable state the stack is MODE_DONE and the open brackets. */
  lemma {:induction false} ReachableFits(s: string, depth: nat)
    requires 0 < depth && Steps(START, s, depth).Conf?
    ensures Fits(Steps(START, s, depth), Scanned(s), depth)
    decreases |s|
  {
    hide Step;
    if s != [] {
      var t, c := s[..|s| - 1], s[|s| - 1];
      assert s == t + [c];
      StepsConcat(START, t, [c], depth);
      StepsOne(Steps(START, t, depth), c, depth);
      StepRejected(c, depth);
      ReachableFits(t, depth);
      StepFits(Steps(START, t, depth), Scanned(t), c, depth);
    }
  }

  lemma StepsOne(conf: Conf, c: char, depth: nat)
    ensures Steps(conf, [c], depth) == Step(conf, c, depth)
  {
    hide Step;
    assert [c][1..] == [];
    assert Steps(Step(conf, c, depth), [], depth) == Step(conf, c, depth);
  }

  lemma StepRejected(c: char, depth: nat)
    ensures Step(Rejected, c, depth) == Rejected
  {
  }

  lemma LastFits(stack: seq<Mode>, open: string)
    requires StackFits(stack, open) && open != []
    ensures Top(stack) != MODE_DONE
  {
    assert ModeFits(stack[|open|], open[|open| - 1], true);
  }

  lemma TopDone(stack: seq<Mode>, open: string)
    requires StackFits(stack, open) && Top(stack) == MODE_DONE
    ensures open == []
  {
    if open != [] {
      LastFits(stack, open);
    }
  }

  /** Accepted texts have all their brackets closed and end outside strings. */
  lemma AcceptedBalanced(s: string, depth: nat)
    requires 0 < depth && Accepts(s, depth)
    ensures Scanned(s) == Scan([], false, false)
  {
    ReachableFits(s, depth);
    TopDone(Steps(START, s, depth).stack, Scanned(s).open);
  }
}

/**
 * Whatever the syntax checker accepts has a derivation. While it reads, what
 * it has seen so far is a derivation with a gap: the containers that are open,
 * outermost first, and what is being read inside the innermost of them.
 */
module JsonDerivation {
  import opened JsonCheck
  import opened JsonGrammar
  import opened JsonStack
  import opened JsonRuns

  /** An open container up to where one of its values has to come. */
  datatype Frame =
    | InArray(elements: seq<Element>, before: string)
    | InObject(members: seq<Member>, lead: string, key: string, gap: string, before: string)

  /** What is being read. */
  datatype Place =
    | Begin
    | Expect
    | Key(members: seq<Member>, pad: string)
    | PartKey(members: seq<Member>, lead: string, body: string, tail: string)
    | Colon(members: seq<Member>, lead: string, key: string, gap: string)
    | PartString(body: string, tail: string)
    | PartNumber(number: Number)
    | PartWord(text: string)
    | After(value: Value, pad: string)

  datatype Partial = Partial(lead: string, frames: seq<Frame>, place: Place)

  // ----- the text read so far -----

  function FrameText(f: Frame): string {
    match f
    case InArray(es, before) => "[" + Elements(es) + before
    case InObject(ms, lead, key, gap, before) => "{" + Members(ms) + lead + key + gap + ":" + before
  }

  function FramesText(fs: seq<Frame>): string {
    if fs == [] then [] else FramesText(fs[..|fs| - 1]) + FrameText(fs[|fs| - 1])
  }

  function PlaceText(p: Place): string {
    match p
    case Begin => []
    case Expect => []
    case Key(ms, pad) => "{" + Members(ms) + pad
    case PartKey(ms, lead, body, tail) => "{" + Members(ms) + lead + "\"" + body + tail
    case Colon(ms, lead, key, gap) => "{" + Members(ms) + lead + key + gap
    case PartString(body, tail) => "\"" + body + tail
    case PartNumber(n) => NumberText(n)
    case PartWord(text) => text
    case After(v, pad) => Text(v) + pad
  }

  function PartialText(z: Partial): string {
    z.lead + FramesText(z.frames) + PlaceText(z.place)
  }

  // ----- what it has to do with the state and the stack -----

  function FrameMode(f: Frame): Mode {
    if f.InArray? then MODE_ARRAY else MODE_OBJECT
  }

  function Modes(fs: seq<Frame>): seq<Mode> {
    if fs == [] then [MODE_DONE] else Modes(fs[..|fs| - 1]) + [FrameMode(fs[|fs| - 1])]
  }

  /** Inside an object, where no value is due. */
  predicate Keyed(p: Place) {
    p.Key? || p.PartKey? || p.Colon?
  }

  function StackOf(modes: seq<Mode>, p: Place): seq<Mode> {
    if Keyed(p) then modes + [MODE_KEY] else modes
  }

  predicate ElementsOk(es: seq<Element>, room: int) {
    forall i | 0 <= i < |es| :: ElementOk(es[i], room)
  }

  predicate MembersOk(ms: seq<Member>, room: int) {
    forall i | 0 <= i < |ms| :: MemberOk(ms[i], room)
  }

  predicate FrameOk(f: Frame, room: int) {
    match f
    case InArray(es, before) => ElementsOk(es, room) && Spaces(before)
    case InObject(ms, lead, key, gap, before) =>
      MembersOk(ms, room) && Spaces(lead) && Quoted(key) && Spaces(gap) && Spaces(before)
  }

  predicate FramesOk(fs: seq<Frame>, room: int) {
    forall i | 0 <= i < |fs| :: FrameOk(fs[i], room - (i + 1))
  }

  /** A string so far: whole characters, and the beginning of an escape. */
  predicate StringAt(s: int, body: string, tail: string) {
    && Chars(body)
    && if s == ST then tail == [] else if s == ES then tail == "\\" else UnicodeAt(s, tail)
  }

  predicate UnicodeAt(s: int, tail: string) {
    && U1 <= s <= U4 && |tail| == 2 + (s - U1) && tail[0] == '\\' && tail[1] == 'u'
    && forall i | 2 <= i < |tail| :: HexNumeral(tail[i])
  }

  predicate ExponentAt(s: int, e: string) {
    if s == E3 then Exponent(e)
    else |e| > 0 && (e[0] == 'e' || e[0] == 'E') && if s == E1 then |e| == 1 else s == E2 && |e| == 2 && (e[1] == '+' || e[1] == '-')
  }

  predicate NumberAt(s: int, n: Number) {
    if s == MI then n == Number(true, [], false, [], [])
    else
      && Whole(n.whole) && Digits(n.fraction) && (!n.point ==> n.fraction == [])
      && if s == ZE then n.whole == "0" && !n.point && n.exponent == []
         else if s == IN then n.whole != "0" && !n.point && n.exponent == []
         else if s == FR then n.point && n.exponent == []
         else (n.whole == "0" ==> n.point) && ExponentAt(s, n.exponent)
  }

  predicate WordAt(s: int, text: string) {
    || (s == T1 && text == "t") || (s == T2 && text == "tr") || (s == T3 && text == "tru")
    || (s == F1 && text == "f") || (s == F2 && text == "fa") || (s == F3 && text == "fal") || (s == F4 && text == "fals")
    || (s == N1 && text == "n") || (s == N2 && text == "nu") || (s == N3 && text == "nul")
  }

  /** In an array without elements yet. */
  predicate Fresh(fs: seq<Frame>) {
    fs != [] && fs[|fs| - 1].InArray? && fs[|fs| - 1].elements == []
  }

  predicate PlaceOk(p: Place, fs: seq<Frame>, s: int, room: int) {
    match p
    case Begin => s == GO && fs == []
    case Expect => s == (if Fresh(fs) then AR else VA) && fs != []
    case Key(ms, pad) => s == (if ms == [] then OB else KE) && MembersOk(ms, room - 1) && Spaces(pad)
    case PartKey(ms, lead, body, tail) => MembersOk(ms, room - 1) && Spaces(lead) && StringAt(s, body, tail)
    case Colon(ms, lead, key, gap) => s == CO && MembersOk(ms, room - 1) && Spaces(lead) && Quoted(key) && Spaces(gap)
    case PartString(body, tail) => fs != [] && StringAt(s, body, tail)
    case PartNumber(n) => fs != [] && MI <= s <= E3 && NumberAt(s, n)
    case PartWord(text) => fs != [] && WordAt(s, text)
    case After(v, pad) => s == OK && ValueOk(v, room) && Spaces(pad) && (fs == [] ==> v.Array? || v.Object?)
  }

  predicate Holds(z: Partial, conf: Conf, depth: nat) {
    && conf.Conf? && conf.stack == StackOf(Modes(z.frames), z.place) && |conf.stack| <= depth
    && Spaces(z.lead) && FramesOk(z.frames, depth - 1)
    && PlaceOk(z.place, z.frames, conf.state, depth - 1 - |z.frames|)
  }

  // ----- the ways a partial derivation can grow -----

  predicate Grown(z: Partial, z': Partial, conf': Conf, c: char, depth: nat) {
    Holds(z', conf', depth) && PartialText(z') == PartialText(z) + [c]
  }

  /** Inside the same containers. */
  lemma Stay(z: Partial, conf: Conf, p: Place, s: int, c: char, depth: nat)
    requires Holds(z, conf, depth) && Keyed(p) == Keyed(z.place)
    requires PlaceOk(p, z.frames, s, depth - 1 - |z.frames|) && PlaceText(p) == PlaceText(z.place) + [c]
    ensures Grown(z, z.(place := p), Conf(s, conf.stack), c, depth)
  {
    hide PlaceText, PlaceOk, FramesText, Keyed, Modes, FramesOk, Spaces;
  }

  lemma FramesSnoc(fs: seq<Frame>, f: Frame, room: int)
    ensures Modes(fs + [f]) == Modes(fs) + [FrameMode(f)]
    ensures FramesOk(fs + [f], room) <==> FramesOk(fs, room) && FrameOk(f, room - |fs| - 1)
  {
    hide FrameOk, FrameMode, FramesOk;
    var all := fs + [f];
    assert all[..|all| - 1] == fs && all[|fs|] == f;
    FramesOkSnoc(fs, f, room);
  }

  lemma FramesOkSnoc(fs: seq<Frame>, f: Frame, room: int)
    ensures FramesOk(fs + [f], room) <==> FramesOk(fs, room) && FrameOk(f, room - |fs| - 1)
  {
    hide FrameOk;
    var all := fs + [f];
    assert all[|fs|] == f;
    assert forall i | 0 <= i < |fs| :: all[i] == fs[i];
  }

  lemma {:induction false} ModesSize(fs: seq<Frame>)
    ensures |Modes(fs)| == |fs| + 1
  {
    if fs != [] {
      ModesSize(fs[..|fs| - 1]);
    }
  }

  lemma FramesTextSnoc(fs: seq<Frame>, f: Frame)
    ensures FramesText(fs + [f]) == FramesText(fs) + FrameText(f)
  {
    hide FrameText;
    var all := fs + [f];
    assert all[..|all| - 1] == fs && all[|all| - 1] == f;
  }

  lemma Moved(lead: string, front: string, last: string, here: string, last': string, here': string, c: char)
    requires last' + here' == last + here + [c]
    ensures lead + (front + last') + here' == lead + (front + last) + here + [c]
  {
    assert lead + (front + last') + here' == lead + front + (last' + here');
    assert lead + (front + last) + here + [c] == lead + front + (last + here + [c]);
  }

  /** With the innermost open container changed. */
  lemma Change(z: Partial, conf: Conf, fs: seq<Frame>, last: Frame, f: Frame, p: Place, s: int, c: char, depth: nat)
    requires Holds(z, conf, depth) && Keyed(p) == Keyed(z.place) && z.frames == fs + [last]
    requires FrameMode(f) == FrameMode(last) && FrameOk(f, depth - 2 - |fs|)
    requires PlaceOk(p, fs + [f], s, depth - 2 - |fs|)
    requires FrameText(f) + PlaceText(p) == FrameText(last) + PlaceText(z.place) + [c]
    ensures Grown(z, Partial(z.lead, fs + [f], p), Conf(s, conf.stack), c, depth)
  {
    FramesTextSnoc(fs, last);
    FramesTextSnoc(fs, f);
    FramesSnoc(fs, last, depth - 1);
    FramesSnoc(fs, f, depth - 1);
    hide PlaceText, PlaceOk, FramesText, FrameText, FrameOk, FrameMode, Keyed, Modes, FramesOk, Spaces;
    Moved(z.lead, FramesText(fs), FrameText(last), PlaceText(z.place), FrameText(f), PlaceText(p), c);
  }

  /** With the innermost open container closed, or reopened for a key. */
  lemma Leave(z: Partial, conf: Conf, fs: seq<Frame>, last: Frame, p: Place, s: int, c: char, depth: nat)
    requires Holds(z, conf, depth) && !Keyed(z.place) && z.frames == fs + [last]
    requires PlaceOk(p, fs, s, depth - 1 - |fs|) && PlaceText(p) == FrameText(last) + PlaceText(z.place) + [c]
    ensures Grown(z, Partial(z.lead, fs, p), Conf(s, StackOf(conf.stack[..|conf.stack| - 1], p)), c, depth)
    ensures Top(conf.stack) == FrameMode(last)
  {
    FramesTextSnoc(fs, last);
    FramesSnoc(fs, last, depth - 1);
    hide PlaceText, PlaceOk, FramesText, FrameText, FrameOk, FrameMode, Keyed, Modes, FramesOk, Spaces;
    assert conf.stack[..|conf.stack| - 1] == Modes(fs);
    Moved(z.lead, FramesText(fs), FrameText(last), PlaceText(z.place), [], PlaceText(p), c);
    assert FramesText(fs) + [] == FramesText(fs) && [] + PlaceText(p) == PlaceText(p);
  }

  /** With one more container open. */
  lemma Enter(z: Partial, conf: Conf, stack: seq<Mode>, f: Frame, c: char, depth: nat)
    requires Holds(z, conf, depth) && |z.frames| + 1 < depth
    requires FrameOk(f, depth - 2 - |z.frames|) && FrameText(f) == PlaceText(z.place) + [c]
    requires stack == Modes(z.frames) + [FrameMode(f)]
    ensures Grown(z, Partial(z.lead, z.frames + [f], Expect), Conf(if Fresh(z.frames + [f]) then AR else VA, stack), c, depth)
  {
    hide PlaceText, PlaceOk, FramesText, FrameText, FrameOk, FrameMode, Keyed, Modes, FramesOk, Fresh, Holds, PartialText;
    EnterText(z, f, c);
    EnterHolds(z, conf, stack, f, depth);
  }

  lemma EnterText(z: Partial, f: Frame, c: char)
    requires FrameText(f) == PlaceText(z.place) + [c]
    ensures PartialText(Partial(z.lead, z.frames + [f], Expect)) == PartialText(z) + [c]
  {
    FramesTextSnoc(z.frames, f);
    Empty([f], 0);
    hide PlaceText, FramesText, FrameText, PlaceOk, Fresh, Keyed;
    Moved(z.lead, FramesText(z.frames), [], PlaceText(z.place), FrameText(f), [], c);
    assert FramesText(z.frames) + [] == FramesText(z.frames);
    assert [] + PlaceText(z.place) == PlaceText(z.place) && FrameText(f) + [] == FrameText(f);
  }

  lemma EnterHolds(z: Partial, conf: Conf, stack: seq<Mode>, f: Frame, depth: nat)
    requires Holds(z, conf, depth) && |z.frames| + 1 < depth && FrameOk(f, depth - 2 - |z.frames|)
    requires stack == Modes(z.frames) + [FrameMode(f)]
    ensures Holds(Partial(z.lead, z.frames + [f], Expect), Conf(if Fresh(z.frames + [f]) then AR else VA, stack), depth)
  {
    var fs := z.frames + [f];
    FramesSnoc(z.frames, f, depth - 1);
    ModesSize(z.frames);
    Empty(fs, depth - 1 - |fs|);
    hide PlaceOk, FrameOk, FrameMode, Modes, Keyed, FramesOk, Fresh, Spaces;
  }

  lemma Empty(fs: seq<Frame>, room: int)
    requires fs != []
    ensures PlaceText(Expect) == [] && !Keyed(Expect)
    ensures PlaceOk(Expect, fs, if Fresh(fs) then AR else VA, room)
  {
  }

  /** Out of an object at a place where no value is due. */
  lemma LeaveKey(z: Partial, conf: Conf, p: Place, s: int, c: char, depth: nat)
    requires Holds(z, conf, depth) && Keyed(z.place) && !Keyed(p)
    requires PlaceOk(p, z.frames, s, depth - 1 - |z.frames|) && PlaceText(p) == PlaceText(z.place) + [c]
    ensures Top(conf.stack) == MODE_KEY
    ensures Grown(z, z.(place := p), Conf(s, conf.stack[..|conf.stack| - 1]), c, depth)
  {
    hide PlaceText, PlaceOk, FramesText, Keyed, Modes, FramesOk, Spaces;
  }

  lemma OpenObject(z: Partial, conf: Conf, c: char, depth: nat)
    requires Holds(z, conf, depth) && (z.place.Begin? || z.place.Expect?) && |conf.stack| < depth && c == '{'
    ensures Grown(z, z.(place := Key([], [])), Conf(OB, conf.stack + [MODE_KEY]), c, depth)
  {
    hide FramesText, FramesOk, Modes;
  }

  lemma OpenArray(z: Partial, conf: Conf, c: char, depth: nat)
    requires Holds(z, conf, depth) && (z.place.Begin? || z.place.Expect?) && |conf.stack| < depth && c == '['
    ensures Grown(z, Partial(z.lead, z.frames + [InArray([], [])], Expect), Conf(AR, conf.stack + [MODE_ARRAY]), c, depth)
  {
    hide FramesText, FramesOk, Modes;
    ModesSize(z.frames);
    assert FrameText(InArray([], [])) == "[";
    Enter(z, conf, conf.stack + [MODE_ARRAY], InArray([], []), c, depth);
  }

  /** The stack has the mode of the innermost container on top. */
  lemma Innermost(z: Partial, conf: Conf, depth: nat)
    requires Holds(z, conf, depth) && !Keyed(z.place) && z.frames != []
    ensures Top(conf.stack) == FrameMode(z.frames[|z.frames| - 1])
    ensures 1 <= depth - |z.frames|
  {
    ModesSize(z.frames);
  }

  // ----- the next character -----

  function Move(s: int, c: char): int {
    Transition(s, ClassOf(c))
  }

  predicate Allowed(s: int, c: char) {
    ClassOf(c) != C_NONE && Move(s, c) != REJECT
  }

  lemma StepIs(conf: Conf, c: char, depth: nat)
    requires conf.Conf? && Step(conf, c, depth).Conf?
    ensures Allowed(conf.state, c) && Step(conf, c, depth) == Act(Move(conf.state, c), conf.stack, depth)
  {
    hide Transition, ClassOf;
  }

  lemma BeginMoves(c: char)
    requires Allowed(GO, c)
    ensures || (Space(c) && Move(GO, c) == GO) || (c == '{' && Move(GO, c) == OPEN_OBJECT)
            || (c == '[' && Move(GO, c) == OPEN_ARRAY)
  {
  }

  lemma ExpectMoves(s: int, c: char)
    requires (s == VA || s == AR) && Allowed(s, c)
    ensures var m := Move(s, c);
      || (Space(c) && m == s) || (c == '{' && m == OPEN_OBJECT) || (c == '[' && m == OPEN_ARRAY)
      || (s == AR && c == ']' && m == CLOSE_ARRAY) || (c == '"' && m == ST)
      || (c == '-' && m == MI) || (c == '0' && m == ZE) || (Numeral(c) && c != '0' && m == IN)
      || (c == 't' && m == T1) || (c == 'f' && m == F1) || (c == 'n' && m == N1)
  {
  }

  lemma KeyMoves(s: int, c: char)
    requires (s == OB || s == KE) && Allowed(s, c)
    ensures var m := Move(s, c);
      (Space(c) && m == s) || (c == '"' && m == ST) || (s == OB && c == '}' && m == CLOSE_EMPTY)
  {
  }

  lemma ColonMoves(c: char)
    requires Allowed(CO, c)
    ensures (Space(c) && Move(CO, c) == CO) || (c == ':' && Move(CO, c) == COLON)
  {
  }

  lemma AfterMoves(c: char)
    requires Allowed(OK, c)
    ensures var m := Move(OK, c);
      || (Space(c) && m == OK) || (c == ',' && m == COMMA) || (c == ']' && m == CLOSE_ARRAY) || (c == '}' && m == CLOSE_OBJECT)
  {
  }

  lemma StringMoves(s: int, c: char)
    requires InString(s) && Allowed(s, c)
    ensures var m := Move(s, c);
      && (s == ST ==> (Plain(c) && m == ST) || (c == '"' && m == QUOTE) || (c == '\\' && m == ES))
      && (s == ES ==> (Escape(c) && m == ST) || (c == 'u' && m == U1))
      && (U1 <= s <= U4 ==> HexNumeral(c) && m == if s == U4 then ST else s + 1)
  {
  }

  lemma NumberMoves(s: int, c: char)
    requires InNumber(s) && Allowed(s, c)
    ensures var m := Move(s, c);
      || (m == ZE && s == MI && c == '0') || (m == IN && (s == MI || s == IN) && Numeral(c) && (s == MI ==> c != '0'))
      || (m == FR && (((s == ZE || s == IN) && c == '.') || (s == FR && Numeral(c))))
      || (m == E1 && (s == IN || s == FR) && (c == 'e' || c == 'E'))
      || (m == E2 && s == E1 && (c == '+' || c == '-'))
      || (m == E3 && E1 <= s <= E3 && Numeral(c))
      || (ValueEnd(s) && Delimits(c))
  {
  }

  lemma WordMoves(s: int, text: string, c: char)
    requires WordAt(s, text) && Allowed(s, c)
    ensures var m := Move(s, c);
      WordAt(m, text + [c]) || (m == OK && ValueOk(Word(text + [c]), 0))
  {
  }

  // ----- one more character of a token -----

  lemma {:induction false} CharsConcat(a: string, b: string)
    requires Chars(a) && Chars(b)
    ensures Chars(a + b)
    decreases |a|
  {
    hide Plain, Escape, HexNumeral;
    var s := a + b;
    if a == [] {
      assert s == b;
    } else if Plain(a[0]) && Chars(a[1..]) {
      CharsConcat(a[1..], b);
      assert s[1..] == a[1..] + b;
    } else if |a| >= 2 && a[0] == '\\' && Escape(a[1]) && Chars(a[2..]) {
      CharsConcat(a[2..], b);
      assert s[2..] == a[2..] + b;
    } else {
      CharsConcat(a[6..], b);
      assert s[6..] == a[6..] + b && s[..6] == a[..6];
    }
  }

  lemma OneChar(c: char)
    ensures Plain(c) ==> Chars([c])
    ensures Escape(c) ==> Chars("\\" + [c])
  {
    assert [c][1..] == [] && ("\\" + [c])[2..] == [];
    assert Chars([]);
  }

  lemma UnicodeChars(tail: string)
    requires Unicode(tail)
    ensures Chars(tail)
  {
    assert tail[..6] == tail && tail[6..] == [];
    assert Chars([]);
  }

  lemma StringGrows(s: int, body: string, tail: string, c: char) returns (body': string, tail': string)
    requires InString(s) && StringAt(s, body, tail) && Allowed(s, c) && !(s == ST && c == '"')
    ensures InString(Move(s, c)) && StringAt(Move(s, c), body', tail') && body' + tail' == body + tail + [c]
  {
    StringMoves(s, c);
    hide Move, Allowed, Chars, Plain, Escape, HexNumeral;
    OneChar(c);
    if s == ST && Move(s, c) == ST {
      body', tail' := body + [c], [];
      CharsConcat(body, [c]);
    } else if s == ST {
      body', tail' := body, [c];
    } else if s == ES && Move(s, c) == ST {
      body', tail' := body + ("\\" + [c]), [];
      CharsConcat(body, "\\" + [c]);
    } else if s < U4 {
      body', tail' := body, tail + [c];
    } else {
      body', tail' := body + (tail + [c]), [];
      UnicodeChars(tail + [c]);
      CharsConcat(body, tail + [c]);
    }
  }

  lemma QuotedBody(body: string)
    requires Chars(body)
    ensures Quoted("\"" + body + "\"")
  {
    var s := "\"" + body + "\"";
    assert s[1..|s| - 1] == body;
  }

  lemma WholeGrows(whole: string, c: char)
    requires Numeral(c)
    ensures whole == [] ==> Whole([c])
    ensures Whole(whole) && whole != "0" ==> Whole(whole + [c]) && whole + [c] != "0"
  {
  }

  lemma TextGrows(n: Number, c: char)
    requires n.exponent == []
    ensures !n.point ==> NumberText(n.(whole := n.whole + [c])) == NumberText(n) + [c]
    ensures n.point ==> NumberText(n.(fraction := n.fraction + [c])) == NumberText(n) + [c]
    ensures !n.point && n.fraction == [] ==> NumberText(n.(point := true)) == NumberText(n) + "."
  {
  }

  lemma ExponentTextGrows(n: Number, c: char)
    ensures NumberText(n.(exponent := n.exponent + [c])) == NumberText(n) + [c]
  {
  }

  lemma ExponentGrows(s: int, e: string, c: char)
    ensures s == E1 && ExponentAt(s, e) && (c == '+' || c == '-') ==> ExponentAt(E2, e + [c])
    ensures (s == E1 || s == E2 || s == E3) && ExponentAt(s, e) && Numeral(c) ==> ExponentAt(E3, e + [c])
  {
  }

  lemma NumberGrows(s: int, n: Number, c: char) returns (n': Number)
    requires InNumber(s) && NumberAt(s, n) && Allowed(s, c) && InNumber(Move(s, c))
    ensures NumberAt(Move(s, c), n') && NumberText(n') == NumberText(n) + [c]
  {
    NumberMoves(s, c);
    if ValueEnd(s) && Delimits(c) {
      NotNumber(s, c);
    }
    hide Move, Allowed, Numeral, Whole, Exponent, NumberText;
    var m := Move(s, c);
    if n.exponent == [] {
      TextGrows(n, c);
    }
    ExponentTextGrows(n, c);
    ExponentGrows(s, n.exponent, c);
    if m == ZE || m == IN {
      n' := n.(whole := n.whole + [c]);
      assert Numeral('0') by {
        ZeroIsDigit();
      }
      WholeGrows(n.whole, c);
      assert s == MI ==> n'.whole == [c];
    } else if m == FR {
      n' := if s == FR then n.(fraction := n.fraction + [c]) else n.(point := true);
    } else {
      n' := n.(exponent := n.exponent + [c]);
    }
  }

  lemma NotNumber(s: int, c: char)
    requires ValueEnd(s) && Delimits(c) && Allowed(s, c)
    ensures !InNumber(Move(s, c))
  {
  }

  // ----- one more character, wherever it is read -----

  lemma BeginStep(z: Partial, conf: Conf, c: char, depth: nat) returns (z': Partial)
    requires Holds(z, conf, depth) && z.place.Begin? && Step(conf, c, depth).Conf?
    ensures Grown(z, z', Step(conf, c, depth), c, depth)
  {
    StepIs(conf, c, depth);
    BeginMoves(c);
    if c == '{' {
      OpenObject(z, conf, c, depth);
      z' := z.(place := Key([], []));
    } else if c == '[' {
      OpenArray(z, conf, c, depth);
      z' := Partial(z.lead, z.frames + [InArray([], [])], Expect);
    } else {
      z' := z.(lead := z.lead + [c]);
      LeadGrows(z, conf, c, depth);
    }
  }

  lemma LeadGrows(z: Partial, conf: Conf, c: char, depth: nat)
    requires Holds(z, conf, depth) && z.place.Begin? && Space(c)
    ensures Grown(z, z.(lead := z.lead + [c]), conf, c, depth)
  {
    hide Space;
    assert FramesText([]) == [];
  }

  lemma ExpectStep(z: Partial, conf: Conf, c: char, depth: nat) returns (z': Partial)
    requires Holds(z, conf, depth) && z.place.Expect? && Step(conf, c, depth).Conf?
    ensures Grown(z, z', Step(conf, c, depth), c, depth)
  {
    StepIs(conf, c, depth);
    ExpectFacts(z, conf, depth);
    hide Holds, Grown, Move, Allowed, Step;
    ExpectMoves(conf.state, c);
    if c == '{' {
      OpenObject(z, conf, c, depth);
      z' := z.(place := Key([], []));
    } else if c == '[' {
      OpenArray(z, conf, c, depth);
      z' := Partial(z.lead, z.frames + [InArray([], [])], Expect);
    } else if Space(c) {
      z' := ExpectSpace(z, conf, c, depth);
    } else if c == ']' {
      z' := ExpectEnd(z, conf, c, depth);
    } else {
      z' := ExpectToken(z, conf, c, depth);
    }
  }

  lemma ExpectFacts(z: Partial, conf: Conf, depth: nat)
    requires Holds(z, conf, depth) && z.place.Expect?
    ensures conf.state == VA || conf.state == AR
  {
  }

  lemma ExpectSpace(z: Partial, conf: Conf, c: char, depth: nat) returns (z': Partial)
    requires Holds(z, conf, depth) && z.place.Expect? && Space(c)
    ensures Grown(z, z', conf, c, depth)
  {
    var fs, last := z.frames[..|z.frames| - 1], z.frames[|z.frames| - 1];
    var f := last.(before := last.before + [c]);
    assert z.frames == fs + [last];
    assert (fs + [f])[|fs|] == f;
    FramesOkSnoc(fs, last, depth - 1);
    BeforeGrows(last, c);
    hide FrameText, FramesOk, Modes, Space;
    z' := Partial(z.lead, fs + [f], Expect);
    Change(z, conf, fs, last, f, Expect, conf.state, c, depth);
  }

  lemma BeforeGrows(f: Frame, c: char)
    ensures FrameText(f.(before := f.before + [c])) == FrameText(f) + [c]
    ensures forall room :: FrameOk(f, room) && Space(c) ==> FrameOk(f.(before := f.before + [c]), room)
  {
    hide Space, ElementsOk, MembersOk, Quoted;
  }

  lemma ExpectEnd(z: Partial, conf: Conf, c: char, depth: nat) returns (z': Partial)
    requires Holds(z, conf, depth) && z.place.Expect? && c == ']' && conf.state == AR
    ensures Grown(z, z', Popped(OK, conf.stack, MODE_ARRAY), c, depth)
  {
    var fs, last := z.frames[..|z.frames| - 1], z.frames[|z.frames| - 1];
    assert z.frames == fs + [last];
    FramesOkSnoc(fs, last, depth - 1);
    Innermost(z, conf, depth);
    ModesSize(z.frames);
    var v := Array(last.before, []);
    hide FramesOk, Modes;
    assert FrameText(last) == "[" + last.before;
    z' := Partial(z.lead, fs, After(v, []));
    Leave(z, conf, fs, last, After(v, []), OK, c, depth);
  }

  lemma ExpectToken(z: Partial, conf: Conf, c: char, depth: nat) returns (z': Partial)
    requires Holds(z, conf, depth) && z.place.Expect? && Allowed(conf.state, c) && !Space(c)
    requires c != '{' && c != '[' && c != ']'
    ensures Move(conf.state, c) >= 0 && Grown(z, z', Conf(Move(conf.state, c), conf.stack), c, depth)
  {
    ExpectMoves(conf.state, c);
    hide Move, Allowed, Space, FramesOk, Modes, Fresh;
    var p := Started(c);
    StartedText(c);
    assert PlaceOk(p, z.frames, Move(conf.state, c), depth - 1 - |z.frames|);
    hide Holds, Grown, PlaceOk, PlaceText;
    z' := z.(place := p);
    assert !Keyed(z.place) && PlaceText(z.place) == [] by {
      Empty(z.frames, 0);
    }
    Stay(z, conf, p, Move(conf.state, c), c, depth);
  }

  /** A token with its first character. */
  function Started(c: char): Place {
    if c == '"' then PartString([], [])
    else if c == '-' then PartNumber(Number(true, [], false, [], []))
    else if Numeral(c) then PartNumber(Number(false, [c], false, [], []))
    else PartWord([c])
  }

  lemma StartedText(c: char)
    ensures PlaceText(Started(c)) == [c] && !Keyed(Started(c))
  {
    assert NumberText(Number(true, [], false, [], [])) == "-";
    assert NumberText(Number(false, [c], false, [], [])) == [c];
  }

  lemma KeyStep(z: Partial, conf: Conf, c: char, depth: nat) returns (z': Partial)
    requires Holds(z, conf, depth) && z.place.Key? && Step(conf, c, depth).Conf?
    ensures Grown(z, z', Step(conf, c, depth), c, depth)
  {
    StepIs(conf, c, depth);
    var ms, pad := z.place.members, z.place.pad;
    KeyMoves(conf.state, c);
    KeyTexts(ms, pad, c);
    KeyFacts(z, conf, depth);
    hide Move, Allowed, FramesOk, Modes, Space, MembersOk, PlaceText, Step, Act;
    var p := if c == '"' then PartKey(ms, pad, [], []) else if c == '}' then After(Object(pad, []), []) else Key(ms, pad + [c]);
    z' := z.(place := p);
    if c == '}' {
      LeaveKey(z, conf, p, OK, c, depth);
    } else {
      Stay(z, conf, p, if c == '"' then ST else conf.state, c, depth);
    }
  }

  lemma KeyFacts(z: Partial, conf: Conf, depth: nat)
    requires Holds(z, conf, depth) && z.place.Key?
    ensures conf.stack != [] && depth - 1 - |z.frames| >= 1
    ensures Act(ST, conf.stack, depth) == Conf(ST, conf.stack) && Act(conf.state, conf.stack, depth) == conf
    ensures Act(CLOSE_EMPTY, conf.stack, depth) == Conf(OK, conf.stack[..|conf.stack| - 1])
  {
    ModesSize(z.frames);
    hide FramesOk, Modes, MembersOk, Spaces;
  }

  lemma KeyTexts(ms: seq<Member>, pad: string, c: char)
    ensures PlaceText(PartKey(ms, pad, [], [])) == PlaceText(Key(ms, pad)) + "\""
    ensures PlaceText(Key(ms, pad + [c])) == PlaceText(Key(ms, pad)) + [c]
    ensures ms == [] ==> PlaceText(After(Object(pad, []), [])) == PlaceText(Key(ms, pad)) + "}"
    ensures Chars([])
  {
    assert Members([]) == [];
    assert "{" + [] + pad == "{" + pad;
  }

  lemma QuoteActs(m: int, stack: seq<Mode>, depth: nat)
    ensures m >= 0 ==> Act(m, stack, depth) == Conf(m, stack)
    ensures m == QUOTE && Top(stack) != MODE_DONE ==> Act(m, stack, depth) == Conf(if Top(stack) == MODE_KEY then CO else OK, stack)
  {
  }

  lemma PartKeyStep(z: Partial, conf: Conf, c: char, depth: nat) returns (z': Partial)
    requires Holds(z, conf, depth) && z.place.PartKey? && Step(conf, c, depth).Conf?
    ensures Grown(z, z', Step(conf, c, depth), c, depth)
  {
    StepIs(conf, c, depth);
    var ms, lead, body, tail, s := z.place.members, z.place.lead, z.place.body, z.place.tail, conf.state;
    PartKeyFacts(z, conf, depth);
    StringMoves(s, c);
    QuoteActs(Move(s, c), conf.stack, depth);
    hide Act;
    if s == ST && c == '"' {
      QuotedBody(body);
      KeyText(ms, lead, body);
      hide Move, Allowed, FramesOk, Modes, Space, MembersOk, Quoted, Chars, PlaceText, Step;
      var p := Colon(ms, lead, "\"" + body + "\"", []);
      z' := z.(place := p);
      Stay(z, conf, p, CO, c, depth);
    } else {
      hide Move, Allowed, FramesOk, Modes, Space, MembersOk, StringAt, Step;
      var body', tail' := StringGrows(s, body, tail, c);
      var p := PartKey(ms, lead, body', tail');
      TailGrows("{" + Members(ms) + lead + "\"", body, tail, body', tail', c);
      z' := z.(place := p);
      Stay(z, conf, p, Move(s, c), c, depth);
    }
  }

  lemma PartKeyFacts(z: Partial, conf: Conf, depth: nat)
    requires Holds(z, conf, depth) && z.place.PartKey?
    ensures InString(conf.state) && StringAt(conf.state, z.place.body, z.place.tail) && Top(conf.stack) == MODE_KEY
    ensures conf.state == ST ==> z.place.tail == [] && Chars(z.place.body)
  {
  }

  lemma KeyText(ms: seq<Member>, lead: string, body: string)
    ensures PlaceText(Colon(ms, lead, "\"" + body + "\"", [])) == PlaceText(PartKey(ms, lead, body, [])) + "\""
  {
    hide Members;
    Regroup4("{" + Members(ms) + lead, "\"", body, "\"");
  }

  lemma TailGrows(front: string, body: string, tail: string, body': string, tail': string, c: char)
    requires body' + tail' == body + tail + [c]
    ensures front + body' + tail' == front + body + tail + [c]
  {
    assert front + body' + tail' == front + (body' + tail');
    assert front + body + tail + [c] == front + (body + tail + [c]);
  }

  lemma ColonStep(z: Partial, conf: Conf, c: char, depth: nat) returns (z': Partial)
    requires Holds(z, conf, depth) && z.place.Colon? && Step(conf, c, depth).Conf?
    ensures Grown(z, z', Step(conf, c, depth), c, depth)
  {
    StepIs(conf, c, depth);
    ColonMoves(c);
    ColonFacts(z, conf, depth);
    ColonActs(conf.stack, depth);
    hide Holds, Grown, Move, Allowed, Step, Space, Modes, FrameOk, Act, Top;
    if c == ':' {
      z' := ColonValue(z, conf, depth);
    } else {
      z' := ColonSpace(z, conf, c, depth);
    }
  }

  lemma ColonActs(stack: seq<Mode>, depth: nat)
    requires Top(stack) == MODE_KEY
    ensures Act(COLON, stack, depth) == Conf(VA, stack[..|stack| - 1] + [MODE_OBJECT])
    ensures Act(CO, stack, depth) == Conf(CO, stack)
  {
  }

  lemma ColonValue(z: Partial, conf: Conf, depth: nat) returns (z': Partial)
    requires Holds(z, conf, depth) && z.place.Colon?
    ensures conf.stack != [] && Grown(z, z', Conf(VA, conf.stack[..|conf.stack| - 1] + [MODE_OBJECT]), ':', depth)
  {
    var ms, lead, key, gap := z.place.members, z.place.lead, z.place.key, z.place.gap;
    ColonFacts(z, conf, depth);
    ColonTexts(ms, lead, key, gap, ':');
    hide Holds, Grown, PlaceText, FrameText, FrameOk, FrameMode, Modes;
    var f := InObject(ms, lead, key, gap, []);
    z' := Partial(z.lead, z.frames + [f], Expect);
    assert (z.frames + [f])[|z.frames|] == f;
    Enter(z, conf, conf.stack[..|conf.stack| - 1] + [MODE_OBJECT], f, ':', depth);
  }

  lemma ColonSpace(z: Partial, conf: Conf, c: char, depth: nat) returns (z': Partial)
    requires Holds(z, conf, depth) && z.place.Colon? && Space(c)
    ensures Grown(z, z', Conf(CO, conf.stack), c, depth)
  {
    var ms, lead, key, gap := z.place.members, z.place.lead, z.place.key, z.place.gap;
    ColonTexts(ms, lead, key, gap, c);
    hide FramesOk, Modes, Space, MembersOk, Quoted, PlaceText, Grown;
    var p := Colon(ms, lead, key, gap + [c]);
    z' := z.(place := p);
    Stay(z, conf, p, CO, c, depth);
  }

  lemma ColonFacts(z: Partial, conf: Conf, depth: nat)
    requires Holds(z, conf, depth) && z.place.Colon?
    ensures conf.state == CO && conf.stack != [] && conf.stack[..|conf.stack| - 1] == Modes(z.frames) && |z.frames| + 1 < depth
    ensures FrameOk(InObject(z.place.members, z.place.lead, z.place.key, z.place.gap, []), depth - 2 - |z.frames|)
    ensures Top(conf.stack) == MODE_KEY
  {
    ModesSize(z.frames);
    hide FramesOk, Modes, MembersOk, Quoted;
  }

  lemma ColonTexts(ms: seq<Member>, lead: string, key: string, gap: string, c: char)
    ensures FrameText(InObject(ms, lead, key, gap, [])) == PlaceText(Colon(ms, lead, key, gap)) + ":"
    ensures FrameMode(InObject(ms, lead, key, gap, [])) == MODE_OBJECT
    ensures PlaceText(Colon(ms, lead, key, gap + [c])) == PlaceText(Colon(ms, lead, key, gap)) + [c]
  {
    hide Members;
  }

  lemma PartStringStep(z: Partial, conf: Conf, c: char, depth: nat) returns (z': Partial)
    requires Holds(z, conf, depth) && z.place.PartString? && Step(conf, c, depth).Conf?
    ensures Grown(z, z', Step(conf, c, depth), c, depth)
  {
    StepIs(conf, c, depth);
    var body, tail, s := z.place.body, z.place.tail, conf.state;
    PartStringFacts(z, conf, depth);
    StringMoves(s, c);
    QuoteActs(Move(s, c), conf.stack, depth);
    hide Move, Allowed, StringAt, Chars, Step, Grown, Act;
    if s == ST && c == '"' {
      z' := StringEnd(z, conf, depth);
    } else {
      hide FramesOk, Modes;
      var body', tail' := StringGrows(s, body, tail, c);
      var p := PartString(body', tail');
      TailGrows("\"", body, tail, body', tail', c);
      z' := z.(place := p);
      Stay(z, conf, p, Move(s, c), c, depth);
    }
  }

  lemma StringEnd(z: Partial, conf: Conf, depth: nat) returns (z': Partial)
    requires Holds(z, conf, depth) && z.place.PartString? && conf.state == ST
    ensures Grown(z, z', Conf(OK, conf.stack), '"', depth)
  {
    QuotedBody(z.place.body);
    hide FramesOk, Modes, Quoted, Chars, Grown;
    var p := After(Str("\"" + z.place.body + "\""), []);
    assert PlaceText(p) == PlaceText(z.place) + "\"";
    z' := z.(place := p);
    Stay(z, conf, p, OK, '"', depth);
  }

  lemma PartStringFacts(z: Partial, conf: Conf, depth: nat)
    requires Holds(z, conf, depth) && z.place.PartString?
    ensures InString(conf.state) && StringAt(conf.state, z.place.body, z.place.tail)
    ensures Top(conf.stack) == MODE_ARRAY || Top(conf.stack) == MODE_OBJECT
    ensures conf.state == ST ==> z.place.tail == [] && Chars(z.place.body)
  {
    Innermost(z, conf, depth);
  }

  lemma PartWordStep(z: Partial, conf: Conf, c: char, depth: nat) returns (z': Partial)
    requires Holds(z, conf, depth) && z.place.PartWord? && Step(conf, c, depth).Conf?
    ensures Grown(z, z', Step(conf, c, depth), c, depth)
  {
    StepIs(conf, c, depth);
    var text, s := z.place.text, conf.state;
    WordMoves(s, text, c);
    hide Move, Allowed, FramesOk, Modes;
    var m := Move(s, c);
    var p := if m == OK then After(Word(text + [c]), []) else PartWord(text + [c]);
    assert PlaceText(p) == PlaceText(z.place) + [c];
    z' := z.(place := p);
    Stay(z, conf, p, m, c, depth);
  }

  lemma AfterStep(z: Partial, conf: Conf, c: char, depth: nat) returns (z': Partial)
    requires Holds(z, conf, depth) && z.place.After? && Step(conf, c, depth).Conf?
    ensures Grown(z, z', Step(conf, c, depth), c, depth)
  {
    StepIs(conf, c, depth);
    AfterFacts(z, conf, depth);
    AfterMoves(c);
    AfterActs(conf.stack, depth);
    hide Move, Allowed, Step, Space, Holds, Grown, Act, Top;
    if Space(c) {
      NotDelimiter(c);
      z' := AfterSpace(z, conf, c, depth);
    } else if Top(conf.stack) == MODE_ARRAY {
      z' := AfterElement(z, conf, c, depth);
    } else {
      z' := AfterMember(z, conf, c, depth);
    }
  }

  lemma NotDelimiter(c: char)
    requires Space(c)
    ensures c != ',' && c != ']' && c != '}'
  {
  }

  lemma AfterSpace(z: Partial, conf: Conf, c: char, depth: nat) returns (z': Partial)
    requires Holds(z, conf, depth) && z.place.After? && Space(c)
    ensures Grown(z, z', Conf(OK, conf.stack), c, depth)
  {
    hide FramesOk, Modes, Space, Text, Grown;
    var p := After(z.place.value, z.place.pad + [c]);
    z' := z.(place := p);
    Stay(z, conf, p, OK, c, depth);
  }

  lemma AfterActs(stack: seq<Mode>, depth: nat)
    requires stack != []
    ensures Act(OK, stack, depth) == Conf(OK, stack)
    ensures Top(stack) == MODE_DONE ==>
      Act(COMMA, stack, depth).Rejected? && Act(CLOSE_ARRAY, stack, depth).Rejected? && Act(CLOSE_OBJECT, stack, depth).Rejected?
    ensures Top(stack) == MODE_ARRAY ==>
      && Act(COMMA, stack, depth) == Conf(VA, stack) && Act(CLOSE_OBJECT, stack, depth).Rejected?
      && Act(CLOSE_ARRAY, stack, depth) == Conf(OK, stack[..|stack| - 1])
    ensures Top(stack) == MODE_OBJECT ==>
      && Act(COMMA, stack, depth) == Conf(KE, stack[..|stack| - 1] + [MODE_KEY]) && Act(CLOSE_ARRAY, stack, depth).Rejected?
      && Act(CLOSE_OBJECT, stack, depth) == Conf(OK, stack[..|stack| - 1])
  {
  }

  lemma AfterFacts(z: Partial, conf: Conf, depth: nat)
    requires Holds(z, conf, depth) && z.place.After?
    ensures conf.state == OK && conf.stack != [] && Top(conf.stack) != MODE_KEY
    ensures z.frames == [] ==> Top(conf.stack) == MODE_DONE
    ensures z.frames != [] ==> Top(conf.stack) == FrameMode(z.frames[|z.frames| - 1])
  {
    ModesSize(z.frames);
    if z.frames != [] {
      Innermost(z, conf, depth);
    }
  }

  lemma AfterElement(z: Partial, conf: Conf, c: char, depth: nat) returns (z': Partial)
    requires Holds(z, conf, depth) && z.place.After? && z.frames != [] && z.frames[|z.frames| - 1].InArray?
    requires c == ',' || c == ']'
    ensures Grown(z, z', if c == ',' then Conf(VA, conf.stack) else Conf(OK, conf.stack[..|conf.stack| - 1]), c, depth)
  {
    var fs, last := z.frames[..|z.frames| - 1], z.frames[|z.frames| - 1];
    var e := Element(last.before, z.place.value, z.place.pad);
    var es := last.elements + [e];
    assert z.frames == fs + [last];
    AfterIn(z, conf, fs, last, depth);
    ElementAdded(last, e, z.place, depth - 2 - |fs|);
    hide Holds, Grown, FrameText, PlaceText, ElementsOk, FrameOk, ValueOk, Spaces;
    if c == ',' {
      var f := InArray(es, []);
      z' := Partial(z.lead, fs + [f], Expect);
      Empty(fs + [f], depth - 2 - |fs|);
      assert (fs + [f])[|fs|] == f;
      assert FrameText(f) + [] == FrameText(f);
      hide PlaceOk;
      Change(z, conf, fs, last, f, Expect, VA, c, depth);
    } else {
      var p := After(Array([], es), []);
      z' := Partial(z.lead, fs, p);
      ArrayOk(es, depth - 1 - |fs|);
      Leave(z, conf, fs, last, p, OK, c, depth);
    }
  }

  lemma AfterIn(z: Partial, conf: Conf, fs: seq<Frame>, last: Frame, depth: nat)
    requires Holds(z, conf, depth) && z.place.After? && z.frames == fs + [last]
    ensures FrameOk(last, depth - 2 - |fs|) && ValueOk(z.place.value, depth - 2 - |fs|) && Spaces(z.place.pad)
    ensures |conf.stack| == |fs| + 2 && |fs| + 2 <= depth && !Keyed(z.place)
  {
    FramesOkSnoc(fs, last, depth - 1);
    ModesSize(z.frames);
    hide FramesOk, FrameOk, ValueOk, Spaces, Modes, FramesText;
  }

  lemma ArrayOk(es: seq<Element>, room: int)
    requires room > 0 && ElementsOk(es, room - 1)
    ensures ValueOk(Array([], es), room) && Spaces([])
  {
  }

  lemma ElementAdded(f: Frame, e: Element, p: Place, room: int)
    requires f.InArray? && p == After(e.value, e.after) && e.before == f.before
    ensures FrameText(InArray(f.elements + [e], [])) == FrameText(f) + PlaceText(p) + ","
    ensures PlaceText(After(Array([], f.elements + [e]), [])) == FrameText(f) + PlaceText(p) + "]"
    ensures FrameOk(f, room) && ValueOk(e.value, room) && Spaces(e.after)
        ==> FrameOk(InArray(f.elements + [e], []), room) && ElementsOk(f.elements + [e], room)
  {
    ElementsText(f.elements, e);
    ElementsSnoc(f.elements, e, room);
    hide Elements, Text, ElementText, ElementsOk, ValueOk, Spaces;
    Regroup("[", Elements(f.elements), e.before, Text(e.value), e.after, ",");
    Regroup("[", Elements(f.elements), e.before, Text(e.value), e.after, "]");
  }

  lemma ElementsText(es: seq<Element>, e: Element)
    ensures Elements(es + [e]) == Elements(es) + ElementText(e) + ","
    ensures Text(Array([], es + [e])) == "[" + (Elements(es) + ElementText(e)) + "]"
    ensures ElementText(e) == e.before + Text(e.value) + e.after
  {
    var all := es + [e];
    assert all[..|all| - 1] == es && all[|all| - 1] == e;
    hide ElementText;
  }

  lemma ElementsSnoc(es: seq<Element>, e: Element, room: int)
    ensures ElementsOk(es, room) && Spaces(e.before) && ValueOk(e.value, room) && Spaces(e.after) ==> ElementsOk(es + [e], room)
    ensures Spaces([])
  {
    assert ElementOk(e, room) <==> Spaces(e.before) && ValueOk(e.value, room) && Spaces(e.after);
    hide ElementOk, ValueOk;
  }

  lemma Regroup(open: string, front: string, before: string, text: string, after: string, c: string)
    ensures open + (front + (before + text + after) + c) + [] == open + front + before + (text + after) + c
    ensures open + (front + (before + text + after)) + c + [] == open + front + before + (text + after) + c
  {
  }

  lemma AfterMember(z: Partial, conf: Conf, c: char, depth: nat) returns (z': Partial)
    requires Holds(z, conf, depth) && z.place.After? && z.frames != [] && z.frames[|z.frames| - 1].InObject?
    requires c == ',' || c == '}'
    ensures conf.stack != []
    ensures Grown(z, z', Conf(if c == ',' then KE else OK, conf.stack[..|conf.stack| - 1] + if c == ',' then [MODE_KEY] else []), c, depth)
  {
    var fs, last := z.frames[..|z.frames| - 1], z.frames[|z.frames| - 1];
    var m := Member(last.lead, last.key, last.gap, Element(last.before, z.place.value, z.place.pad));
    var ms := last.members + [m];
    assert z.frames == fs + [last];
    AfterIn(z, conf, fs, last, depth);
    MemberAdded(last, m, z.place, depth - 2 - |fs|);
    hide Holds, Grown, FrameText, PlaceText, MembersOk, FrameOk, ValueOk, Spaces;
    assert conf.stack[..|conf.stack| - 1] + [] == conf.stack[..|conf.stack| - 1];
    var p := if c == ',' then Key(ms, []) else After(Object([], ms), []);
    ObjectOk(ms, depth - 1 - |fs|);
    z' := Partial(z.lead, fs, p);
    Leave(z, conf, fs, last, p, if c == ',' then KE else OK, c, depth);
  }

  lemma ObjectOk(ms: seq<Member>, room: int)
    requires room > 0 && MembersOk(ms, room - 1)
    ensures ValueOk(Object([], ms), room) && Spaces([])
  {
  }

  lemma MemberAdded(f: Frame, m: Member, p: Place, room: int)
    requires f.InObject? && p == After(m.element.value, m.element.after)
    requires m.before == f.lead && m.key == f.key && m.gap == f.gap && m.element.before == f.before
    ensures PlaceText(Key(f.members + [m], [])) == FrameText(f) + PlaceText(p) + ","
    ensures PlaceText(After(Object([], f.members + [m]), [])) == FrameText(f) + PlaceText(p) + "}"
    ensures FrameOk(f, room) && ValueOk(m.element.value, room) && Spaces(m.element.after) ==> MembersOk(f.members + [m], room)
  {
    var e := m.element;
    MembersText(f.members, m);
    MembersSnoc(f.members, m, room);
    hide Members, Text, MemberText, MembersOk, ValueOk, Spaces, Quoted;
    Regroup("{", Members(f.members), m.before + m.key + m.gap + ":" + e.before, Text(e.value), e.after, ",");
    Regroup("{", Members(f.members), m.before + m.key + m.gap + ":" + e.before, Text(e.value), e.after, "}");
    Regroup4("{" + Members(f.members), m.before, m.key, m.gap + ":" + e.before);
    Regroup4("{" + Members(f.members), m.before, m.key, m.gap);
    assert "{" + Members(f.members) + (m.before + m.key + m.gap + ":" + e.before) == FrameText(f);
  }

  lemma Regroup4(a: string, b: string, c: string, d: string)
    ensures a + (b + c + d) == a + b + c + d
  {
  }

  lemma MembersText(ms: seq<Member>, m: Member)
    ensures Members(ms + [m]) == Members(ms) + MemberText(m) + ","
    ensures Text(Object([], ms + [m])) == "{" + (Members(ms) + MemberText(m)) + "}"
    ensures MemberText(m) == m.before + m.key + m.gap + ":" + m.element.before + Text(m.element.value) + m.element.after
  {
    var all := ms + [m];
    assert all[..|all| - 1] == ms && all[|all| - 1] == m;
    hide Text, Members;
  }

  lemma MembersSnoc(ms: seq<Member>, m: Member, room: int)
    ensures (MembersOk(ms, room) && Spaces(m.before) && Quoted(m.key) && Spaces(m.gap) && Spaces(m.element.before)
             && ValueOk(m.element.value, room) && Spaces(m.element.after)) ==> MembersOk(ms + [m], room)
    ensures Spaces([])
  {
    var e := m.element;
    assert ElementOk(e, room) <==> Spaces(e.before) && ValueOk(e.value, room) && Spaces(e.after);
    assert MemberOk(m, room) <==> Spaces(m.before) && Quoted(m.key) && Spaces(m.gap) && ElementOk(e, room);
    hide MemberOk, ElementOk, ValueOk, Quoted;
  }

  lemma PartNumberStep(z: Partial, conf: Conf, c: char, depth: nat) returns (z': Partial)
    requires Holds(z, conf, depth) && z.place.PartNumber? && Step(conf, c, depth).Conf?
    ensures Grown(z, z', Step(conf, c, depth), c, depth)
  {
    StepIs(conf, c, depth);
    var s, n := conf.state, z.place.number;
    NumberMoves(s, c);
    if ValueEnd(s) && Delimits(c) {
      var z1, conf1 := z.(place := After(Num(n), [])), Conf(OK, conf.stack);
      EndStep(s, conf.stack, c, depth);
      hide Move, Allowed, FramesOk, Modes;
      assert PlaceText(z1.place) == PlaceText(z.place);
      z' := AfterStep(z1, conf1, c, depth);
    } else {
      var n' := NumberGrows(s, n, c);
      hide Move, Allowed, FramesOk, Modes, NumberAt;
      var p := PartNumber(n');
      z' := z.(place := p);
      Stay(z, conf, p, Move(s, c), c, depth);
    }
  }

  /** Whatever the checker reads without rejecting extends the derivation. */
  lemma Grows(z: Partial, conf: Conf, c: char, depth: nat) returns (z': Partial)
    requires Holds(z, conf, depth) && Step(conf, c, depth).Conf?
    ensures Grown(z, z', Step(conf, c, depth), c, depth)
  {
    hide Holds, Step, Grown;
    match z.place {
      case Begin => z' := BeginStep(z, conf, c, depth);
      case Expect => z' := ExpectStep(z, conf, c, depth);
      case Key(_, _) => z' := KeyStep(z, conf, c, depth);
      case PartKey(_, _, _, _) => z' := PartKeyStep(z, conf, c, depth);
      case Colon(_, _, _, _) => z' := ColonStep(z, conf, c, depth);
      case PartString(_, _) => z' := PartStringStep(z, conf, c, depth);
      case PartNumber(_) => z' := PartNumberStep(z, conf, c, depth);
      case PartWord(_) => z' := PartWordStep(z, conf, c, depth);
      case After(_, _) => z' := AfterStep(z, conf, c, depth);
    }
  }

  // ----- whole texts -----

  lemma {:induction false} Built(s: string, depth: nat) returns (z: Partial)
    requires 0 < depth && Steps(START, s, depth).Conf?
    ensures Holds(z, Steps(START, s, depth), depth) && PartialText(z) == s
    decreases |s|
  {
    hide Step;
    if s == [] {
      z := Partial([], [], Begin);
    } else {
      hide Holds, PartialText;
      var t, c := s[..|s| - 1], s[|s| - 1];
      assert s == t + [c];
      StepsConcat(START, t, [c], depth);
      StepsOne(Steps(START, t, depth), c, depth);
      StepRejected(c, depth);
      var z0 := Built(t, depth);
      z := Grows(z0, Steps(START, t, depth), c, depth);
    }
  }

  lemma DoneFacts(z: Partial, conf: Conf, depth: nat)
    requires 0 < depth && Holds(z, conf, depth) && Done(conf)
    ensures z.place.After? && PartialText(z) == DerivationText(Derivation(z.lead, z.place.value, z.place.pad))
    ensures DerivationOk(Derivation(z.lead, z.place.value, z.place.pad), depth - 1)
  {
    if z.frames != [] && !Keyed(z.place) {
      Innermost(z, conf, depth);
    }
    hide Text, ValueOk, Spaces, FramesOk;
    assert z.frames == [] && FramesText([]) == [];
  }

  lemma AcceptedDerives(s: string, depth: nat)
    requires 0 < depth && Accepts(s, depth)
    ensures Derives(s, depth - 1)
  {
    var conf := Steps(START, s, depth);
    var z := Built(s, depth);
    DoneFacts(z, conf, depth);
    var d := Derivation(z.lead, z.place.value, z.place.pad);
    hide Holds;
    assert DerivationOk(d, depth - 1) && DerivationText(d) == s;
  }

  /** The checker accepts exactly the texts of the grammar in which no more than
      depth - 1 containers are open at once. */
  lemma AcceptsGrammar(s: string, depth: nat)
    requires 0 < depth
    ensures Accepts(s, depth) <==> Derives(s, depth - 1)
  {
    if Accepts(s, depth) {
      AcceptedDerives(s, depth);
    }
    if Derives(s, depth - 1) {
      var d :| DerivationOk(d, depth - 1) && DerivationText(d) == s;
      DerivedAccepted(d, depth);
    }
  }
}

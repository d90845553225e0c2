/**
 * The language of the syntax checker, as a grammar: JSON texts as derivations.
 * It is that of section 2 of RFC 4627, with two exceptions: the fraction of a
 * number may have no digits, and a bare 0 takes no exponent.
 */
module JsonGrammar {

  // ----- tokens -----

  predicate Space(c: char) {
    c == ' ' || c == '\t' || c == '\n' || c == '\r'
  }

  predicate Spaces(s: string) {
    forall i | 0 <= i < |s| :: Space(s[i])
  }

  predicate Numeral(c: char) {
    '0' <= c <= '9'
  }

  predicate Digits(s: string) {
    forall i | 0 <= i < |s| :: Numeral(s[i])
  }

  predicate HexNumeral(c: char) {
    Numeral(c) || 'a' <= c <= 'f' || 'A' <= c <= 'F'
  }

  predicate Plain(c: char) {
    ' ' <= c && c != '"' && c != '\\'
  }

  predicate Escape(c: char) {
    c == '"' || c == '\\' || c == '/' || c == 'b' || c == 'f' || c == 'n' || c == 'r' || c == 't'
  }

  predicate Unicode(s: string) {
    |s| == 6 && s[0] == '\\' && s[1] == 'u' && forall i | 2 <= i < 6 :: HexNumeral(s[i])
  }

  /** What may stand between quotes. */
  predicate Chars(s: string) {
    || s == []
    || (Plain(s[0]) && Chars(s[1..]))
    || (|s| >= 2 && s[0] == '\\' && Escape(s[1]) && Chars(s[2..]))
    || (|s| >= 6 && Unicode(s[..6]) && Chars(s[6..]))
  }

  predicate Quoted(s: string) {
    |s| >= 2 && s[0] == '"' && s[|s| - 1] == '"' && Chars(s[1..|s| - 1])
  }

  /** A number: sign, integer part, decimal point and fraction, exponent. */
  datatype Number = Number(minus: bool, whole: string, point: bool, fraction: string, exponent: string)

  function NumberText(n: Number): string {
    (if n.minus then "-" else "") + n.whole + (if n.point then "." + n.fraction else "") + n.exponent
  }

  predicate Whole(s: string) {
    s == "0" || (s != [] && Digits(s) && s[0] != '0')
  }

  predicate Exponent(s: string) {
    && |s| >= 2 && (s[0] == 'e' || s[0] == 'E')
    && ((s[1] == '+' || s[1] == '-') ==> |s| >= 3 && Digits(s[2..]))
    && (!(s[1] == '+' || s[1] == '-') ==> Digits(s[1..]))
  }

  predicate NumberOk(n: Number) {
    && Whole(n.whole) && Digits(n.fraction) && (!n.point ==> n.fraction == [])
    && (n.exponent != [] ==> Exponent(n.exponent) && (n.whole == "0" ==> n.point))
  }

  // ----- values -----

  datatype Value =
    | Word(text: string)
    | Num(number: Number)
    | Str(text: string)
    | Array(pad: string, elements: seq<Element>)
    | Object(pad: string, members: seq<Member>)

  datatype Element = Element(before: string, value: Value, after: string)

  datatype Member = Member(before: string, key: string, gap: string, element: Element)

  /** Derivations with at most `room` containers inside one another. */
  predicate ValueOk(v: Value, room: int)
    decreases v
  {
    match v
    case Word(text) => text == "true" || text == "false" || text == "null"
    case Num(n) => NumberOk(n)
    case Str(text) => Quoted(text)
    case Array(pad, es) =>
      room > 0 && Spaces(pad) && (es != [] ==> pad == []) && forall i | 0 <= i < |es| :: ElementOk(es[i], room - 1)
    case Object(pad, ms) =>
      room > 0 && Spaces(pad) && (ms != [] ==> pad == []) && forall i | 0 <= i < |ms| :: MemberOk(ms[i], room - 1)
  }

  predicate ElementOk(e: Element, room: int)
    decreases e
  {
    Spaces(e.before) && ValueOk(e.value, room) && Spaces(e.after)
  }

  predicate MemberOk(m: Member, room: int)
    decreases m
  {
    Spaces(m.before) && Quoted(m.key) && Spaces(m.gap) && ElementOk(m.element, room)
  }

  function Text(v: Value): string
    decreases v, 0
  {
    match v
    case Word(text) => text
    case Num(n) => NumberText(n)
    case Str(text) => text
    case Array(pad, es) => if es == [] then "[" + pad + "]" else "[" + (Elements(es[..|es| - 1]) + ElementText(es[|es| - 1])) + "]"
    case Object(pad, ms) => if ms == [] then "{" + pad + "}" else "{" + (Members(ms[..|ms| - 1]) + MemberText(ms[|ms| - 1])) + "}"
  }

  function ElementText(e: Element): string
    decreases e, 0
  {
    e.before + Text(e.value) + e.after
  }

  function MemberText(m: Member): string
    decreases m, 0
  {
    m.before + m.key + m.gap + ":" + ElementText(m.element)
  }

  /** Elements with a comma behind each of them. */
  function Elements(es: seq<Element>): string
    decreases es, 1
  {
    if es == [] then [] else Elements(es[..|es| - 1]) + ElementText(es[|es| - 1]) + ","
  }

  function Members(ms: seq<Member>): string
    decreases ms, 1
  {
    if ms == [] then [] else Members(ms[..|ms| - 1]) + MemberText(ms[|ms| - 1]) + ","
  }

  /** A text is a container, with space around it. */
  datatype Derivation = Derivation(before: string, value: Value, after: string)

  predicate DerivationOk(d: Derivation, room: int) {
    Spaces(d.before) && (d.value.Array? || d.value.Object?) && ValueOk(d.value, room) && Spaces(d.after)
  }

  function DerivationText(d: Derivation): string {
    d.before + Text(d.value) + d.after
  }

  /** The texts of the grammar. */
  ghost predicate Derives(s: string, room: int) {
    exists d :: DerivationOk(d, room) && DerivationText(d) == s
  }
}

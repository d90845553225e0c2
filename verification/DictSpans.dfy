/**
 * How the tokens of a text lie in it: in the order in which they start, and any
 * two of them either apart or one inside the other.
 */
module DictSpans {
  import opened Dict
  import opened DictMarshall

  /** A token and a later one: once the first is closed, the later one starts
      behind it, or is closed inside it. */
  predicate Apart(t: Token, u: Token) {
    t.start <= u.start && (t.end != -1 ==> t.end <= u.start || (u.end != -1 && u.end <= t.end))
  }

  predicate Nested(toks: seq<Token>) {
    forall i, j | 0 <= i < j < |toks| :: Apart(toks[i], toks[j])
  }

  lemma NestedBump(toks: seq<Token>, super: int)
    requires Nested(toks) && -1 <= super < |toks|
    ensures Nested(Bump(toks, super))
  {
    var b := Bump(toks, super);
    forall i, j | 0 <= i < j < |b| ensures Apart(b[i], b[j]) {
      assert Apart(toks[i], toks[j]);
    }
  }

  lemma NestedMore(toks: seq<Token>, t: Token, pos: nat)
    requires Nested(toks) && Spanned(toks, pos) && pos <= t.start
    ensures Nested(toks + [t])
  {
    forall i, j | 0 <= i < j < |toks| + 1 ensures Apart((toks + [t])[i], (toks + [t])[j]) {
      if j < |toks| {
        assert Apart(toks[i], toks[j]);
      }
    }
  }

  lemma {:induction false} InnermostIsLast(toks: seq<Token>, j: nat)
    requires Innermost(toks) < j < |toks| && toks[j].start != -1
    ensures toks[j].end != -1
    decreases |toks|
  {
    if j < |toks| - 1 {
      InnermostIsLast(toks[..|toks| - 1], j);
    }
  }

  lemma NestedClose(toks: seq<Token>, i: int, pos: nat)
    requires Nested(toks) && Spanned(toks, pos) && i == Innermost(toks) && 0 <= i
    ensures Nested(toks[i := toks[i].(end := pos + 1)])
  {
    var c := toks[i := toks[i].(end := pos + 1)];
    forall j, k | 0 <= j < k < |c| ensures Apart(c[j], c[k]) {
      assert Apart(toks[j], toks[k]);
      if j == i {
        InnermostIsLast(toks, k);
      }
    }
  }

  lemma NextNested(str: string, pos: nat, st: State, limit: nat)
    requires st.Ok() && More(str, pos) && Spanned(st.toks, pos) && Nested(st.toks)
    requires Next(str, pos, st, limit).Go?
    ensures Nested(Next(str, pos, st, limit).state.toks)
  {
    hide Spanned, Nested, Bump, Innermost, InnermostContainer, ScanString, ScanPrimitive, Delimiter, StartsPrimitive;
    var r := Next(str, pos, st, limit);
    NestedBump(st.toks, st.super);
    SpannedBump(st.toks, st.super, pos);
    if str[pos] == '}' || str[pos] == ']' {
      NestedClose(st.toks, Innermost(st.toks), pos);
    } else if |r.state.toks| > |st.toks| {
      NestedMore(Bump(st.toks, st.super), r.state.toks[|st.toks|], pos);
    }
  }

  lemma {:induction false} RunNested(str: string, pos: nat, st: State, limit: nat)
    requires st.Ok() && pos <= |str| && Spanned(st.toks, pos) && Nested(st.toks) && (st.toks != [] ==> 0 < pos)
    requires Run(str, pos, st, limit).Tokens?
    ensures Nested(Run(str, pos, st, limit).toks)
    decreases |str| - pos
  {
    if More(str, pos) {
      NextSpanned(str, pos, st, limit);
      NextNested(str, pos, st, limit);
      hide Next;
      var r := Next(str, pos, st, limit);
      RunNested(str, r.pos, r.state, limit);
    }
  }

  /** Any text that is tokenized at all: every token is closed inside the text,
      and of any two tokens the later one starts behind the earlier one or lies
      inside it. */
  lemma ParseNested(str: string, limit: nat)
    requires Parse(str, limit).Tokens?
    ensures var toks := Parse(str, limit).toks;
      && Nested(toks) && forall i | 0 <= i < |toks| :: HasText(str, toks[i])
  {
    RunNested(str, 0, State([], -1), limit);
    ParseSpanned(str, limit);
  }
}

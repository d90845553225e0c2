/**
 * A nested container is tokenized again from its own piece of the text: the
 * decoder always gets an array or an object there, so no child is ever missing.
 */
module DictRescan {
  import opened Dict
  import opened Marshal
  import DictPrinted
  import opened DictMarshall
  import opened DictSpans

  // ----- scanning in a piece of a text -----

  lemma {:induction false} HexInPiece(str: string, p: nat, e: nat, pos: nat, n: nat)
    requires p <= pos <= e <= |str|
    requires ScanHex(str, pos, n).Found? && ScanHex(str, pos, n).end < e
    ensures ScanHex(str[p..e], pos - p, n) == Found(ScanHex(str, pos, n).end - p)
    decreases n
  {
    if n > 0 && More(str, pos) {
      HexInPiece(str, p, e, pos + 1, n - 1);
    }
  }

  lemma {:induction false} StringInPiece(str: string, p: nat, e: nat, pos: nat)
    requires p <= pos <= e <= |str|
    requires ScanString(str, pos).Found? && ScanString(str, pos).end < e
    ensures ScanString(str[p..e], pos - p) == Found(ScanString(str, pos).end - p)
    decreases |str| - pos
  {
    hide Escaped, HexDigit, ScanHex;
    var piece := str[p..e];
    assert piece[pos - p] == str[pos];
    if str[pos] == '"' {
    } else if str[pos] == '\\' && pos + 1 < |str| {
      if Escaped(str[pos + 1]) {
        assert piece[pos + 1 - p] == str[pos + 1];
        StringInPiece(str, p, e, pos + 2);
      } else {
        var h := ScanHex(str, pos + 2, 4).end;
        assert piece[pos + 1 - p] == str[pos + 1];
        HexInPiece(str, p, e, pos + 2, 4);
        StringInPiece(str, p, e, h);
      }
    } else {
      StringInPiece(str, p, e, pos + 1);
    }
  }

  lemma {:induction false} PrimitiveInPiece(str: string, p: nat, e: nat, pos: nat)
    requires p <= pos <= e <= |str|
    requires ScanPrimitive(str, pos).Found? && ScanPrimitive(str, pos).end < e
    ensures ScanPrimitive(str[p..e], pos - p) == Found(ScanPrimitive(str, pos).end - p)
    decreases |str| - pos
  {
    hide Delimiter;
    assert str[p..e][pos - p] == str[pos];
    if !Delimiter(str[pos]) {
      PrimitiveInPiece(str, p, e, pos + 1);
    }
  }

  // ----- tokens of a piece, and where they are in the whole text -----

  function Moved(t: Token, p: int): Token {
    t.(start := t.start + p, end := if t.end == -1 then -1 else t.end + p)
  }

  function AllMoved(toks: seq<Token>, p: int): (r: seq<Token>)
    ensures |r| == |toks| && forall i | 0 <= i < |toks| :: r[i] == Moved(toks[i], p)
  {
    seq(|toks|, i requires 0 <= i < |toks| => Moved(toks[i], p))
  }

  predicate Started(toks: seq<Token>) {
    forall i | 0 <= i < |toks| :: 0 <= toks[i].start && -1 <= toks[i].end
  }

  /** The tokenizer within a container that starts at p, and the tokenizer that
      has started there: the first one has the tokens of the second behind others. */
  predicate Inside(st: State, inner: State, base: seq<Token>, p: nat) {
    && inner.Ok() && 0 <= inner.super && st.super == |base| + inner.super
    && st.toks == base + AllMoved(inner.toks, p) && Started(inner.toks)
    && inner.toks[0].end == -1 && Container(inner.toks[0])
  }

  lemma BumpMoved(base: seq<Token>, toks: seq<Token>, super: nat, p: nat)
    requires super < |toks|
    ensures Bump(base + AllMoved(toks, p), |base| + super) == base + AllMoved(Bump(toks, super), p)
  {
  }

  lemma MovedMore(base: seq<Token>, toks: seq<Token>, t: Token, p: nat)
    ensures base + AllMoved(toks, p) + [Moved(t, p)] == base + AllMoved(toks + [t], p)
  {
  }

  lemma {:induction false} InnermostMoved(base: seq<Token>, toks: seq<Token>, p: nat)
    requires Started(toks) && 0 <= Innermost(toks)
    ensures Innermost(base + AllMoved(toks, p)) == |base| + Innermost(toks)
    decreases |toks|
  {
    var n := |toks| - 1;
    var all := base + AllMoved(toks, p);
    assert all[|all| - 1] == Moved(toks[n], p);
    if toks[n].end != -1 {
      assert all[..|all| - 1] == base + AllMoved(toks[..n], p);
      InnermostMoved(base, toks[..n], p);
    }
  }

  lemma {:induction false} InnermostOpen(toks: seq<Token>, j: nat)
    requires j < |toks| && 0 <= toks[j].start && toks[j].end == -1
    ensures j <= Innermost(toks)
    decreases |toks|
  {
    if j < |toks| - 1 {
      InnermostOpen(toks[..|toks| - 1], j);
    }
  }

  lemma {:induction false} InnermostContainerMoved(base: seq<Token>, toks: seq<Token>, p: nat)
    requires Started(toks) && toks != [] && toks[0].end == -1 && Container(toks[0])
    ensures 0 <= InnermostContainer(toks)
    ensures InnermostContainer(base + AllMoved(toks, p)) == |base| + InnermostContainer(toks)
    decreases |toks|
  {
    var n := |toks| - 1;
    var all := base + AllMoved(toks, p);
    assert all[|all| - 1] == Moved(toks[n], p);
    if !(Container(toks[n]) && toks[n].end == -1) {
      assert all[..|all| - 1] == base + AllMoved(toks[..n], p);
      InnermostContainerMoved(base, toks[..n], p);
    }
  }

  // ----- one round, seen from both -----

  /** A new token. */
  lemma MoreInside(st: State, inner: State, base: seq<Token>, p: nat, t: Token, super: nat)
    requires Inside(st, inner, base, p) && 0 <= t.start && -1 <= t.end && super <= |inner.toks|
    ensures var next := State(Bump(inner.toks, inner.super) + [t], super);
      Inside(State(Bump(st.toks, st.super) + [Moved(t, p)], |base| + super), next, base, p)
  {
    BumpMoved(base, inner.toks, inner.super, p);
    MovedMore(base, Bump(inner.toks, inner.super), t, p);
  }

  /** The innermost token is closed. */
  lemma CloseInside(st: State, inner: State, base: seq<Token>, p: nat, pos: nat, kind: Kind)
    requires Inside(st, inner, base, p) && p <= pos && Close(st, kind, pos).Go?
    ensures var r, q := Close(st, kind, pos), Close(inner, kind, pos - p);
      && q.Go? && q.pos == r.pos - p && |r.state.toks| == |st.toks| && |q.state.toks| == |inner.toks|
      && q.state.toks[0].kind == inner.toks[0].kind
      && if r.state.toks[|base|].end == -1 then Inside(r.state, q.state, base, p)
         else Innermost(q.state.toks) == -1 && r.state.toks[|base|].end == r.pos
  {
    var i := Innermost(inner.toks);
    var toks := CloseBoth(st, inner, base, p, pos, kind);
    hide *;
    if i > 0 {
      InnermostOpen(toks, 0);
      InnermostMoved(base, toks, p);
      InsideAgain(base, toks, p, Innermost(toks));
    } else {
      AllClosed(inner.toks, pos + 1 - p);
    }
  }

  /** The tokens on both sides afterwards. */
  lemma CloseBoth(st: State, inner: State, base: seq<Token>, p: nat, pos: nat, kind: Kind) returns (toks: seq<Token>)
    requires Inside(st, inner, base, p) && p <= pos && Close(st, kind, pos).Go?
    ensures var i := Innermost(inner.toks);
      && 0 <= i < |inner.toks| && toks == inner.toks[i := inner.toks[i].(end := pos + 1 - p)]
      && inner.toks != [] && toks[0].kind == inner.toks[0].kind && Container(toks[0]) && Started(toks) && Started(inner.toks)
      && (i > 0 ==> toks[0].end == -1 && 0 <= toks[0].start) && (i == 0 ==> toks[0].end == pos + 1 - p)
    ensures |st.toks| == |base| + |toks|
    ensures Close(inner, kind, pos - p) == Go(pos + 1 - p, State(toks, Innermost(toks)))
    ensures var all := base + AllMoved(toks, p);
      && Close(st, kind, pos) == Go(pos + 1, State(all, Innermost(all)))
      && all[|base|].end == if toks[0].end == -1 then -1 else toks[0].end + p
  {
    var i := Innermost(inner.toks);
    InsideFacts(st, inner, base, p);
    InnermostOpen(inner.toks, 0);
    InnermostMoved(base, inner.toks, p);
    toks := inner.toks[i := inner.toks[i].(end := pos + 1 - p)];
    assert inner.toks[i].kind == kind by {
      assert st.toks[|base| + i] == Moved(inner.toks[i], p);
    }
    hide Innermost, Close, Inside, AllMoved, Started;
    ClosedMoved(base, inner.toks, i, pos + 1 - p, p, pos + 1);
    CloseIs(st, kind, pos, |base| + i, base + AllMoved(toks, p));
    CloseIs(inner, kind, pos - p, i, toks);
    ClosedStarted(inner.toks, i, pos + 1 - p);
  }

  lemma InsideAgain(base: seq<Token>, toks: seq<Token>, p: nat, super: nat)
    requires Started(toks) && super < |toks| && toks[0].end == -1 && Container(toks[0])
    ensures Inside(State(base + AllMoved(toks, p), |base| + super), State(toks, super), base, p)
  {
  }

  lemma CloseIs(st: State, kind: Kind, pos: nat, i: nat, toks: seq<Token>)
    requires st.Ok() && Innermost(st.toks) == i && i < |st.toks| && st.toks[i].kind == kind
    requires toks == st.toks[i := st.toks[i].(end := pos + 1)]
    ensures Close(st, kind, pos) == Go(pos + 1, State(toks, Innermost(toks)))
  {
    hide Innermost;
  }

  lemma ClosedStarted(toks: seq<Token>, i: nat, end: nat)
    requires Started(toks) && i < |toks|
    ensures Started(toks[i := toks[i].(end := end)]) && (i > 0 ==> 0 <= toks[i := toks[i].(end := end)][0].start)
  {
  }

  lemma ClosedMoved(base: seq<Token>, toks: seq<Token>, i: nat, end: nat, p: nat, at: nat)
    requires i < |toks| && at == end + p
    ensures var all, closed := base + AllMoved(toks, p), toks[i := toks[i].(end := end)];
      && all[|base| + i] == Moved(toks[i], p)
      && all[|base| + i := all[|base| + i].(end := at)] == base + AllMoved(closed, p)
      && (base + AllMoved(closed, p))[|base|].end == if closed[0].end == -1 then -1 else closed[0].end + p
  {
    var closed := toks[i := toks[i].(end := end)];
    assert (base + AllMoved(closed, p))[|base|] == Moved(closed[0], p);
  }

  /** When the first token is the innermost one, closing it leaves none open. */
  lemma AllClosed(toks: seq<Token>, end: nat)
    requires toks != [] && Innermost(toks) == 0 && Started(toks)
    ensures Innermost(toks[0 := toks[0].(end := end)]) == -1
  {
    var c := toks[0 := toks[0].(end := end)];
    var i := Innermost(c);
    if i > 0 {
      assert toks[i] == c[i];
      InnermostIsLast(toks, i);
    }
  }

  /** One round within a container, and the same round on its piece of the text. */
  lemma NextInside(str: string, p: nat, e: nat, pos: nat, st: State, inner: State, base: seq<Token>, limit: nat)
    requires p <= pos < e <= |str| && More(str, pos) && st.Ok() && Inside(st, inner, base, p) && |inner.toks| <= pos - p
    requires Next(str, pos, st, limit).Go?
    requires var r := Next(str, pos, st, limit);
      r.pos <= e && |base| < |r.state.toks| && (r.state.toks[|base|].end == -1 ==> r.pos < e)
    ensures var r, q := Next(str, pos, st, limit), Next(str[p..e], pos - p, inner, e - p);
      && q.Go? && q.pos == r.pos - p && q.state.toks != [] && q.state.toks[0].kind == inner.toks[0].kind
      && if r.state.toks[|base|].end == -1 then Inside(r.state, q.state, base, p) && |q.state.toks| <= r.pos - p
         else Innermost(q.state.toks) == -1 && r.state.toks[|base|].end == r.pos
  {
    hide ScanString, ScanPrimitive, Delimiter, StartsPrimitive, Inside, Bump, Innermost, InnermostContainer, Close, AllMoved, Started;
    var piece, c, at := str[p..e], str[pos], pos - p;
    assert piece[at] == c;
    InsideFacts(st, inner, base, p);
    assert st.toks[|base| + 0] == Moved(inner.toks[0], p) && st.toks[|base| + inner.super] == Moved(inner.toks[inner.super], p);
    if c == '{' || c == '[' {
      var kind := if c == '{' then OBJECT else ARRAY;
      MoreInside(st, inner, base, p, Token(kind, at, -1, 0), |inner.toks|);
      StillOpen(st, inner, base, Moved(Token(kind, at, -1, 0), p), p);
    } else if c == '}' {
      CloseInside(st, inner, base, p, pos, OBJECT);
    } else if c == ']' {
      CloseInside(st, inner, base, p, pos, ARRAY);
    } else if c == '"' {
      var end := ScanString(str, pos + 1).end;
      StillOpen(st, inner, base, Token(STRING, pos + 1, end, 0), p);
      StringInPiece(str, p, e, pos + 1);
      MoreInside(st, inner, base, p, Token(STRING, at + 1, end - p, 0), inner.super);
    } else if Blank(c) {
    } else if c == ':' {
      SuperInside(st, inner, base, p, |inner.toks| - 1);
    } else if c == ',' {
      InnermostContainerMoved(base, inner.toks, p);
      SuperInside(st, inner, base, p, InnermostContainer(inner.toks));
    } else {
      var end := ScanPrimitive(str, pos).end;
      StillOpen(st, inner, base, Token(PRIMITIVE, pos, end, 0), p);
      PrimitiveInPiece(str, p, e, pos);
      MoreInside(st, inner, base, p, Token(PRIMITIVE, at, end - p, 0), inner.super);
    }
  }

  lemma InsideFacts(st: State, inner: State, base: seq<Token>, p: nat)
    requires Inside(st, inner, base, p)
    ensures inner.Ok() && 0 <= inner.super && st.super == |base| + inner.super && inner.toks != [] && inner.toks[0].end == -1
    ensures |st.toks| == |base| + |inner.toks| && st.toks == base + AllMoved(inner.toks, p) && Started(inner.toks) && Container(inner.toks[0])
    ensures forall k | 0 <= k < |inner.toks| :: st.toks[|base| + k] == Moved(inner.toks[k], p)
  {
  }

  lemma StillOpen(st: State, inner: State, base: seq<Token>, t: Token, p: nat)
    requires Inside(st, inner, base, p)
    ensures (Bump(st.toks, st.super) + [t])[|base|].end == -1
    ensures Bump(inner.toks, inner.super)[0].kind == inner.toks[0].kind && inner.toks != []
  {
  }

  lemma SuperInside(st: State, inner: State, base: seq<Token>, p: nat, super: nat)
    requires Inside(st, inner, base, p) && super < |inner.toks|
    ensures Inside(State(st.toks, |base| + super), State(inner.toks, super), base, p)
  {
  }

  // ----- a token once made -----

  lemma NextKeeps(str: string, pos: nat, st: State, limit: nat, j: nat)
    requires st.Ok() && More(str, pos) && j < |st.toks| && Next(str, pos, st, limit).Go?
    ensures var r := Next(str, pos, st, limit);
      && j < |r.state.toks| && r.state.toks[j].kind == st.toks[j].kind && r.state.toks[j].start == st.toks[j].start
      && (st.toks[j].end != -1 ==> r.state.toks[j].end == st.toks[j].end)
      && (r.state.toks[j].end == -1 || r.state.toks[j].end == st.toks[j].end || r.state.toks[j].end == r.pos)
  {
    hide ScanString, ScanPrimitive, Delimiter, StartsPrimitive, InnermostContainer;
  }

  /** A token keeps its kind and its start; it is closed once, later than now. */
  lemma {:induction false} RunKeeps(str: string, pos: nat, st: State, limit: nat, j: nat)
    requires st.Ok() && j < |st.toks| && 0 <= st.toks[j].start && Run(str, pos, st, limit).Tokens?
    ensures var toks := Run(str, pos, st, limit).toks;
      && j < |toks| && toks[j].kind == st.toks[j].kind && toks[j].start == st.toks[j].start
      && (if st.toks[j].end == -1 then pos < toks[j].end else toks[j].end == st.toks[j].end)
    decreases |str| - pos
  {
    if More(str, pos) {
      NextKeeps(str, pos, st, limit, j);
      hide Next;
      var r := Next(str, pos, st, limit);
      RunKeeps(str, r.pos, r.state, limit, j);
    } else if st.toks[j].end == -1 {
      InnermostOpen(st.toks, j);
    }
  }

  // ----- the whole container -----

  lemma {:induction false} RunInside(str: string, p: nat, e: nat, pos: nat, st: State, inner: State, base: seq<Token>, limit: nat)
    requires p <= pos < e <= |str| && st.Ok() && Inside(st, inner, base, p) && |inner.toks| <= pos - p
    requires Run(str, pos, st, limit).Tokens?
    requires var toks := Run(str, pos, st, limit).toks; |base| < |toks| && toks[|base|].end == e
    ensures var o := Run(str[p..e], pos - p, inner, e - p);
      o.Tokens? && o.toks != [] && o.toks[0].kind == inner.toks[0].kind
    decreases |str| - pos
  {
    hide Next, Inside, Innermost, Run, Moved, AllMoved, Started;
    var j := |base|;
    OpenInner(st, inner, base, p);
    OpenGoesOn(str, pos, st, limit, j);
    var piece := str[p..e];
    assert More(piece, pos - p) && |piece| == e - p;
    hide *;
    var r := Next(str, pos, st, limit);
    NextKeeps(str, pos, st, limit, j);
    RunKeeps(str, r.pos, r.state, limit, j);
    NextInside(str, p, e, pos, st, inner, base, limit);
    var q := Next(piece, pos - p, inner, e - p);
    DictPrinted.RunGo(piece, pos - p, inner, e - p, q.pos, q.state);
    if r.state.toks[j].end == -1 {
      RunInside(str, p, e, r.pos, r.state, q.state, base, limit);
    } else {
      DictPrinted.RunEnd(piece, q.state, e - p);
    }
  }

  lemma OpenInner(st: State, inner: State, base: seq<Token>, p: nat)
    requires Inside(st, inner, base, p)
    ensures inner.Ok() && inner.toks != [] && |base| < |st.toks| && 0 <= st.toks[|base|].start && st.toks[|base|].end == -1
  {
    InsideFacts(st, inner, base, p);
    assert st.toks[|base| + 0] == Moved(inner.toks[0], p);
  }

  /** With a token open there is more to come. */
  lemma OpenGoesOn(str: string, pos: nat, st: State, limit: nat, j: nat)
    requires st.Ok() && Run(str, pos, st, limit).Tokens? && j < |st.toks| && 0 <= st.toks[j].start && st.toks[j].end == -1
    ensures More(str, pos)
    ensures var r := Next(str, pos, st, limit); r.Go? && Run(str, pos, st, limit) == Run(str, r.pos, r.state, limit)
  {
    hide Next;
    InnermostOpen(st.toks, j);
  }

  /** From the moment a container token is made. */
  lemma {:induction false} RunScan(str: string, pos: nat, st: State, limit: nat, j: nat)
    requires st.Ok() && pos <= |str| && |st.toks| <= j && Run(str, pos, st, limit).Tokens?
    requires var toks := Run(str, pos, st, limit).toks; j < |toks| && Container(toks[j]) && HasText(str, toks[j])
    ensures var t := Run(str, pos, st, limit).toks[j];
      var o := Parse(str[t.start..t.end], t.end - t.start);
      o.Tokens? && o.toks != [] && o.toks[0].kind == t.kind
    decreases |str| - pos
  {
    if More(str, pos) {
      var r := Next(str, pos, st, limit);
      NextAdds(str, pos, st, limit);
      if |r.state.toks| <= j {
        hide Next;
        RunScan(str, r.pos, r.state, limit, j);
      } else {
        ContainerMade(str, pos, st, limit);
        RunKeeps(str, r.pos, r.state, limit, j);
        hide Next;
        var t := Run(str, pos, st, limit).toks[j];
        FromTheStart(str, pos, t.end, r.state, limit, t.kind);
      }
    }
  }

  lemma NextAdds(str: string, pos: nat, st: State, limit: nat)
    requires st.Ok() && More(str, pos) && Next(str, pos, st, limit).Go?
    ensures |Next(str, pos, st, limit).state.toks| <= |st.toks| + 1
  {
    hide ScanString, ScanPrimitive, Delimiter, StartsPrimitive, InnermostContainer, Innermost;
  }

  lemma ContainerMade(str: string, pos: nat, st: State, limit: nat)
    requires st.Ok() && More(str, pos) && Next(str, pos, st, limit).Go?
    ensures var r := Next(str, pos, st, limit);
      var n := |st.toks|;
      |r.state.toks| == n + 1 ==>
        && 0 <= r.state.toks[n].start
        && (Container(r.state.toks[n]) ==> r.pos == pos + 1 && Opened(str, pos, r.state, r.state.toks[n].kind))
  {
    hide ScanString, ScanPrimitive, Delimiter, StartsPrimitive, InnermostContainer, Innermost;
  }

  /** The last token is a container that has just been opened. */
  predicate Opened(str: string, pos: nat, st: State, kind: Kind) {
    var n := |st.toks| - 1;
    && 0 <= n && st.toks[n] == Token(kind, pos, -1, 0) && st.super == n
    && pos < |str| && ((str[pos] == '{' && kind == OBJECT) || (str[pos] == '[' && kind == ARRAY))
  }

  lemma FromTheStart(str: string, pos: nat, e: nat, st: State, limit: nat, kind: Kind)
    requires st.Ok() && Opened(str, pos, st, kind) && Run(str, pos + 1, st, limit).Tokens?
    requires var n, toks := |st.toks| - 1, Run(str, pos + 1, st, limit).toks; n < |toks| && toks[n].end == e
    requires pos + 1 < e <= |str|
    ensures var o := Parse(str[pos..e], e - pos); o.Tokens? && o.toks != [] && o.toks[0].kind == kind
  {
    var piece, n := str[pos..e], |st.toks| - 1;
    var inner := State([Token(kind, 0, -1, 0)], 0);
    var base := st.toks[..n];
    assert st.toks == base + AllMoved(inner.toks, pos);
    assert piece[0] == str[pos];
    assert Next(piece, 0, State([], -1), e - pos) == Go(1, inner);
    hide Next;
    RunInside(str, pos, e, pos + 1, st, inner, base, limit);
  }

  /** Every container of a tokenized text is tokenized again from its own piece of
      the text, and starts with a container of the same kind. */
  lemma ParsePiece(str: string, limit: nat, j: nat)
    requires Parse(str, limit).Tokens? && j < |Parse(str, limit).toks| && Container(Parse(str, limit).toks[j])
    requires HasText(str, Parse(str, limit).toks[j])
    ensures var t := Parse(str, limit).toks[j];
      var o := Parse(Text(str, t), t.end - t.start);
      o.Tokens? && o.toks != [] && o.toks[0].kind == t.kind
  {
    hide Run, Container;
    RunScan(str, 0, State([], -1), limit, j);
    hide Parse;
  }

  /** So the decoder never gets a null pointer for a nested container. */
  lemma NoNullChild(data: string, j: nat, name: string)
    requires Parse(data, |data|).Tokens? && j < |Parse(data, |data|).toks| && Container(Parse(data, |data|).toks[j])
    ensures HasText(data, Parse(data, |data|).toks[j])
    ensures Decode(Text(data, Parse(data, |data|).toks[j]), name) != NoObject
  {
    ParseSpanned(data, |data|);
    ParsePiece(data, |data|, j);
    var text := Text(data, Parse(data, |data|).toks[j]);
    hide Parse;
    ParseHasText(text);
    NotNothing(text, name);
  }

  lemma NotNothing(data: string, name: string)
    requires Parse(data, |data|).Tokens? && Parse(data, |data|).toks != [] && AllHaveText(data, Parse(data, |data|).toks)
    ensures Decode(data, name) != NoObject
  {
    hide Parse;
    var toks := Parse(data, |data|).toks;
    ListNotNothing(data, toks, 1, Marshal(name, LIST, [], []));
    MapNotNothing(data, toks, 1, Marshal(name, MAP, [], []), NoKey);
  }

  lemma {:induction false} ListNotNothing(data: string, toks: seq<Token>, i: nat, obj: Marshal)
    requires 1 <= i && AllHaveText(data, toks)
    ensures DecodeList(data, toks, i, obj) != NoObject
    decreases |toks| - i
  {
    hide Decode, Below, LeafOf;
    if i < |toks| {
      var t := toks[i];
      if t.kind == PRIMITIVE || t.kind == STRING {
        ListNotNothing(data, toks, i + 1, Add(obj, LeafOf([], data, t)));
      } else if Decode(Text(data, t), []).Object? && 0 <= Below(toks, i) {
        ListNotNothing(data, toks, i + 1 + Below(toks, i), Add(obj, Decode(Text(data, t), []).m));
      }
    }
  }

  lemma {:induction false} MapNotNothing(data: string, toks: seq<Token>, i: nat, obj: Marshal, key: Pending)
    requires 1 <= i && AllHaveText(data, toks)
    ensures DecodeMap(data, toks, i, obj, key) != NoObject
    decreases |toks| - i
  {
    hide Decode, Below, LeafOf;
    if i < |toks| {
      var t := toks[i];
      if t.kind == STRING && key.NoKey? {
        MapNotNothing(data, toks, i + 1, obj, Key(Text(data, t)));
      } else if key.NoKey? {
      } else if t.kind == PRIMITIVE || t.kind == STRING {
        MapNotNothing(data, toks, i + 1, Add(obj, LeafOf(key.name, data, t)), NoKey);
      } else if Decode(Text(data, t), key.name).Object? && 0 <= Below(toks, i) {
        MapNotNothing(data, toks, i + 1 + Below(toks, i), Add(obj, Decode(Text(data, t), key.name).m), NoKey);
      }
    }
  }
}

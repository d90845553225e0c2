/**
 * The tokenizer (src/dict.c): a text becomes a flat array of tokens, each with
 * its span in the text and the number of its direct children.
 */
module Dict {
  datatype Kind = PRIMITIVE | OBJECT | ARRAY | STRING

  datatype Token = Token(kind: Kind, start: int, end: int, size: int)

  /** Why tokenizing stops early. OUTSIDE is not an error code: it marks the
      inputs on which the tokenizer looks at the token before the first one. */
  datatype Error = NOMEM | INVAL | PART | OUTSIDE

  // ----- the steps of the tokenizer, as functions -----

  /** The tokens so far and toksuper; toknext is the number of tokens. */
  datatype State = State(toks: seq<Token>, super: int) {
    /** toksuper is -1 or a token. */
    predicate Ok() {
      -1 <= super < |toks|
    }
  }

  datatype Scan = Found(end: nat) | Failed(error: Error)

  predicate Blank(c: char) {
    c == '\t' || c == '\r' || c == '\n' || c == ' '
  }

  /** What may follow a primitive. */
  predicate Delimiter(c: char) {
    c == ':' || Blank(c) || c == ',' || c == ']' || c == '}'
  }

  predicate More(str: string, pos: nat) {
    pos < |str| && str[pos] != '\0'
  }

  function ScanPrimitive(str: string, pos: nat): (r: Scan)
    ensures r.Found? ==> pos <= r.end < |str|
    decreases |str| - pos
  {
    if !More(str, pos) then Failed(PART)
    else if Delimiter(str[pos]) then Found(pos)
    else if str[pos] < ' ' || str[pos] > '~' then Failed(INVAL)
    else ScanPrimitive(str, pos + 1)
  }

  predicate HexDigit(c: char) {
    '0' <= c <= '9' || 'A' <= c <= 'F' || 'a' <= c <= 'f'
  }

  /** At most n hexadecimal digits. */
  function ScanHex(str: string, pos: nat, n: nat): (r: Scan)
    ensures r.Found? ==> pos <= r.end && (pos <= |str| ==> r.end <= |str|)
    decreases n
  {
    if n == 0 || !More(str, pos) then Found(pos)
    else if !HexDigit(str[pos]) then Failed(INVAL)
    else ScanHex(str, pos + 1, n - 1)
  }

  predicate Escaped(c: char) {
    c == '"' || c == '/' || c == '\\' || c == 'b' || c == 'f' || c == 'r' || c == 'n' || c == 't'
  }

  /** The closing quote of a string, from behind its opening quote. */
  function ScanString(str: string, pos: nat): (r: Scan)
    ensures r.Found? ==> pos <= r.end < |str|
    decreases |str| - pos
  {
    if !More(str, pos) then Failed(PART)
    else if str[pos] == '"' then Found(pos)
    else if str[pos] == '\\' && pos + 1 < |str| then
      if Escaped(str[pos + 1]) then ScanString(str, pos + 2)
      else if str[pos + 1] == 'u' then
        match ScanHex(str, pos + 2, 4)
        case Failed(e) => Failed(e)
        case Found(end) => ScanString(str, end)
      else Failed(INVAL)
    else ScanString(str, pos + 1)
  }

  /** The last token that has not been closed, or -1. */
  function Innermost(toks: seq<Token>): (i: int)
    ensures -1 <= i < |toks|
    ensures i >= 0 ==> toks[i].start != -1 && toks[i].end == -1
  {
    if toks == [] then -1
    else if toks[|toks| - 1].start != -1 && toks[|toks| - 1].end == -1 then |toks| - 1
    else Innermost(toks[..|toks| - 1])
  }

  predicate Container(t: Token) {
    t.kind == ARRAY || t.kind == OBJECT
  }

  /** The last container that has not been closed, or -1. */
  function InnermostContainer(toks: seq<Token>): (i: int)
    ensures -1 <= i < |toks|
  {
    if toks == [] then -1
    else if Container(toks[|toks| - 1]) && toks[|toks| - 1].start != -1 && toks[|toks| - 1].end == -1 then |toks| - 1
    else InnermostContainer(toks[..|toks| - 1])
  }

  /** One more child for the superior token, if there is one. */
  function Bump(toks: seq<Token>, super: int): (r: seq<Token>)
    requires -1 <= super < |toks|
    ensures |r| == |toks|
  {
    if super == -1 then toks else toks[super := toks[super].(size := toks[super].size + 1)]
  }

  datatype Progress = Go(pos: nat, state: State) | Stop(error: Error)

  function Open(st: State, kind: Kind, pos: nat, limit: nat): Progress
    requires st.Ok()
  {
    if |st.toks| >= limit then Stop(NOMEM)
    else Go(pos + 1, State(Bump(st.toks, st.super) + [Token(kind, pos, -1, 0)], |st.toks|))
  }

  function Close(st: State, kind: Kind, pos: nat): Progress
    requires st.Ok()
  {
    var i := Innermost(st.toks);
    if i == -1 || st.toks[i].kind != kind then Stop(INVAL)
    else
      var toks := st.toks[i := st.toks[i].(end := pos + 1)];
      Go(pos + 1, State(toks, Innermost(toks)))
  }

  function Comma(st: State, pos: nat): Progress
    requires st.Ok()
  {
    if st.super == -1 then Stop(OUTSIDE)
    else if Container(st.toks[st.super]) then Go(pos + 1, st)
    else
      var i := InnermostContainer(st.toks);
      Go(pos + 1, if i == -1 then st else State(st.toks, i))
  }

  /** A string or primitive that ends before `end`. */
  function Leaf(st: State, kind: Kind, start: nat, end: nat, next: nat, limit: nat): Progress
    requires st.Ok()
  {
    if |st.toks| >= limit then Stop(NOMEM)
    else Go(next, State(Bump(st.toks, st.super) + [Token(kind, start, end, 0)], st.super))
  }

  predicate StartsPrimitive(c: char) {
    c == '-' || '0' <= c <= '9' || c == 't' || c == 'f' || c == 'n'
  }

  /** A primitive must not stand where a key is expected, nor follow a value. */
  predicate Misplaced(st: State)
    requires st.Ok() && st.super != -1
  {
    var t := st.toks[st.super];
    t.kind == OBJECT || (t.kind == STRING && t.size != 0)
  }

  /** One round of the loop of dict_parse. */
  function Next(str: string, pos: nat, st: State, limit: nat): (r: Progress)
    requires More(str, pos) && st.Ok()
    ensures r.Go? ==> pos < r.pos <= |str| && r.state.Ok()
  {
    var c := str[pos];
    if c == '{' then Open(st, OBJECT, pos, limit)
    else if c == '[' then Open(st, ARRAY, pos, limit)
    else if c == '}' then Close(st, OBJECT, pos)
    else if c == ']' then Close(st, ARRAY, pos)
    else if c == '"' then
      match ScanString(str, pos + 1)
      case Failed(e) => Stop(e)
      case Found(end) => Leaf(st, STRING, pos + 1, end, end + 1, limit)
    else if Blank(c) then Go(pos + 1, st)
    else if c == ':' then Go(pos + 1, State(st.toks, |st.toks| - 1))
    else if c == ',' then Comma(st, pos)
    else if StartsPrimitive(c) then
      if st.super == -1 then Stop(OUTSIDE)
      else if Misplaced(st) then Stop(INVAL)
      else
        match ScanPrimitive(str, pos)
        case Failed(e) => Stop(e)
        case Found(end) => Leaf(st, PRIMITIVE, pos, end, end, limit)
    else Stop(INVAL)
  }

  datatype Outcome = Tokens(toks: seq<Token>) | Error(error: Error)

  function Run(str: string, pos: nat, st: State, limit: nat): Outcome
    requires st.Ok()
    decreases |str| - pos
  {
    if More(str, pos) then
      match Next(str, pos, st, limit)
      case Stop(e) => Error(e)
      case Go(pos', st') => Run(str, pos', st', limit)
    else if Innermost(st.toks) != -1 then Error(PART)
    else Tokens(st.toks)
  }

  /** dict_parse on a fresh parser. */
  function Parse(str: string, limit: nat): Outcome {
    Run(str, 0, State([], -1), limit)
  }

  // ----- the tokenizer itself -----

  datatype Count = Count(n: nat) | Fails(error: Error)

  class Parser {
    const tokens: array<Token>
    var pos: nat
    var toknext: nat
    var toksuper: int

    ghost predicate Valid()
      reads this
    {
      toknext <= tokens.Length && -1 <= toksuper < toknext
    }

    ghost function Now(): State
      requires Valid()
      reads this, tokens
    {
      State(tokens[..toknext], toksuper)
    }

    /** dict_init over an array of tokens. */
    constructor (tokens: array<Token>)
      ensures Valid() && Now() == State([], -1) && pos == 0 && this.tokens == tokens
    {
      this.tokens := tokens;
      pos, toknext, toksuper := 0, 0, -1;
    }

    /** One more child for the superior token. */
    method BumpSuper()
      requires Valid()
      modifies tokens
      ensures Valid() && tokens[..toknext] == Bump(old(tokens[..toknext]), toksuper)
    {
      if toksuper != -1 {
        tokens[toksuper] := tokens[toksuper].(size := tokens[toksuper].size + 1);
      }
    }

    /** dict_alloc_token and dict_fill_token. */
    method AllocToken(kind: Kind, start: int, end: int) returns (ok: bool)
      requires Valid()
      modifies `toknext, tokens
      ensures Valid() && ok == (old(toknext) < tokens.Length)
      ensures !ok ==> Now() == old(Now())
      ensures ok ==> toknext == old(toknext) + 1 && tokens[..toknext] == old(tokens[..toknext]) + [Token(kind, start, end, 0)]
    {
      ok := toknext < tokens.Length;
      if ok {
        tokens[toknext] := Token(kind, start, end, 0);
        toknext := toknext + 1;
      }
    }

    /** A new token as a child of the superior one. */
    method Emit(kind: Kind, start: int, end: int) returns (ok: bool)
      requires Valid()
      modifies `toknext, tokens
      ensures Valid() && ok == (old(toknext) < tokens.Length)
      ensures ok ==> toknext == old(toknext) + 1 && tokens[..toknext] == Bump(old(tokens[..toknext]), toksuper) + [Token(kind, start, end, 0)]
    {
      ghost var was := tokens[..toknext];
      ok := AllocToken(kind, start, end);
      if ok {
        BumpSuper();
        BumpPrefix(was, Token(kind, start, end, 0), toksuper);
      }
    }

    /** dict_parse_primitive. */
    method ParsePrimitive(str: string) returns (end: nat, error: bool, e: Error)
      requires More(str, pos)
      ensures error <==> ScanPrimitive(str, pos).Failed?
      ensures if error then e == ScanPrimitive(str, pos).error else end == ScanPrimitive(str, pos).end
    {
      end, error, e := pos, false, PART;
      while end < |str| && str[end] != '\0'
        invariant pos <= end <= |str|
        invariant ScanPrimitive(str, pos) == ScanPrimitive(str, end)
      {
        if Delimiter(str[end]) {
          return;
        }
        if str[end] < ' ' || str[end] > '~' {
          error, e := true, INVAL;
          return;
        }
        end := end + 1;
      }
      error := true;
    }

    /** dict_parse_string. */
    method ParseString(str: string) returns (end: nat, error: bool, e: Error)
      requires More(str, pos)
      ensures error <==> ScanString(str, pos + 1).Failed?
      ensures if error then e == ScanString(str, pos + 1).error else end == ScanString(str, pos + 1).end
    {
      end, error, e := pos + 1, false, PART;
      while end < |str| && str[end] != '\0'
        invariant pos < end <= |str|
        invariant ScanString(str, pos + 1) == ScanString(str, end)
        decreases |str| - end
      {
        if str[end] == '"' {
          return;
        }
        if str[end] == '\\' && end + 1 < |str| {
          if Escaped(str[end + 1]) {
            end := end + 2;
          } else if str[end + 1] == 'u' {
            ghost var from := end + 2;
            end := end + 2;
            var i := 0;
            while i < 4 && end < |str| && str[end] != '\0'
              invariant 0 <= i <= 4 && from <= end <= |str|
              invariant ScanHex(str, from, 4) == ScanHex(str, end, 4 - i)
            {
              if !HexDigit(str[end]) {
                error, e := true, INVAL;
                return;
              }
              end := end + 1;
              i := i + 1;
            }
          } else {
            error, e := true, INVAL;
            return;
          }
        } else {
          end := end + 1;
        }
      }
      error := true;
    }

    /** The part of dict_parse that looks for the innermost open token. */
    method FindOpen() returns (i: int)
      requires Valid()
      ensures i == Innermost(tokens[..toknext])
    {
      i := toknext - 1;
      while i >= 0 && !(tokens[i].start != -1 && tokens[i].end == -1)
        invariant -1 <= i < toknext
        invariant Innermost(tokens[..toknext]) == Innermost(tokens[..i + 1])
      {
        assert tokens[..i + 1][..i] == tokens[..i];
        i := i - 1;
      }
      assert i >= 0 ==> tokens[..i + 1][i] == tokens[i];
    }

    method FindOpenContainer() returns (i: int)
      requires Valid()
      ensures i == InnermostContainer(tokens[..toknext])
    {
      i := toknext - 1;
      while i >= 0 && !(Container(tokens[i]) && tokens[i].start != -1 && tokens[i].end == -1)
        invariant -1 <= i < toknext
        invariant InnermostContainer(tokens[..toknext]) == InnermostContainer(tokens[..i + 1])
      {
        assert tokens[..i + 1][..i] == tokens[..i];
        i := i - 1;
      }
      assert i >= 0 ==> tokens[..i + 1][i] == tokens[i];
    }

    /** One round of the loop of dict_parse; true when it goes on. */
    method Round(str: string) returns (go: bool, e: Error)
      requires Valid() && More(str, pos)
      modifies this, tokens
      ensures var r := Next(str, old(pos), old(Now()), tokens.Length);
        && (go <==> r.Go?) && Valid()
        && (if go then pos == r.pos && Now() == r.state else e == r.error)
    {
      go, e := true, INVAL;
      var c := str[pos];
      if c == '{' || c == '[' {
        go := Emit(if c == '{' then OBJECT else ARRAY, pos, -1);
        if !go {
          return false, NOMEM;
        }
        toksuper := toknext - 1;
        pos := pos + 1;
      } else if c == '}' || c == ']' {
        go := CloseToken(if c == '}' then OBJECT else ARRAY);
      } else if c == '"' {
        var end, error, e' := ParseString(str);
        if error {
          return false, e';
        }
        go := Emit(STRING, pos + 1, end);
        if !go {
          return false, NOMEM;
        }
        pos := end + 1;
      } else if Blank(c) {
        pos := pos + 1;
      } else if c == ':' {
        toksuper := toknext - 1;
        pos := pos + 1;
      } else if c == ',' {
        if toksuper == -1 {
          return false, OUTSIDE;
        }
        if !Container(tokens[toksuper]) {
          var i := FindOpenContainer();
          if i != -1 {
            toksuper := i;
          }
        }
        pos := pos + 1;
      } else if StartsPrimitive(c) {
        if toksuper == -1 {
          return false, OUTSIDE;
        }
        if tokens[toksuper].kind == OBJECT || (tokens[toksuper].kind == STRING && tokens[toksuper].size != 0) {
          return false, INVAL;
        }
        var end, error, e' := ParsePrimitive(str);
        if error {
          return false, e';
        }
        go := Emit(PRIMITIVE, pos, end);
        if !go {
          return false, NOMEM;
        }
        pos := end;
      } else {
        go := false;
      }
    }

    /** The part of dict_parse that handles a closing bracket. */
    method CloseToken(kind: Kind) returns (go: bool)
      requires Valid()
      modifies `pos, `toksuper, tokens
      ensures var r := Close(old(Now()), kind, old(pos));
        && (go <==> r.Go?) && Valid()
        && (if go then pos == r.pos && Now() == r.state else r.error == INVAL)
    {
      var i := FindOpen();
      if i == -1 || tokens[i].kind != kind {
        return false;
      }
      tokens[i] := tokens[i].(end := pos + 1);
      toksuper := FindOpen();
      pos := pos + 1;
      go := true;
    }

    /** dict_parse: the number of tokens, or why there are none. */
    method Parse(str: string) returns (r: Count)
      requires Valid()
      modifies this, tokens
      ensures Valid()
      ensures var o := Run(str, old(pos), old(Now()), tokens.Length);
        if o.Error? then r == Fails(o.error) else r == Count(|o.toks|) && tokens[..toknext] == o.toks
    {
      while pos < |str| && str[pos] != '\0'
        invariant Valid() && Run(str, pos, Now(), tokens.Length) == old(Run(str, pos, Now(), tokens.Length))
        decreases |str| - pos
      {
        var go, e := Round(str);
        if !go {
          return Fails(e);
        }
      }
      var i := FindOpen();
      if i != -1 {
        return Fails(PART);
      }
      r := Count(toknext);
    }
  }

  lemma BumpPrefix(toks: seq<Token>, t: Token, super: int)
    requires -1 <= super < |toks|
    ensures Bump(toks + [t], super) == Bump(toks, super) + [t]
  {
  }
}

/**
 * Object trees (marshall_t, src/marshall.h) and what they look like as text
 * (marshall_serialize, src/dict_marshall.c).
 */
module Marshal {

  datatype Type = NULL | TRUE | FALSE | INT | FLOAT | TEXT | QUID | LIST | MAP

  /** marshall_t; an empty name stands for a missing one. */
  datatype Marshal = Marshal(name: string, tag: Type, data: string, kids: seq<Marshal>)

  // ----- text -----

  /** The characters stresc puts a backslash in front of, and what it writes. */
  function Stresc1(c: char): string {
    if c == '"' then "\\\""
    else if c == '\\' then "\\\\"
    else if c == '\U{7}' then "\\a"
    else if c == '\U{8}' then "\\b"
    else if c == '\t' then "\\t"
    else if c == '\n' then "\\n"
    else if c == '\U{b}' then "\\v"
    else if c == '\U{c}' then "\\f"
    else if c == '\r' then "\\r"
    else [c]
  }

  function Stresc(s: string): string {
    if s == [] then [] else Stresc1(s[0]) + Stresc(s[1..])
  }

  /** A string that stresc leaves alone; C strings hold no zero character. */
  predicate Clean(s: string) {
    forall i | 0 <= i < |s| :: Stresc1(s[i]) == [s[i]] && s[i] != '\0'
  }

  lemma {:induction false} CleanUnescaped(s: string)
    requires Clean(s)
    ensures Stresc(s) == s
  {
    if s != [] {
      assert forall i | 0 <= i < |s| - 1 :: s[1..][i] == s[i + 1];
      CleanUnescaped(s[1..]);
      assert s == [s[0]] + s[1..];
    }
  }

  /** The character that a letter behind a backslash stands for in C. */
  function Meant(c: char): char {
    if c == 'a' then '\U{7}'
    else if c == 'b' then '\U{8}'
    else if c == 't' then '\t'
    else if c == 'n' then '\n'
    else if c == 'v' then '\U{b}'
    else if c == 'f' then '\U{c}'
    else if c == 'r' then '\r'
    else c
  }

  function Unescape(s: string): string {
    if s == [] then []
    else if s[0] == '\\' && |s| > 1 then [Meant(s[1])] + Unescape(s[2..])
    else [s[0]] + Unescape(s[1..])
  }

  /** What stresc writes stands for the string it was given. */
  lemma {:induction false} StrescMeans(s: string)
    ensures Unescape(Stresc(s)) == s
    decreases |s|
  {
    if s != [] {
      StrescMeans(s[1..]);
      UnescapeFirst(s[0], Stresc(s[1..]));
      hide Stresc1, Unescape;
      assert s == [s[0]] + s[1..];
    }
  }

  lemma UnescapeFirst(c: char, rest: string)
    ensures Unescape(Stresc1(c) + rest) == [c] + Unescape(rest)
  {
    var s := Stresc1(c) + rest;
    MeantBack(c);
    hide Stresc1, Meant;
    if |Stresc1(c)| == 2 {
      assert s[2..] == rest;
    } else {
      assert s[1..] == rest;
    }
  }

  lemma MeantBack(c: char)
    ensures var e := Stresc1(c);
      if |e| == 2 then e[0] == '\\' && Meant(e[1]) == c else e == [c] && c != '\\'
  {
  }

  function Prefix(name: string): string {
    if name == [] then [] else "\"" + name + "\":"
  }

  /** The value alone, without its name. */
  function Body(m: Marshal): string
    decreases m, 1
  {
    match m.tag
    case NULL => "null"
    case TRUE => "true"
    case FALSE => "false"
    case INT => m.data
    case FLOAT => m.data
    case TEXT => if m.name != [] then "\"" + m.data + "\"" else "\"" + Stresc(m.data) + "\""
    case QUID => if m.name != [] then "\"" + m.data + "\"" else "\"" + Stresc(m.data) + "\""
    case LIST => if m.kids == [] then "null" else "[" + Joined(m.kids) + "]"
    case MAP => if m.kids == [] then "null" else "{" + Joined(m.kids) + "}"
  }

  function Print(m: Marshal): string
    decreases m, 2
  {
    Prefix(m.name) + Body(m)
  }

  /** The children, separated by commas. */
  function Joined(kids: seq<Marshal>): string
    decreases kids, 0
  {
    if kids == [] then []
    else if |kids| == 1 then Print(kids[0])
    else Print(kids[0]) + "," + Joined(kids[1..])
  }

  lemma {:induction false} JoinedSnoc(kids: seq<Marshal>, i: nat)
    requires 0 < i < |kids|
    ensures Joined(kids[..i + 1]) == Joined(kids[..i]) + "," + Print(kids[i])
  {
    hide Print;
    var a, b := kids[..i], kids[..i + 1];
    if i == 1 {
      assert b[1..] == [kids[1]] && a == [kids[0]];
    } else {
      var t := kids[1..];
      JoinedSnoc(t, i - 1);
      assert a[1..] == t[..i - 1] && b[1..] == t[..i] && t[i - 1] == kids[i];
      Regroup(Print(kids[0]) + ",", Joined(a[1..]), ",", Print(kids[i]));
    }
  }

  lemma Regroup(a: string, b: string, c: string, d: string)
    ensures a + (b + c + d) == a + b + c + d
  {
  }

  /** marshall_serialize. */
  method Serialize(m: Marshal) returns (data: string)
    ensures data == Print(m)
    decreases m, 2
  {
    match m.tag {
      case NULL => data := Named(m.name, "null");
      case TRUE => data := Named(m.name, "true");
      case FALSE => data := Named(m.name, "false");
      case INT => data := Named(m.name, m.data);
      case FLOAT => data := Named(m.name, m.data);
      case TEXT => data := Quoted(m);
      case QUID => data := Quoted(m);
      case LIST => data := SerializeKids(m, "[", "]");
      case MAP => data := SerializeKids(m, "{", "}");
    }
  }

  method Named(name: string, value: string) returns (data: string)
    ensures data == Prefix(name) + value
  {
    data := if name != [] then "\"" + name + "\":" + value else value;
  }

  method Quoted(m: Marshal) returns (data: string)
    requires m.tag == TEXT || m.tag == QUID
    ensures data == Print(m)
  {
    if m.name != [] {
      data := "\"" + m.name + "\":\"" + m.data + "\"";
      assert data == Prefix(m.name) + ("\"" + m.data + "\"");
    } else {
      data := "\"" + Stresc(m.data) + "\"";
    }
  }

  /** The part of marshall_serialize that prints a container. The buffer is sized
      in a first pass over the children, and what is written fits. */
  method SerializeKids(m: Marshal, open: string, close: string) returns (data: string)
    requires (m.tag == LIST && open == "[" && close == "]") || (m.tag == MAP && open == "{" && close == "}")
    ensures data == Print(m)
    decreases m, 1
  {
    if m.kids == [] {
      data := Named(m.name, "null");
      return;
    }
    var nsz := SizeKids(m);
    data := Named(m.name, []);
    var elms := AppendKids(m);
    data := data + open + elms + close;
    assert data == Prefix(m.name) + (open + Joined(m.kids) + close);
    assert |data| <= nsz;
  }

  /** The first pass: how much room the container takes. */
  method SizeKids(m: Marshal) returns (nsz: nat)
    requires m.kids != []
    ensures |Joined(m.kids)| + |m.kids| + 4 + |m.name| <= nsz
    decreases m, 0
  {
    hide Print, Joined;
    nsz := 0;
    var i := 0;
    while i < |m.kids|
      invariant 0 <= i <= |m.kids|
      invariant nsz == if i == 0 then 0 else |Joined(m.kids[..i])| + i + 1
    {
      var elm := Serialize(m.kids[i]);
      nsz := nsz + |elm| + 2;
      JoinedNext(m.kids, i);
      i := i + 1;
    }
    assert m.kids[..i] == m.kids;
    nsz := nsz + |m.name| + |m.kids| + 2;
  }

  /** The second pass: the children and the commas between them. */
  method AppendKids(m: Marshal) returns (data: string)
    ensures data == Joined(m.kids)
    decreases m, 0
  {
    hide Print, Joined;
    data := [];
    var i := 0;
    JoinedNone(m.kids);
    while i < |m.kids|
      invariant 0 <= i <= |m.kids| && data == Joined(m.kids[..i])
    {
      JoinedNext(m.kids, i);
      if i > 0 {
        data := data + ",";
      }
      var elm := Serialize(m.kids[i]);
      data := data + elm;
      i := i + 1;
    }
    assert m.kids[..i] == m.kids;
  }

  lemma JoinedNone(kids: seq<Marshal>)
    ensures Joined(kids[..0]) == []
  {
  }

  lemma JoinedNext(kids: seq<Marshal>, i: nat)
    requires i < |kids|
    ensures Joined(kids[..i + 1]) == (if i > 0 then Joined(kids[..i]) + "," else []) + Print(kids[i])
  {
    hide Print;
    if i > 0 {
      JoinedSnoc(kids, i);
    } else {
      assert kids[..1] == [kids[0]];
      assert [] + Print(kids[0]) == Print(kids[0]);
    }
  }
}

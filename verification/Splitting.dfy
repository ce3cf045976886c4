/** Splitting a string at the delimiters that are neither quoted nor escaped, as a function
    of the string. */
module Splitting {
  import opened Maybes

  datatype Mode = Plain | Single | Double | Escaped

  /** A character at which a string may be split: percent signs and the quoting characters
      are never delimiters. */
  predicate Delimits(c: char, delim: string) {
    c in delim && c != '\0' && c != '\'' && c != '\"' && c != '\\' && c != '%'
  }

  predicate Quoting(c: char) {
    c == '\'' || c == '\"' || c == '\\'
  }

  function After(m: Mode, c: char): Mode {
    match m
    case Plain => if c == '\'' then Single else if c == '\"' then Double else if c == '\\' then Escaped else Plain
    case Single => if c == '\'' then Plain else Single
    case Double => if c == '\"' then Plain else Double
    case Escaped => Plain
  }

  /** Whether a character is part of the token: quotes and escapes that count as such are not. */
  predicate Copied(m: Mode, c: char) {
    match m
    case Plain => !Quoting(c)
    case Single => c != '\''
    case Double => c != '\"'
    case Escaped => true
  }

  predicate Splits(m: Mode, c: char, delim: string) {
    m == Plain && Delimits(c, delim)
  }

  datatype Piece = Piece(token: string, rest: Maybe<string>)

  /** The first token of s and what follows its delimiter. */
  function Take(m: Mode, s: string, delim: string): Piece
    decreases |s|
  {
    if s == [] then Piece([], None)
    else if Splits(m, s[0], delim) then Piece([], Some(s[1..]))
    else
      var r := Take(After(m, s[0]), s[1..], delim);
      r.(token := (if Copied(m, s[0]) then [s[0]] else []) + r.token)
  }

  /** All tokens, the first of them begun in a given mode. */
  function Split(m: Mode, s: string, delim: string): (r: seq<string>)
    ensures |r| > 0
    decreases |s|
  {
    if s == [] then [[]]
    else if Splits(m, s[0], delim) then [[]] + Split(Plain, s[1..], delim)
    else
      var r := Split(After(m, s[0]), s[1..], delim);
      [(if Copied(m, s[0]) then [s[0]] else []) + r[0]] + r[1..]
  }

  /** Taking tokens one after the other is splitting. */
  lemma {:induction false} TakeSplit(m: Mode, s: string, delim: string)
    ensures var p := Take(m, s, delim); var r := Split(m, s, delim);
      && r[0] == p.token
      && (p.rest == None <==> |r| == 1)
      && (p.rest != None ==> |p.rest.value| < |s| && r[1..] == Split(Plain, p.rest.value, delim))
    decreases |s|
  {
    if s != [] && !Splits(m, s[0], delim) {
      TakeSplit(After(m, s[0]), s[1..], delim);
    }
  }

  // ----- round trip -----

  /** A backslash before each character that would otherwise count. */
  function Escape(f: string, delim: string): string {
    if f == [] then []
    else (if Quoting(f[0]) || f[0] in delim then ['\\', f[0]] else [f[0]]) + Escape(f[1..], delim)
  }

  function Join(fs: seq<string>, d: char, delim: string): string
    requires fs != []
  {
    if |fs| == 1 then Escape(fs[0], delim)
    else Escape(fs[0], delim) + [d] + Join(fs[1..], d, delim)
  }

  /** An escaped character, and one that needs no escape, open the next token. */
  lemma SplitFirst(c: char, rest: string, delim: string)
    ensures var t := Split(Plain, rest, delim); var r := [[c] + t[0]] + t[1..];
      && Split(Plain, ['\\', c] + rest, delim) == r
      && (!Quoting(c) && c !in delim ==> Split(Plain, [c] + rest, delim) == r)
  {
    var t := Split(Plain, rest, delim);
    var s := ['\\', c] + rest;
    assert s[1..] == [c] + rest && ([c] + rest)[1..] == rest;
    assert Split(Escaped, [c] + rest, delim) == [[c] + t[0]] + t[1..];
    assert [] + ([c] + t[0]) == [c] + t[0];
  }

  lemma {:induction false} SplitEscaped(f: string, tail: string, delim: string)
    ensures var r := Split(Plain, tail, delim);
      Split(Plain, Escape(f, delim) + tail, delim) == [f + r[0]] + r[1..]
    decreases |f|
  {
    var r := Split(Plain, tail, delim);
    if f == [] {
      assert [] + tail == tail && [] + r[0] == r[0] && [r[0]] + r[1..] == r;
    } else {
      var rest := Escape(f[1..], delim) + tail;
      SplitEscaped(f[1..], tail, delim);
      SplitFirst(f[0], rest, delim);
      Rejoined(f, r[0]);
      EscapeFirst(f, tail, delim);
    }
  }

  lemma Rejoined(f: string, g: string)
    requires f != []
    ensures [f[0]] + (f[1..] + g) == f + g
  {
  }

  lemma EscapeFirst(f: string, tail: string, delim: string)
    requires f != []
    ensures Escape(f, delim) + tail
         == (if Quoting(f[0]) || f[0] in delim then ['\\', f[0]] else [f[0]]) + (Escape(f[1..], delim) + tail)
  {
  }

  /** Escaping fields, joining them by a delimiter and splitting again gives the fields back,
      empty ones included. */
  lemma {:induction false} RoundTrip(fs: seq<string>, d: char, delim: string)
    requires fs != [] && Delimits(d, delim)
    ensures Split(Plain, Join(fs, d, delim), delim) == fs
    decreases |fs|
  {
    if |fs| == 1 {
      SplitEscaped(fs[0], [], delim);
      assert Escape(fs[0], delim) + [] == Escape(fs[0], delim);
      assert fs[0] + [] == fs[0] && fs == [fs[0]];
    } else {
      var tail := [d] + Join(fs[1..], d, delim);
      RoundTrip(fs[1..], d, delim);
      SplitEscaped(fs[0], tail, delim);
      assert Escape(fs[0], delim) + [d] + Join(fs[1..], d, delim) == Escape(fs[0], delim) + tail;
      assert tail[1..] == Join(fs[1..], d, delim);
      assert Split(Plain, tail, delim) == [[]] + fs[1..];
      assert fs[0] + [] == fs[0] && [fs[0]] + fs[1..] == fs;
    }
  }

  // ----- the last delimiter -----

  /** Where the last delimiter that counts is, if there is one. */
  function LastCut(m: Mode, s: string, delim: string): (k: Maybe<nat>)
    ensures k != None ==> k.value < |s|
    decreases |s|
  {
    if s == [] then None
    else
      match LastCut(if Splits(m, s[0], delim) then Plain else After(m, s[0]), s[1..], delim)
      case Some(k) => Some(k + 1)
      case None => if Splits(m, s[0], delim) then Some(0) else None
  }

  /** Cutting there drops the last token and keeps the others; without such a delimiter there
      is only one token. */
  lemma {:induction false} CutDropsLast(m: Mode, s: string, delim: string)
    ensures var r := Split(m, s, delim);
      match LastCut(m, s, delim)
      case None => |r| == 1
      case Some(k) => |r| > 1 && Split(m, s[..k], delim) == r[..|r| - 1]
    decreases |s|
  {
    if s != [] {
      var next := if Splits(m, s[0], delim) then Plain else After(m, s[0]);
      CutDropsLast(next, s[1..], delim);
      match LastCut(next, s[1..], delim)
      case None => FirstCut(m, s, delim);
      case Some(j) => LaterCut(m, s, j, delim);
    }
  }

  lemma FirstCut(m: Mode, s: string, delim: string)
    requires s != []
    requires |Split(if Splits(m, s[0], delim) then Plain else After(m, s[0]), s[1..], delim)| == 1
    ensures var r := Split(m, s, delim);
      if Splits(m, s[0], delim) then |r| == 2 && Split(m, s[..0], delim) == r[..1] else |r| == 1
  {
    assert s[..0] == [];
  }

  lemma LaterCut(m: Mode, s: string, j: nat, delim: string)
    requires j < |s| - 1
    requires var next := if Splits(m, s[0], delim) then Plain else After(m, s[0]);
      var u := Split(next, s[1..], delim);
      |u| > 1 && Split(next, s[1..][..j], delim) == u[..|u| - 1]
    ensures var r := Split(m, s, delim); |r| > 1 && Split(m, s[..j + 1], delim) == r[..|r| - 1]
  {
    var split := Splits(m, s[0], delim);
    var next := if split then Plain else After(m, s[0]);
    var x: string := if !split && Copied(m, s[0]) then [s[0]] else [];
    SplitPrefix(m, s, j, delim);
    FrontOf(x, Split(next, s[1..], delim));
  }

  lemma SplitPrefix(m: Mode, s: string, j: nat, delim: string)
    requires j < |s|
    ensures Split(m, s[..j + 1], delim)
         == if Splits(m, s[0], delim) then [[]] + Split(Plain, s[1..][..j], delim)
            else
              var u := Split(After(m, s[0]), s[1..][..j], delim);
              [(if Copied(m, s[0]) then [s[0]] else []) + u[0]] + u[1..]
  {
    assert s[..j + 1][1..] == s[1..][..j];
  }

  lemma FrontOf(x: string, u: seq<string>)
    requires |u| > 1
    ensures var f := u[..|u| - 1];
      && ([[]] + u)[..|u|] == [[]] + f
      && ([x + u[0]] + u[1..])[..|u| - 1] == [x + f[0]] + f[1..]
  {
  }
}

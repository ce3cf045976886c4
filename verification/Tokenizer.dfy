/** The tokenizer as a table-driven machine that overwrites the string it reads. */
module Tokenizer {
  import opened Splitting
  import Quoting
  import opened Maybes

  // states, and classes of characters
  const CHAR: nat := 0
  const QUOTE: nat := 1
  const DOUBLEQ: nat := 2
  const ESC: nat := 3
  const PERC: nat := 4
  const PER2: nat := 5
  const DELIM: nat := 6
  const END: nat := 7

  const COPY: nat := 1

  const NEXTSTATE: seq<seq<nat>> := [
    [CHAR, QUOTE, DOUBLEQ, ESC, PERC, 0, DELIM, END],
    [QUOTE, CHAR, QUOTE, QUOTE, QUOTE, 0, QUOTE, END],
    [DOUBLEQ, DOUBLEQ, CHAR, DOUBLEQ, DOUBLEQ, 0, DOUBLEQ, END],
    [CHAR, CHAR, CHAR, CHAR, CHAR, 0, CHAR, END],
    [PER2, QUOTE, DOUBLEQ, ESC, PERC, 0, DELIM, END],
    [CHAR, QUOTE, DOUBLEQ, ESC, PERC, 0, DELIM, END],
    [CHAR, QUOTE, DOUBLEQ, ESC, PERC, 0, DELIM, END]]

  const ACTION: seq<seq<nat>> := [
    [COPY, 0, 0, 0, COPY, 0, 0, 0],
    [COPY, 0, COPY, COPY, COPY, 0, COPY, 0],
    [COPY, COPY, 0, COPY, COPY, 0, COPY, 0],
    [COPY, COPY, COPY, COPY, COPY, 0, COPY, 0],
    [COPY, 0, 0, 0, COPY, 0, 0, 0],
    [COPY, 0, 0, 0, COPY, 0, 0, 0]]

  /** winvde_token */
  function Class(c: char, delim: string): (r: nat)
    ensures r <= END && r != PER2
    ensures r == END <==> c == '\0'
    ensures r == DELIM <==> Delimits(c, delim)
  {
    if c == '\0' then END
    else if c == '\'' then QUOTE
    else if c == '\"' then DOUBLEQ
    else if c == '\\' then ESC
    else if c == '%' then PERC
    else if c in delim then DELIM
    else CHAR
  }

  /** The mode that a state of the machine stands for: the two percent states are plain. */
  function ModeOf(status: nat): Mode {
    if status == QUOTE then Single
    else if status == DOUBLEQ then Double
    else if status == ESC then Escaped
    else Plain
  }

  /** The tables agree with the modes for every state and every character of a string. Nothing
      is ever decoded: no action asks for it. */
  lemma TablesMean(status: nat, c: char, delim: string)
    requires status < DELIM && c != '\0'
    ensures var cls := Class(c, delim); var next := NEXTSTATE[status][cls];
      && next != END
      && (next == DELIM <==> Splits(ModeOf(status), c, delim))
      && (next != DELIM ==> next < DELIM && ModeOf(next) == After(ModeOf(status), c))
      && ACTION[status][cls] == (if next != DELIM && Copied(ModeOf(status), c) then COPY else 0)
  {
    var cls := Class(c, delim);
    assert status == CHAR || status == QUOTE || status == DOUBLEQ || status == ESC || status == PERC || status == PER2;
    assert cls == CHAR || cls == QUOTE || cls == DOUBLEQ || cls == ESC || cls == PERC || cls == DELIM;
  }

  lemma TablesEnd(status: nat, delim: string)
    requires status < DELIM
    ensures Class('\0', delim) == END && NEXTSTATE[status][END] == END && ACTION[status][END] == 0
  {
    assert status == CHAR || status == QUOTE || status == DOUBLEQ || status == ESC || status == PERC || status == PER2;
  }

  // ----- the invariant of the loop -----

  /** What is done and what is still to be read make up the first token. */
  ghost predicate Taken(done: string, rest: string, m: Mode, delim: string, whole: Piece) {
    whole == Take(m, rest, delim).(token := done + Take(m, rest, delim).token)
  }

  lemma TakenMore(done: string, rest: string, m: Mode, delim: string, whole: Piece)
    requires Taken(done, rest, m, delim, whole) && rest != []
    ensures
      if Splits(m, rest[0], delim) then whole == Piece(done, Some(rest[1..]))
      else if Copied(m, rest[0]) then Taken(done + [rest[0]], rest[1..], After(m, rest[0]), delim, whole)
      else Taken(done, rest[1..], After(m, rest[0]), delim, whole)
  {
    var r := Take(After(m, rest[0]), rest[1..], delim).token;
    assert done + ([rest[0]] + r) == done + [rest[0]] + r;
    assert [] + r == r;
  }

  /** What the token, the state of the machine and the characters left over say. */
  ghost predicate Progress(done: string, rest: string, status: nat, delim: string, whole: Piece) {
    if status < DELIM then Taken(done, rest, ModeOf(status), delim, whole)
    else if status == DELIM then whole == Piece(done, Some(rest))
    else status == END && whole == Piece(done, None)
  }

  lemma ProgressStart(s: string, delim: string)
    ensures Progress([], s, CHAR, delim, Take(Plain, s, delim))
  {
    assert [] + Take(Plain, s, delim).token == Take(Plain, s, delim).token;
  }

  lemma ProgressMore(done: string, rest: string, status: nat, delim: string, whole: Piece, c: char)
    requires status < DELIM && Progress(done, rest, status, delim, whole)
    requires c == (if rest != [] then rest[0] else '\0') && (rest != [] ==> c != '\0')
    ensures var cls := Class(c, delim); var next, copy := NEXTSTATE[status][cls], ACTION[status][cls] == COPY;
      && Progress(if copy then done + [c] else done, if rest == [] then [] else rest[1..], next, delim, whole)
      && (copy ==> next < DELIM) && (next == END <==> rest == [])
  {
    if rest != [] {
      TablesMean(status, c, delim);
      TakenMore(done, rest, ModeOf(status), delim, whole);
    } else {
      TablesEnd(status, delim);
      assert done + [] == done;
    }
  }

  // ----- strtokq_r -----

  /** A string lies in the buffer at b, with its terminating character. */
  ghost predicate StringAt(buf: array<char>, b: nat, s: string)
    reads buf
  {
    && b + |s| < buf.Length
    && (forall k :: b <= k < b + |s| ==> buf[k] == s[k - b])
    && (forall k :: 0 <= k < |s| ==> s[k] != '\0')
    && buf[b + |s|] == '\0'
  }

  lemma NextAt(buf: array<char>, b: nat, s: string)
    requires StringAt(buf, b, s) && s != []
    ensures StringAt(buf, b + 1, s[1..]) && s[0] == buf[b] != '\0'
  {
  }

  /** A character of the token moves down. */
  method Copy(buf: array<char>, top: nat, from: nat)
    requires top <= from < buf.Length
    modifies buf
    ensures buf[top] == old(buf[from])
    ensures forall k :: 0 <= k < buf.Length && k != top ==> buf[k] == old(buf[k])
  {
    if top != from {
      buf[top] := buf[from];
    }
  }

  /** In the middle of a token that starts at `start`: what is done lies below `top`, the rest
      from `from` on, and the write position does not pass the read one. */
  ghost predicate Reading(buf: array<char>, start: nat, top: nat, from: nat, done: string, rest: string, status: nat)
    reads buf
  {
    && start <= top <= from && |done| == top - start && top < buf.Length
    && '\0' !in done && (forall k :: start <= k < top ==> buf[k] == done[k - start])
    && (status != END ==> StringAt(buf, from, rest))
    && (status >= DELIM ==> top < from)
  }

  /** One turn of the loop. */
  method Turn(buf: array<char>, top: nat, from: nat, status: nat, delim: string,
              ghost start: nat, ghost done: string, ghost rest: string, ghost whole: Piece)
    returns (newTop: nat, next: nat, ghost more: string)
    requires status < DELIM && Reading(buf, start, top, from, done, rest, status)
    requires Progress(done, rest, status, delim, whole)
    modifies buf
    ensures Reading(buf, start, newTop, from + 1, more, if rest == [] then [] else rest[1..], next)
    ensures Progress(more, if rest == [] then [] else rest[1..], next, delim, whole)
    ensures next <= END && (next == END <==> rest == [])
    ensures forall k :: (0 <= k < start || from < k < buf.Length) ==> buf[k] == old(buf[k])
  {
    var c := buf[from];
    if rest != [] { NextAt(buf, from, rest); }
    ProgressMore(done, rest, status, delim, whole, c);
    var cls := Class(c, delim);
    newTop, next, more := top, NEXTSTATE[status][cls], done;
    if ACTION[status][cls] == COPY {
      Copy(buf, top, from);
      newTop, more := top + 1, done + [c];
    }
  }

  /** The token is closed. */
  method Close(buf: array<char>, top: nat, ghost start: nat, ghost from: nat, ghost done: string,
               ghost rest: string, ghost status: nat)
    requires Reading(buf, start, top, from, done, rest, status) && DELIM <= status <= END
    modifies buf
    ensures StringAt(buf, start, done) && (status == DELIM ==> StringAt(buf, from, rest))
    ensures forall k :: (0 <= k < top || top < k < buf.Length) ==> buf[k] == old(buf[k])
  {
    buf[top] := '\0';
    assert StringAt(buf, start, done);
  }

  /** strtokq_r on the string s at `start`: the token takes its place there, and the part
      from the new position on is as it was. */
  method Strtokq(buf: array<char>, start: nat, delim: string, ghost s: string)
    returns (save: Maybe<nat>, ghost to: nat)
    requires StringAt(buf, start, s)
    modifies buf
    ensures var p := Take(Plain, s, delim);
      && StringAt(buf, start, p.token) && to == start + |p.token|
      && (match p.rest
          case None => save == None
          case Some(rest) =>
            save != None && to < save.value && save.value + |rest| == start + |s| && StringAt(buf, save.value, rest))
    ensures forall k :: (0 <= k < start || start + |s| < k < buf.Length) ==> buf[k] == old(buf[k])
  {
    ghost var whole := Take(Plain, s, delim);
    ghost var done: string, rest := [], s;
    var from, top := start, start;
    var status: nat := CHAR;
    ProgressStart(s, delim);
    while status != DELIM && status != END
      invariant status <= END && Reading(buf, start, top, from, done, rest, status)
      invariant Progress(done, rest, status, delim, whole)
      invariant from + |rest| == start + |s| + if status == END then 1 else 0
      invariant forall k :: 0 <= k < start || start + |s| < k < buf.Length ==> buf[k] == old(buf[k])
      decreases start + |s| + 1 - from
    {
      ghost var more;
      top, status, more := Turn(buf, top, from, status, delim, start, done, rest, whole);
      done, rest, from := more, if rest == [] then [] else rest[1..], from + 1;
    }
    Close(buf, top, start, from, done, rest, status);
    to := top;
    save := if status == END then None else Some(from);
  }

  /** The tokens lie at these places, all of them ending before `end`. */
  ghost predicate AllAt(buf: array<char>, begins: seq<nat>, toks: seq<string>, end: nat)
    reads buf
  {
    |begins| == |toks| &&
    forall i :: 0 <= i < |toks| ==> begins[i] + |toks[i]| < end && StringAt(buf, begins[i], toks[i])
  }

  twostate lemma OneMore(buf: array<char>, new begins: seq<nat>, new toks: seq<string>, new end: nat,
                         new start: nat, new tok: string, new past: nat)
    requires old(AllAt(buf, begins, toks, end)) && end <= start && start + |tok| < past
    requires (forall k :: 0 <= k < start && k < buf.Length ==> buf[k] == old(buf[k])) && StringAt(buf, start, tok)
    ensures AllAt(buf, begins + [start], toks + [tok], past)
  {
    forall i | 0 <= i < |toks|
      ensures StringAt(buf, begins[i], toks[i])
    {
      assert old(StringAt(buf, begins[i], toks[i]));
    }
  }

  /** Fields that can be written as they say, and a character at which strings are split. */
  ghost predicate WellQuoted(fields: seq<Quoting.Field>, d: char, delim: string) {
    && fields != [] && (forall i :: 0 <= i < |fields| ==> Quoting.AllWritable(fields[i], delim))
    && d in delim && d != '\0' && d != '\'' && d != '\"' && d != '\\' && d != '%'
  }

  /** Calling strtokq_r until it has no more to give yields the tokens of the string, all of
      them in the buffer at the end. Where the string is fields escaped, or written in any
      mixture of quotes and backslashes, and joined by a delimiter, these are the fields. */
  method Tokens(buf: array<char>, delim: string, ghost s: string) returns (begins: seq<nat>)
    requires StringAt(buf, 0, s)
    modifies buf
    ensures AllAt(buf, begins, Split(Plain, s, delim), buf.Length)
    ensures forall fs, d :: fs != [] && Delimits(d, delim) && Join(fs, d, delim) == s
              ==> AllAt(buf, begins, fs, buf.Length)
    ensures forall fields, d {:trigger Quoting.SpelledLine(fields, d)} ::
              WellQuoted(fields, d, delim) && Quoting.SpelledLine(fields, d) == s
              ==> AllAt(buf, begins, Quoting.Texts(fields), buf.Length)
  {
    var save: Maybe<nat> := Some(0);
    ghost var rest, toks: seq<string>, end: nat := s, [], 0;
    begins := [];
    assert toks + Split(Plain, s, delim) == Split(Plain, s, delim);
    while save != None
      invariant AllAt(buf, begins, toks, end) && end <= buf.Length
      invariant if save == None then toks == Split(Plain, s, delim)
                else && end <= save.value && StringAt(buf, save.value, rest)
                     && toks + Split(Plain, rest, delim) == Split(Plain, s, delim)
      decreases if save == None then 0 else 1 + |rest|
    {
      var start := save.value;
      ghost var p, to := Take(Plain, rest, delim), 0;
      Peel(toks, rest, delim);
      label Before:
      save, to := Strtokq(buf, start, delim, rest);
      OneMore@Before(buf, begins, toks, end, start, p.token, to + 1);
      begins, toks, end := begins + [start], toks + [p.token], to + 1;
      if p.rest != None { rest := p.rest.value; }
    }
    forall fs, d | fs != [] && Delimits(d, delim) && Join(fs, d, delim) == s
      ensures AllAt(buf, begins, fs, buf.Length)
    {
      RoundTrip(fs, d, delim);
    }
    forall fields, d | WellQuoted(fields, d, delim) && Quoting.SpelledLine(fields, d) == s
      ensures AllAt(buf, begins, Quoting.Texts(fields), buf.Length)
    {
      Quoting.QuotedRoundTrip(fields, d, delim);
    }
  }

  /** One token off the front of what is left. */
  lemma Peel(toks: seq<string>, rest: string, delim: string)
    ensures var p := Take(Plain, rest, delim);
      toks + Split(Plain, rest, delim)
      == toks + [p.token] + if p.rest == None then [] else Split(Plain, p.rest.value, delim)
    ensures var p := Take(Plain, rest, delim); p.rest != None ==> |p.rest.value| < |rest|
  {
    TakeSplit(Plain, rest, delim);
    var p, r := Take(Plain, rest, delim), Split(Plain, rest, delim);
    assert r == [p.token] + r[1..];
    assert r[1..] == if p.rest == None then [] else Split(Plain, p.rest.value, delim);
    assert toks + ([p.token] + r[1..]) == toks + [p.token] + r[1..];
  }

  // ----- strtokq_rev_r -----

  /** The last delimiter of the whole string, by what is known after i characters. */
  ghost predicate Seen(to: Maybe<nat>, s: string, i: nat, m: Mode, delim: string, whole: Maybe<nat>) {
    i <= |s| && whole == match LastCut(m, s[i..], delim)
                         case Some(k) => Some(i + k)
                         case None => to
  }

  lemma SeenMore(to: Maybe<nat>, s: string, i: nat, m: Mode, delim: string, whole: Maybe<nat>)
    requires Seen(to, s, i, m, delim, whole) && i < |s|
    ensures if Splits(m, s[i], delim) then Seen(Some(i), s, i + 1, Plain, delim, whole)
            else Seen(to, s, i + 1, After(m, s[i]), delim, whole)
  {
    var t := s[i..];
    assert t[0] == s[i] && t[1..] == s[i + 1..];
  }

  /** The state DELIM is left as if it were CHAR. */
  lemma AfterDelimiter(cls: nat)
    requires cls <= END
    ensures NEXTSTATE[DELIM][cls] == NEXTSTATE[CHAR][cls]
  {
    assert cls == CHAR || cls == QUOTE || cls == DOUBLEQ || cls == ESC || cls == PERC || cls == PER2
      || cls == DELIM || cls == END;
  }

  /** strtokq_rev_r: the string ends where its last delimiter was. */
  method StrtokqRev(buf: array<char>, delim: string, ghost s: string)
    requires StringAt(buf, 0, s)
    modifies buf
    ensures match LastCut(Plain, s, delim)
            case None => buf[..] == old(buf[..])
            case Some(k) => buf[..] == old(buf[..])[k := '\0'] && StringAt(buf, 0, s[..k])
  {
    ghost var whole := LastCut(Plain, s, delim);
    var scan, status: nat := 0, CHAR;
    var to: Maybe<nat> := None;
    assert s[0..] == s;
    while status != END
      invariant StringAt(buf, 0, s) && buf[..] == old(buf[..])
      invariant status <= END && (status != END ==> scan <= |s|)
      invariant if status == END then to == whole else Seen(to, s, scan, ModeOf(status), delim, whole)
      decreases if status == END then 0 else |s| + 1 - scan
    {
      var cls := Class(buf[scan], delim);
      ghost var was := if status == DELIM then CHAR else status;
      AfterDelimiter(cls);
      if scan == |s| {
        TablesEnd(was, delim);
      } else {
        assert buf[scan] == s[scan];
        TablesMean(was, buf[scan], delim);
        SeenMore(to, s, scan, ModeOf(status), delim, whole);
      }
      status := NEXTSTATE[status][cls];
      if status == DELIM {
        to := Some(scan);
      }
      scan := scan + 1;
    }
    if to != None {
      buf[to.value] := '\0';
    }
  }
}

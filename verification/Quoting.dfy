/** What quotes and backslashes do to a string that is split: fields written in any mixture of
    styles come out as their text. */
module Quoting {
  import opened Splitting

  /** A stretch of text, and how it is written. */
  datatype Style = Bare | InSingle | InDouble | Backslashed

  datatype Fragment = Fragment(style: Style, text: string)

  type Field = seq<Fragment>

  /** Bare text has no quote, no backslash and no delimiter, for which a percent sign does not
      count; quoted text may hold anything but the quote; with backslashes all can be written. */
  predicate Writable(g: Fragment, delim: string) {
    match g.style
    case Bare => forall c :: c in g.text ==> c != '\'' && c != '\"' && c != '\\' && (c == '%' || c !in delim)
    case InSingle => '\'' !in g.text
    case InDouble => '\"' !in g.text
    case Backslashed => true
  }

  function Slashed(f: string): string {
    if f == [] then [] else ['\\', f[0]] + Slashed(f[1..])
  }

  function Spelled(g: Fragment): string {
    match g.style
    case Bare => g.text
    case InSingle => ['\''] + g.text + ['\'']
    case InDouble => ['\"'] + g.text + ['\"']
    case Backslashed => Slashed(g.text)
  }

  function SpelledField(f: Field): string {
    if f == [] then [] else Spelled(f[0]) + SpelledField(f[1..])
  }

  function Text(f: Field): string {
    if f == [] then [] else f[0].text + Text(f[1..])
  }

  function Texts(fields: seq<Field>): seq<string> {
    if fields == [] then [] else [Text(fields[0])] + Texts(fields[1..])
  }

  function SpelledLine(fields: seq<Field>, d: char): string
    requires fields != []
  {
    if |fields| == 1 then SpelledField(fields[0])
    else SpelledField(fields[0]) + [d] + SpelledLine(fields[1..], d)
  }

  /** The tokens of a string whose first token has text in front. */
  function Led(f: string, r: seq<string>): seq<string>
    requires r != []
  {
    [f + r[0]] + r[1..]
  }

  lemma LedTwice(f: string, g: string, r: seq<string>)
    requires r != []
    ensures Led(f, Led(g, r)) == Led(f + g, r) && Led([], r) == r
  {
    assert f + (g + r[0]) == f + g + r[0];
    assert [] + r[0] == r[0];
  }

  /** A character that is no part of a token. */
  lemma Silent(m: Mode, c: char, s: string, delim: string)
    requires !Splits(m, c, delim) && !Copied(m, c)
    ensures Split(m, [c] + s, delim) == Split(After(m, c), s, delim)
  {
    assert ([c] + s)[1..] == s;
    LedTwice([], [], Split(After(m, c), s, delim));
  }

  // ----- one stretch of text -----

  /** Between single quotes a backslash, a double quote and a delimiter are text. */
  lemma {:induction false} SingleInside(f: string, tail: string, delim: string)
    requires '\'' !in f
    ensures Split(Single, f + ['\''] + tail, delim) == Led(f, Split(Plain, tail, delim))
    decreases |f|
  {
    var s := f + ['\''] + tail;
    if f == [] {
      assert s[0] == '\'' && s[1..] == tail;
    } else {
      assert s[0] == f[0] && s[1..] == f[1..] + ['\''] + tail;
      SingleInside(f[1..], tail, delim);
      LedTwice([f[0]], f[1..], Split(Plain, tail, delim));
      assert [f[0]] + f[1..] == f;
    }
  }

  lemma SingleQuoted(f: string, tail: string, delim: string)
    requires '\'' !in f
    ensures var r := Split(Plain, tail, delim);
      Split(Plain, ['\''] + f + ['\''] + tail, delim) == [f + r[0]] + r[1..]
  {
    var rest := f + ['\''] + tail;
    assert ['\''] + f + ['\''] + tail == ['\''] + rest;
    Silent(Plain, '\'', rest, delim);
    SingleInside(f, tail, delim);
  }

  /** Between double quotes a backslash, a single quote and a delimiter are text. */
  lemma {:induction false} DoubleInside(f: string, tail: string, delim: string)
    requires '\"' !in f
    ensures Split(Double, f + ['\"'] + tail, delim) == Led(f, Split(Plain, tail, delim))
    decreases |f|
  {
    var s := f + ['\"'] + tail;
    if f == [] {
      assert s[0] == '\"' && s[1..] == tail;
    } else {
      assert s[0] == f[0] && s[1..] == f[1..] + ['\"'] + tail;
      DoubleInside(f[1..], tail, delim);
      LedTwice([f[0]], f[1..], Split(Plain, tail, delim));
      assert [f[0]] + f[1..] == f;
    }
  }

  lemma DoubleQuoted(f: string, tail: string, delim: string)
    requires '\"' !in f
    ensures var r := Split(Plain, tail, delim);
      Split(Plain, ['\"'] + f + ['\"'] + tail, delim) == [f + r[0]] + r[1..]
  {
    var rest := f + ['\"'] + tail;
    assert ['\"'] + f + ['\"'] + tail == ['\"'] + rest;
    Silent(Plain, '\"', rest, delim);
    DoubleInside(f, tail, delim);
  }

  lemma {:induction false} BareText(f: string, tail: string, delim: string)
    requires Writable(Fragment(Bare, f), delim)
    ensures Split(Plain, f + tail, delim) == Led(f, Split(Plain, tail, delim))
    decreases |f|
  {
    var r := Split(Plain, tail, delim);
    if f == [] {
      assert f + tail == tail;
      LedTwice([], [], r);
    } else {
      assert f[0] in f && forall c :: c in f[1..] ==> c in f;
      assert (f + tail)[1..] == f[1..] + tail;
      BareText(f[1..], tail, delim);
      LedTwice([f[0]], f[1..], r);
      assert [f[0]] + f[1..] == f;
    }
  }

  lemma {:induction false} SlashedText(f: string, tail: string, delim: string)
    ensures Split(Plain, Slashed(f) + tail, delim) == Led(f, Split(Plain, tail, delim))
    decreases |f|
  {
    var r := Split(Plain, tail, delim);
    if f == [] {
      assert Slashed(f) + tail == tail;
      LedTwice([], [], r);
    } else {
      var rest := Slashed(f[1..]) + tail;
      assert Slashed(f) + tail == ['\\', f[0]] + rest;
      SplitFirst(f[0], rest, delim);
      SlashedText(f[1..], tail, delim);
      LedTwice([f[0]], f[1..], r);
      assert [f[0]] + f[1..] == f;
    }
  }

  // ----- fields -----

  lemma FragmentLeads(g: Fragment, tail: string, delim: string)
    requires Writable(g, delim)
    ensures Split(Plain, Spelled(g) + tail, delim) == Led(g.text, Split(Plain, tail, delim))
  {
    match g.style
    case Bare => BareText(g.text, tail, delim);
    case InSingle => SingleQuoted(g.text, tail, delim);
    case InDouble => DoubleQuoted(g.text, tail, delim);
    case Backslashed => SlashedText(g.text, tail, delim);
  }

  ghost predicate AllWritable(f: Field, delim: string) {
    forall i :: 0 <= i < |f| ==> Writable(f[i], delim)
  }

  lemma {:induction false} FieldLeads(f: Field, tail: string, delim: string)
    requires AllWritable(f, delim)
    ensures Split(Plain, SpelledField(f) + tail, delim) == Led(Text(f), Split(Plain, tail, delim))
    decreases |f|
  {
    var r := Split(Plain, tail, delim);
    if f == [] {
      assert SpelledField(f) + tail == tail;
      LedTwice([], [], r);
    } else {
      var rest := SpelledField(f[1..]) + tail;
      assert SpelledField(f) + tail == Spelled(f[0]) + rest;
      FragmentLeads(f[0], rest, delim);
      FieldLeads(f[1..], tail, delim);
      LedTwice(f[0].text, Text(f[1..]), r);
    }
  }

  /** Fields, each written in any mixture of styles, joined by a delimiter: splitting gives the
      text of each. */
  lemma {:induction false} QuotedRoundTrip(fields: seq<Field>, d: char, delim: string)
    requires fields != [] && forall i :: 0 <= i < |fields| ==> AllWritable(fields[i], delim)
    requires d in delim && d != '\0' && d != '\'' && d != '\"' && d != '\\' && d != '%'
    ensures Split(Plain, SpelledLine(fields, d), delim) == Texts(fields)
    decreases |fields|
  {
    var first := fields[0];
    if |fields| == 1 {
      FieldLeads(first, [], delim);
      assert SpelledField(first) + [] == SpelledField(first) && Text(first) + [] == Text(first);
      assert Texts(fields) == [Text(first)] + Texts([]) == [Text(first)];
    } else {
      var line := SpelledLine(fields[1..], d);
      var tail := [d] + line;
      QuotedRoundTrip(fields[1..], d, delim);
      FieldLeads(first, tail, delim);
      assert SpelledLine(fields, d) == SpelledField(first) + tail;
      assert tail[0] == d && tail[1..] == line;
      assert Split(Plain, tail, delim) == [[]] + Texts(fields[1..]);
      assert Text(first) + [] == Text(first);
    }
  }

  // ----- what is left open -----

  lemma {:induction false} SingleOpen(f: string, delim: string)
    requires '\'' !in f
    ensures Split(Single, f, delim) == [f]
    decreases |f|
  {
    if f != [] {
      SingleOpen(f[1..], delim);
      assert [f[0]] + f[1..] == f;
    }
  }

  lemma {:induction false} DoubleOpen(f: string, delim: string)
    requires '\"' !in f
    ensures Split(Double, f, delim) == [f]
    decreases |f|
  {
    if f != [] {
      DoubleOpen(f[1..], delim);
      assert [f[0]] + f[1..] == f;
    }
  }

  /** A quote that is not closed takes in the rest of the string, and a backslash at the end is
      dropped. */
  lemma LeftOpen(f: string, delim: string)
    ensures '\'' !in f ==> Split(Plain, ['\''] + f, delim) == [f]
    ensures '\"' !in f ==> Split(Plain, ['\"'] + f, delim) == [f]
    ensures Split(Plain, ['\\'], delim) == [[]]
  {
    Silent(Plain, '\'', f, delim);
    Silent(Plain, '\"', f, delim);
    Silent(Plain, '\\', [], delim);
    if '\'' !in f { SingleOpen(f, delim); }
    if '\"' !in f { DoubleOpen(f, delim); }
    assert ['\\'] + [] == ['\\'];
  }

  /** 'a b' c, split at a space, is two tokens. */
  lemma QuotedSpace()
    ensures Split(Plain, "'a b' c", " ") == ["a b", "c"]
  {
    var c: string, tail: string := "c", " c";
    BareText(c, [], " ");
    assert c + [] == c && tail[1..] == c;
    assert Split(Plain, c, " ") == [c];
    assert Split(Plain, tail, " ") == [[], c];
    SingleQuoted("a b", tail, " ");
    assert ['\''] + "a b" + ['\''] + tail == "'a b' c";
    assert "a b" + [] == "a b";
  }
}

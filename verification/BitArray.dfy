/** Sets of small numbers kept one bit per member in an array of words. A `ba` array
    holds data words only; a `bac` array has one more word, after the data, that
    counts the members. */
module BitArray {
  import opened Words

  /** Number of words that hold n bits. */
  function Round(n: nat): nat {
    (n + 31) / 32
  }

  predicate Has(words: seq<Word>, i: nat) {
    i / 32 < |words| && Bit(words[i / 32], i % 32)
  }

  /** The set that a run of data words stands for. */
  ghost function Members(words: seq<Word>): set<nat> {
    Below(words, 32 * |words|)
  }

  ghost function Below(words: seq<Word>, m: nat): set<nat> {
    if m == 0 then {} else Below(words, m - 1) + if Has(words, m - 1) then {m - 1} else {}
  }

  lemma {:induction false} BelowIs(words: seq<Word>, m: nat)
    ensures forall i: nat :: i in Below(words, m) <==> i < m && Has(words, i)
  {
    if m > 0 { BelowIs(words, m - 1); }
  }

  lemma MembersIs(words: seq<Word>)
    ensures forall i: nat :: i in Members(words) <==> Has(words, i)
  {
    BelowIs(words, 32 * |words|);
  }

  /** A visit order that meets every member of s exactly once, in increasing order. */
  ghost predicate Enumerates(order: seq<nat>, s: set<nat>) {
    && (forall i, j :: 0 <= i < j < |order| ==> order[i] < order[j])
    && (forall k: nat :: k in order <==> k in s)
  }

  lemma {:induction false} EnumerationSize(order: seq<nat>, s: set<nat>)
    requires Enumerates(order, s)
    ensures |order| == |s|
    decreases |order|
  {
    if order == [] {
      assert s == {};
    } else {
      var last := order[|order| - 1];
      assert forall k :: k in order <==> k == last || k in order[..|order| - 1];
      EnumerationSize(order[..|order| - 1], s - {last});
    }
  }

  /** There is only one increasing enumeration of a set. */
  lemma {:induction false} EnumerationUnique(a: seq<nat>, b: seq<nat>, s: set<nat>)
    requires Enumerates(a, s) && Enumerates(b, s)
    ensures a == b
    decreases |a|
  {
    EnumerationSize(a, s);
    EnumerationSize(b, s);
    if a != [] {
      var x, y := a[|a| - 1], b[|b| - 1];
      assert x in b && y in a;
      assert x == y;
      assert forall k :: k in a <==> k == x || k in a[..|a| - 1];
      assert forall k :: k in b <==> k == y || k in b[..|b| - 1];
      EnumerationUnique(a[..|a| - 1], b[..|b| - 1], s - {x});
      assert a == a[..|a| - 1] + [x] && b == b[..|b| - 1] + [y];
    }
  }

  lemma WriteBit(before: seq<Word>, after: seq<Word>, index: nat, on: bool)
    requires |before| == |after| && index / 32 < |before|
    requires forall i :: 0 <= i < |before| && i != index / 32 ==> after[i] == before[i]
    requires forall j: nat :: Bit(after[index / 32], j)
               <==> if j == index % 32 then on else Bit(before[index / 32], j)
    ensures Members(after) == if on then Members(before) + {index} else Members(before) - {index}
  {
    MembersIs(before);
    MembersIs(after);
    forall i: nat | i < 32 * |before|
      ensures Has(after, i) <==> if i == index then on else Has(before, i)
    {
      if i != index && i / 32 == index / 32 { assert i % 32 != index % 32; }
    }
  }

  // ----- single bits -----

  /** x[index >> 5] |= 1 << (index & 31) */
  function SetIn(words: seq<Word>, index: nat): (r: seq<Word>)
    requires index / 32 < |words|
    ensures |r| == |words|
  {
    SetBit(words[index / 32], index % 32);
    words[index / 32 := Or(words[index / 32], Pow2(index % 32))]
  }

  /** x[index >> 5] &= ~(1 << (index & 31)) */
  function ClearIn(words: seq<Word>, index: nat): (r: seq<Word>)
    requires index / 32 < |words|
    ensures |r| == |words|
  {
    ClearBit(words[index / 32], index % 32);
    words[index / 32 := AndNot(words[index / 32], Pow2(index % 32))]
  }

  lemma SetMembers(words: seq<Word>, index: nat)
    requires index / 32 < |words|
    ensures Members(SetIn(words, index)) == Members(words) + {index}
  {
    SetBit(words[index / 32], index % 32);
    WriteBit(words, SetIn(words, index), index, true);
  }

  lemma ClearMembers(words: seq<Word>, index: nat)
    requires index / 32 < |words|
    ensures Members(ClearIn(words, index)) == Members(words) - {index}
  {
    ClearBit(words[index / 32], index % 32);
    WriteBit(words, ClearIn(words, index), index, false);
  }

  /** ba_check, on an array that is not NULL. */
  predicate Check(words: seq<Word>, index: nat)
    requires index / 32 < |words|
  {
    Bit(words[index / 32], index % 32)
  }

  lemma CheckMembers(words: seq<Word>, index: nat)
    requires index / 32 < |words|
    ensures Check(words, index) <==> index in Members(words)
  {
    MembersIs(words);
  }

  method Set(x: array<Word>, index: nat)
    requires index / 32 < x.Length
    modifies x
    ensures x[..] == SetIn(old(x[..]), index)
    ensures Members(x[..]) == old(Members(x[..])) + {index}
  {
    SetBit(x[index / 32], index % 32);
    SetMembers(x[..], index);
    x[index / 32] := Or(x[index / 32], Pow2(index % 32));
  }

  method Clear(x: array<Word>, index: nat)
    requires index / 32 < x.Length
    modifies x
    ensures x[..] == ClearIn(old(x[..]), index)
    ensures Members(x[..]) == old(Members(x[..])) - {index}
  {
    ClearBit(x[index / 32], index % 32);
    ClearMembers(x[..], index);
    x[index / 32] := AndNot(x[index / 32], Pow2(index % 32));
  }

  // ----- whole arrays -----

  function Zeros(k: nat): (r: seq<Word>)
    ensures |r| == k && forall i :: 0 <= i < k ==> r[i] == 0
  {
    seq(k, _ => 0)
  }

  lemma ZeroMembers(words: seq<Word>)
    requires forall i :: 0 <= i < |words| ==> words[i] == 0
    ensures Members(words) == {}
  {
    MembersIs(words);
    forall i: nat
      ensures !Has(words, i)
    {
      ZeroBit(i % 32);
    }
  }

  method Zap(x: array<Word>, n: nat)
    requires Round(n) <= x.Length
    modifies x
    ensures Members(x[..Round(n)]) == {}
    ensures x[Round(n)..] == old(x[Round(n)..])
  {
    for i := 0 to Round(n)
      invariant forall k :: 0 <= k < i ==> x[k] == 0
      invariant x[Round(n)..] == old(x[Round(n)..])
    {
      x[i] := 0;
    }
    ZeroMembers(x[..Round(n)]);
  }

  lemma OrMembers(a: seq<Word>, b: seq<Word>, r: seq<Word>)
    requires |a| == |b| == |r| && forall k :: 0 <= k < |a| ==> r[k] == Or(a[k], b[k])
    ensures Members(r) == Members(a) + Members(b)
  {
    MembersIs(a);
    MembersIs(b);
    MembersIs(r);
    forall i: nat | i < 32 * |a|
      ensures Has(r, i) <==> Has(a, i) || Has(b, i)
    {
      OrBit(a[i / 32], b[i / 32], i % 32);
    }
  }

  lemma AndNotMembers(a: seq<Word>, b: seq<Word>, r: seq<Word>)
    requires |a| == |b| == |r| && forall k :: 0 <= k < |a| ==> r[k] == AndNot(a[k], b[k])
    ensures Members(r) == Members(a) - Members(b)
  {
    MembersIs(a);
    MembersIs(b);
    MembersIs(r);
    forall i: nat | i < 32 * |a|
      ensures Has(r, i) <==> Has(a, i) && !Has(b, i)
    {
      AndNotBit(a[i / 32], b[i / 32], i % 32);
    }
  }

  /** dst |= src, word by word. */
  method Add(dst: array<Word>, src: array<Word>, n: nat)
    requires dst != src && dst.Length == src.Length == Round(n)
    modifies dst
    ensures Members(dst[..]) == old(Members(dst[..])) + Members(src[..])
  {
    ghost var before := dst[..];
    for i := 0 to Round(n)
      invariant forall k :: 0 <= k < i ==> dst[k] == Or(before[k], src[k])
      invariant forall k :: i <= k < Round(n) ==> dst[k] == before[k]
    {
      Pow2Values();
      Width(dst[i], src[i], 32);
      dst[i] := Or(dst[i], src[i]);
    }
    OrMembers(before, src[..], dst[..]);
  }

  /** dst &= ~src, word by word. */
  method Remove(dst: array<Word>, src: array<Word>, n: nat)
    requires dst != src && dst.Length == src.Length == Round(n)
    modifies dst
    ensures Members(dst[..]) == old(Members(dst[..])) - Members(src[..])
  {
    ghost var before := dst[..];
    for i := 0 to Round(n)
      invariant forall k :: 0 <= k < i ==> dst[k] == AndNot(before[k], src[k])
      invariant forall k :: i <= k < Round(n) ==> dst[k] == before[k]
    {
      Pow2Values();
      Width(dst[i], src[i], 32);
      dst[i] := AndNot(dst[i], src[i]);
    }
    AndNotMembers(before, src[..], dst[..]);
  }

  /** ba_realloc from n to m bits: zero words after the old ones, and the last old word
      masked. `mask` is whatever the shift at bitarray.h:110 yields; all that is used of it
      is that it keeps the bits below n. */
  function Grown(words: seq<Word>, n: nat, m: nat, mask: Word): (r: seq<Word>)
    requires 0 < n && |words| == Round(n) <= Round(m)
    ensures |r| == Round(m)
  {
    AndWidth(words[Round(n) - 1], mask);
    words[Round(n) - 1 := And(words[Round(n) - 1], mask)] + Zeros(Round(m) - Round(n))
  }

  ghost predicate AllBelow(words: seq<Word>, n: nat) {
    forall i :: i in Members(words) ==> i < n
  }

  /** The mask keeps the last used bit of the last word and those below it. */
  ghost predicate Keeps(mask: Word, n: nat)
    requires 0 < n
  {
    forall j: nat :: j <= (n - 1) % 32 ==> Bit(mask, j)
  }

  lemma GrownMembers(words: seq<Word>, n: nat, m: nat, mask: Word)
    requires 0 < n && |words| == Round(n) <= Round(m)
    requires AllBelow(words, n) && Keeps(mask, n)
    ensures Members(Grown(words, n, m, mask)) == Members(words)
  {
    var r, last := Grown(words, n, m, mask), Round(n) - 1;
    MembersIs(words);
    MembersIs(r);
    forall i: nat | i < 32 * Round(m)
      ensures Has(r, i) <==> Has(words, i)
    {
      if i / 32 == last {
        AndBit(words[last], mask, i % 32);
        if Has(words, i) {
          assert i in Members(words);
          assert i < n && i / 32 == (n - 1) / 32;
          assert i % 32 <= (n - 1) % 32;
        }
      } else if i / 32 > last {
        ZeroBit(i % 32);
      }
    }
  }

  method Realloc(b: array<Word>, n: nat, m: nat, mask: Word) returns (nb: array<Word>)
    requires 0 < n && b.Length == Round(n) <= Round(m)
    ensures fresh(nb) && nb[..] == Grown(b[..], n, m, mask)
    ensures AllBelow(b[..], n) && Keeps(mask, n) ==> Members(nb[..]) == Members(b[..])
  {
    ghost var words := b[..];
    if AllBelow(words, n) && Keeps(mask, n) { GrownMembers(words, n, m, mask); }
    nb := new Word[Round(m)](_ => 0);
    forall i | 0 <= i < Round(n) { nb[i] := b[i]; }
    for i := Round(n) to Round(m)
      invariant forall k :: 0 <= k < Round(n) ==> nb[k] == b[k]
      invariant forall k :: Round(n) <= k < i ==> nb[k] == 0
    {
      nb[i] := 0;
    }
    AndWidth(nb[Round(n) - 1], mask);
    nb[Round(n) - 1] := And(nb[Round(n) - 1], mask);
    assert b[..] == words && nb[..] == Grown(words, n, m, mask);
  }

  function And(a: nat, b: nat): nat { AndNot(a, AndNot(a, b)) }

  lemma AndBit(a: nat, b: nat, j: nat)
    ensures Bit(And(a, b), j) <==> Bit(a, j) && Bit(b, j)
  {
    AndNotBit(a, b, j);
    AndNotBit(a, AndNot(a, b), j);
  }

  lemma AndWidth(a: Word, b: Word)
    ensures And(a, b) < 0x1_0000_0000
  {
    Pow2Values();
    Width(a, b, 32);
    Width(a, AndNot(a, b), 32);
  }

  /** The set bits below m, in increasing order. */
  ghost function Found(words: seq<Word>, m: nat): seq<nat> {
    if m == 0 then [] else Found(words, m - 1) + if Has(words, m - 1) then [m - 1] else []
  }

  lemma {:induction false} FoundOrder(words: seq<Word>, m: nat)
    ensures var r := Found(words, m);
      && (forall i, j :: 0 <= i < j < |r| ==> r[i] < r[j])
      && (forall k: nat :: k in r <==> k < m && Has(words, k))
  {
    if m > 0 {
      FoundOrder(words, m - 1);
      var front := Found(words, m - 1);
      forall i | 0 <= i < |front| ensures front[i] < m - 1 { assert front[i] in front; }
    }
  }

  lemma FoundAll(words: seq<Word>)
    ensures Enumerates(Found(words, 32 * |words|), Members(words))
    ensures |Found(words, 32 * |words|)| == |Members(words)|
  {
    FoundOrder(words, 32 * |words|);
    MembersIs(words);
    EnumerationSize(Found(words, 32 * |words|), Members(words));
  }

  /** The scan only grows; when it has reached its full length it is complete. */
  lemma {:induction false} FoundGrows(words: seq<Word>, m: nat, n: nat)
    requires m <= n
    ensures |Found(words, m)| <= |Found(words, n)|
    ensures |Found(words, m)| == |Found(words, n)| ==> Found(words, m) == Found(words, n)
    decreases n
  {
    if m < n { FoundGrows(words, m, n - 1); }
  }

  /** Bit j of word i is bit 32 i + j of the array. */
  lemma FoundStep(words: seq<Word>, i: nat, j: nat)
    requires i < |words| && j < 32
    ensures Found(words, 32 * i + j + 1)
         == Found(words, 32 * i + j) + if Bit(words[i], j) then [32 * i + j] else []
  {
    assert (32 * i + j) / 32 == i && (32 * i + j) % 32 == j;
  }

  /** The inner loop of a scan: the 32 bits of word i. */
  method ScanWord(w: Word, i: nat, ghost words: seq<Word>) returns (found: seq<nat>)
    requires i < |words| && w == words[i]
    ensures Found(words, 32 * i) + found == Found(words, 32 * (i + 1))
  {
    var v := w;
    found := [];
    for j := 0 to WORDSIZE
      invariant v == Shr(w, j)
      invariant Found(words, 32 * i) + found == Found(words, 32 * i + j)
    {
      FoundStep(words, i, j);
      if v % 2 == 1 { found := found + [i * WORDSIZE + j]; }
      ShrStep(w, j);
      v := v / 2;
    }
  }

  /** ba_FORALL: the order in which the numbers of the set bits are handed to the body. */
  method ForAll(x: seq<Word>, n: nat) returns (order: seq<nat>)
    requires Round(n) <= |x|
    ensures Enumerates(order, Members(x[..Round(n)]))
  {
    ghost var words := x[..Round(n)];
    order := [];
    for i := 0 to Round(n)
      invariant order == Found(words, 32 * i)
    {
      var found := ScanWord(x[i], i, words);
      order := order + found;
    }
    FoundAll(words);
  }

  /** ba_card: the number of members, counted bit by bit. */
  method Card(x: seq<Word>, n: nat) returns (count: nat)
    requires Round(n) <= |x|
    ensures count == |Members(x[..Round(n)])|
  {
    ghost var words := x[..Round(n)];
    count := 0;
    for i := 0 to Round(n)
      invariant count == |Found(words, 32 * i)|
    {
      var v := x[i];
      for j := 0 to WORDSIZE
        invariant v == Shr(x[i], j)
        invariant count == |Found(words, 32 * i + j)|
      {
        FoundStep(words, i, j);
        if v % 2 == 1 { count := count + 1; }
        ShrStep(x[i], j);
        v := v / 2;
      }
    }
    FoundAll(words);
  }

  // ----- arrays that count their members -----

  /** The word after the data is the number of set bits. */
  ghost predicate Counted(x: seq<Word>, n: nat) {
    |x| == Round(n) + 1 && x[Round(n)] == |Members(x[..Round(n)])|
  }

  lemma SubsetSize(a: set<nat>, b: set<nat>)
    requires a <= b
    ensures |a| <= |b|
  {
    assert b == a + (b - a);
  }

  /** A set of data words never has more members than bits. */
  lemma {:induction false} BoundedSize(s: set<nat>, n: nat)
    requires forall i :: i in s ==> i < n
    ensures |s| <= n
  {
    if n == 0 {
      assert s == {};
    } else {
      BoundedSize(s - {n - 1}, n - 1);
      SubsetSize(s, s - {n - 1} + {n - 1});
    }
  }

  function BacSetIn(x: seq<Word>, n: nat, index: nat): seq<Word>
    requires Counted(x, n) && index < n < 0x8000_0000
  {
    SetBit(x[index / 32], index % 32);
    CountFits(x, n);
    var v := Or(x[index / 32], Pow2(index % 32));
    if v != x[index / 32] then x[index / 32 := v][Round(n) := x[Round(n)] + 1] else x
  }

  function BacClearIn(x: seq<Word>, n: nat, index: nat): seq<Word>
    requires Counted(x, n) && index < n
  {
    ClearBit(x[index / 32], index % 32);
    var v := AndNot(x[index / 32], Pow2(index % 32));
    if v != x[index / 32] then
      BacClearMembers(x, n, index);
      x[index / 32 := v][Round(n) := x[Round(n)] - 1]
    else x
  }

  lemma CountFits(x: seq<Word>, n: nat)
    requires Counted(x, n) && n < 0x8000_0000
    ensures x[Round(n)] < 0xffff_ffff
  {
    MembersIs(x[..Round(n)]);
    BoundedSize(Members(x[..Round(n)]), 32 * Round(n));
  }

  /** Writing a bit that changes its word changes the membership of its number. */
  lemma BacSetKeeps(x: seq<Word>, n: nat, index: nat)
    requires Counted(x, n) && index < n < 0x8000_0000
    ensures Counted(BacSetIn(x, n, index), n)
    ensures Members(BacSetIn(x, n, index)[..Round(n)]) == Members(x[..Round(n)]) + {index}
  {
    var data, r, w := x[..Round(n)], BacSetIn(x, n, index), x[index / 32];
    SetMembers(data, index);
    CheckMembers(data, index);
    SetBit(w, index % 32);
    if SetIn(data, index) == data {
      assert r == x by { assert SetIn(data, index)[index / 32] == w; }
    } else {
      assert r[..Round(n)] == SetIn(data, index);
      if Bit(w, index % 32) { SameBits(Or(w, Pow2(index % 32)), w); }
    }
  }

  lemma BacClearMembers(x: seq<Word>, n: nat, index: nat)
    requires Counted(x, n) && index < n
    ensures AndNot(x[index / 32], Pow2(index % 32)) != x[index / 32] <==> index in Members(x[..Round(n)])
    ensures index in Members(x[..Round(n)]) ==> x[Round(n)] > 0
  {
    var data, w := x[..Round(n)], x[index / 32];
    CheckMembers(data, index);
    ClearBit(w, index % 32);
    if !Bit(w, index % 32) { SameBits(AndNot(w, Pow2(index % 32)), w); }
    if index in Members(data) { SubsetSize({index}, Members(data)); }
  }

  lemma BacClearKeeps(x: seq<Word>, n: nat, index: nat)
    requires Counted(x, n) && index < n
    ensures Counted(BacClearIn(x, n, index), n)
    ensures Members(BacClearIn(x, n, index)[..Round(n)]) == Members(x[..Round(n)]) - {index}
  {
    var data, r := x[..Round(n)], BacClearIn(x, n, index);
    BacClearMembers(x, n, index);
    ClearMembers(data, index);
    if index in Members(data) {
      assert r[..Round(n)] == ClearIn(data, index);
    } else {
      assert ClearIn(data, index) == data;
    }
  }

  method BacSet(x: array<Word>, n: nat, index: nat)
    requires Counted(x[..], n) && index < n < 0x8000_0000
    modifies x
    ensures x[..] == BacSetIn(old(x[..]), n, index) && Counted(x[..], n)
    ensures Members(x[..][..Round(n)]) == old(Members(x[..][..Round(n)])) + {index}
  {
    BacSetKeeps(x[..], n, index);
    SetBit(x[index / 32], index % 32);
    CountFits(x[..], n);
    var w := x[index / 32];
    var v := Or(w, Pow2(index % 32));
    if v != w {
      x[index / 32] := v;
      x[Round(n)] := x[Round(n)] + 1;
    }
  }

  method BacClear(x: array<Word>, n: nat, index: nat)
    requires Counted(x[..], n) && index < n
    modifies x
    ensures x[..] == BacClearIn(old(x[..]), n, index) && Counted(x[..], n)
    ensures Members(x[..][..Round(n)]) == old(Members(x[..][..Round(n)])) - {index}
  {
    BacClearKeeps(x[..], n, index);
    ClearBit(x[index / 32], index % 32);
    BacClearMembers(x[..], n, index);
    var w := x[index / 32];
    var v := AndNot(w, Pow2(index % 32));
    if v != w {
      x[index / 32] := v;
      x[Round(n)] := x[Round(n)] - 1;
    }
  }

  /** Words with the same bits are the same word. */
  lemma {:induction false} SameBits(a: nat, b: nat)
    requires forall j: nat :: Bit(a, j) <==> Bit(b, j)
    ensures a == b
    decreases a + b
  {
    assert Bit(a, 0) <==> Bit(b, 0);
    if a > 0 || b > 0 {
      forall j: nat
        ensures Bit(a / 2, j) <==> Bit(b / 2, j)
      {
        assert Bit(a, j + 1) <==> Bit(b, j + 1);
      }
      SameBits(a / 2, b / 2);
    }
  }

  method BacZap(x: array<Word>, n: nat)
    requires x.Length == Round(n) + 1
    modifies x
    ensures Counted(x[..], n) && Members(x[..Round(n)]) == {}
  {
    Zap(x, n);
    ghost var data := x[..Round(n)];
    x[Round(n)] := 0;
    assert x[..Round(n)] == data == x[..][..Round(n)];
  }

  /** bac_FORALL: the outer loop has no bound but the count of members still to come.
      It never leaves the data words, and it misses nothing. */
  method BacForAll(x: seq<Word>, n: nat) returns (order: seq<nat>)
    requires Counted(x, n)
    ensures Enumerates(order, Members(x[..Round(n)]))
  {
    ghost var words := x[..Round(n)];
    ghost var all := Found(words, 32 * Round(n));
    FoundAll(words);
    order := [];
    var left: int := x[Round(n)];
    var i := 0;
    while left > 0
      invariant i <= Round(n) && order == Found(words, 32 * i)
      invariant 0 <= left == |all| - |order|
      decreases Round(n) - i
    {
      var found := ScanWord(x[i], i, words);
      order := order + found;
      left := left - |found|;
      i := i + 1;
      FoundGrows(words, 32 * i, 32 * Round(n));
    }
    FoundGrows(words, 32 * i, 32 * Round(n));
  }
}

/** Packets in a byte stream, each behind its length in two bytes, and the receiver that puts
    them together again from whatever chunks arrive. */
module Framing {
  import opened KeyPacking

  type Packet = seq<Byte>

  const MAXPACKET: nat := 9236     // WINVDE_ETHBUFSIZE + 2

  /** Waiting for a header, or for the rest of a packet. */
  datatype State = Idle | Partial(held: seq<Byte>, need: nat)

  datatype Fed = Fed(state: State, out: seq<Packet>, code: int)

  function Size(b: seq<Byte>): nat
    requires |b| >= 2
  {
    var hi: nat, lo: nat := b[0], b[1];
    hi * 256 + lo
  }

  /** The loop of winvdestream_recv. A byte that is left alone at the end is dropped; a size
      out of range drops the rest of the chunk. */
  function Scan(b: seq<Byte>): Fed
    decreases |b|
  {
    if |b| <= 1 then Fed(Idle, [], 0)
    else
      var n := Size(b);
      if n == 0 then Scan(b[2..])
      else if n > MAXPACKET then Fed(Idle, [], -1)
      else if n > |b| - 2 then Fed(Partial(b[2..], n - (|b| - 2)), [], 0)
      else
        var r := Scan(b[2 + n..]);
        r.(out := [b[2..2 + n]] + r.out)
  }

  /** winvdestream_recv */
  function Feed(s: State, chunk: seq<Byte>): Fed {
    if chunk == [] then Fed(s, [], -1)
    else
      match s
      case Idle => Scan(chunk)
      case Partial(held, need) =>
        if |chunk| < need then Fed(Partial(held + chunk, need - |chunk|), [], 0)
        else
          var r := Scan(chunk[need..]);
          r.(out := [held + chunk[..need]] + r.out)
  }

  function FeedAll(s: State, chunks: seq<seq<Byte>>): (State, seq<Packet>)
    decreases |chunks|
  {
    if chunks == [] then (s, [])
    else
      var f := Feed(s, chunks[0]);
      var (t, out) := FeedAll(f.state, chunks[1..]);
      (t, f.out + out)
  }

  // ----- the sender's side -----

  predicate Sendable(ps: seq<Packet>) {
    forall i :: 0 <= i < |ps| ==> 1 <= |ps[i]| <= MAXPACKET
  }

  function Header(n: nat): seq<Byte>
    requires n < 0x1_0000
  {
    [n / 256, n % 256]
  }

  function Encode(ps: seq<Packet>): seq<Byte>
    requires Sendable(ps)
  {
    if ps == [] then [] else Header(|ps[0]|) + ps[0] + Encode(ps[1..])
  }

  function Concat(chunks: seq<seq<Byte>>): seq<Byte> {
    if chunks == [] then [] else chunks[0] + Concat(chunks[1..])
  }

  /** How many packets end within the first e bytes of their encoding, and how far into the
      next those bytes reach. */
  function Whole(ps: seq<Packet>, e: nat): (k: nat)
    ensures k <= |ps|
  {
    if ps == [] || e < 2 + |ps[0]| then 0 else 1 + Whole(ps[1..], e - 2 - |ps[0]|)
  }

  function Into(ps: seq<Packet>, e: nat): nat {
    if ps == [] || e < 2 + |ps[0]| then e else Into(ps[1..], e - 2 - |ps[0]|)
  }

  /** The receiver when o bytes of the packets have arrived, less than the first one. */
  function Midway(ps: seq<Packet>, o: nat): State
    requires o == 0 || (o >= 2 && ps != [] && o < 2 + |ps[0]|)
  {
    if o == 0 then Idle else Partial(ps[0][..o - 2], |ps[0]| - (o - 2))
  }

  /** Scanning the encoding of a packet and something behind it. */
  lemma ScanOne(p: Packet, rest: seq<Byte>)
    requires 1 <= |p| <= MAXPACKET
    ensures Scan(Header(|p|) + p + rest) == Scan(rest).(out := [p] + Scan(rest).out)
  {
    var b := Header(|p|) + p + rest;
    assert Size(b) == |p|;
    assert b[2 + |p|..] == rest && b[2..2 + |p|] == p;
  }

  /** Scanning the header and the first part of a packet. */
  lemma ScanPart(p: Packet, part: seq<Byte>)
    requires |part| < |p| <= MAXPACKET
    ensures Scan(Header(|p|) + part) == Fed(Partial(part, |p| - |part|), [], 0)
  {
    var b := Header(|p|) + part;
    assert Size(b) == |p|;
    assert b[2..] == part;
  }

  lemma EncodeSplit(ps: seq<Packet>, e: nat)
    requires Sendable(ps) && ps != [] && 2 <= e <= |Encode(ps)|
    ensures e - 2 - |ps[0]| <= |Encode(ps[1..])|
    ensures Encode(ps)[..e]
         == if e < 2 + |ps[0]| then Header(|ps[0]|) + ps[0][..e - 2]
            else Header(|ps[0]|) + ps[0] + Encode(ps[1..])[..e - 2 - |ps[0]|]
  {
  }

  lemma Counted(ps: seq<Packet>, k: nat)
    requires 1 + k <= |ps|
    ensures ps[1..][k..] == ps[1 + k..] && [ps[0]] + ps[1..][..k] == ps[..1 + k]
    ensures 1 + k < |ps| ==> ps[1..][k] == ps[1 + k]
  {
  }

  /** Scanning k packets and o bytes of the next, that is, a prefix of an encoding. */
  ghost predicate Scanned(ps: seq<Packet>, k: nat, o: nat, f: Fed) {
    && k <= |ps| && (o == 0 || (o >= 2 && k < |ps| && o < 2 + |ps[k]|))
    && f == Fed(Midway(ps[k..], o), ps[..k], 0)
  }

  lemma ScannedOn(ps: seq<Packet>, k: nat, o: nat, f: Fed)
    requires ps != [] && Scanned(ps[1..], k, o, f)
    ensures Scanned(ps, 1 + k, o, f.(out := [ps[0]] + f.out))
  {
    Counted(ps, k);
  }

  lemma PrefixOn(ps: seq<Packet>, e: nat)
    requires Sendable(ps) && ps != [] && 2 + |ps[0]| <= e <= |Encode(ps)|
    requires var d := e - 2 - |ps[0]|;
      && d <= |Encode(ps[1..])|
      && Scanned(ps[1..], Whole(ps[1..], d), Into(ps[1..], d), Scan(Encode(ps[1..])[..d]))
    ensures Scanned(ps, Whole(ps, e), Into(ps, e), Scan(Encode(ps)[..e]))
  {
    var d := e - 2 - |ps[0]|;
    EncodeSplit(ps, e);
    ScanOne(ps[0], Encode(ps[1..])[..d]);
    ScannedOn(ps, Whole(ps[1..], d), Into(ps[1..], d), Scan(Encode(ps[1..])[..d]));
  }

  /** One that does not end inside a header. */
  lemma {:induction false} ScanPrefix(ps: seq<Packet>, e: nat)
    requires Sendable(ps) && e <= |Encode(ps)| && Into(ps, e) != 1
    ensures Scanned(ps, Whole(ps, e), Into(ps, e), Scan(Encode(ps)[..e]))
    decreases |ps|
  {
    if ps != [] && e >= 2 {
      EncodeSplit(ps, e);
      if e < 2 + |ps[0]| {
        ScanPart(ps[0], ps[0][..e - 2]);
        assert ps[0..] == ps;
      } else {
        ScanPrefix(ps[1..], e - 2 - |ps[0]|);
        PrefixOn(ps, e);
      }
    }
  }

  // ----- positions -----

  /** Positions are counted on from any place that does not lie inside a header. */
  lemma {:induction false} Onward(ps: seq<Packet>, at: nat, x: nat)
    ensures var k, o := Whole(ps, at), Into(ps, at);
      && Into(ps, at + x) == Into(ps[k..], o + x)
      && Whole(ps, at + x) == k + Whole(ps[k..], o + x)
    decreases |ps|
  {
    if ps == [] || at < 2 + |ps[0]| {
      assert ps[0..] == ps;
    } else {
      var k := Whole(ps[1..], at - 2 - |ps[0]|);
      Onward(ps[1..], at - 2 - |ps[0]|, x);
      assert ps[1..][k..] == ps[1 + k..];
    }
  }

  /** What has been received ends k packets on and o bytes into the next. */
  lemma {:induction false} Placed(ps: seq<Packet>, at: nat)
    requires Sendable(ps) && at <= |Encode(ps)|
    ensures var k, o := Whole(ps, at), Into(ps, at);
      && (k == |ps| ==> o == 0) && (k < |ps| ==> o < 2 + |ps[k]|)
      && (at == |Encode(ps)| ==> k == |ps|)
    decreases |ps|
  {
    if ps != [] && at >= 2 + |ps[0]| { Placed(ps[1..], at - 2 - |ps[0]|); }
  }

  lemma EncodeDrop(ps: seq<Packet>, at: nat)
    requires Sendable(ps) && ps != [] && 2 + |ps[0]| <= at <= |Encode(ps)|
    ensures at - 2 - |ps[0]| <= |Encode(ps[1..])|
    ensures Encode(ps)[at..] == Encode(ps[1..])[at - 2 - |ps[0]|..]
  {
  }

  lemma Suffix(ps: seq<Packet>, k: nat)
    requires 1 + k <= |ps|
    ensures ps[1..][k..] == ps[1 + k..]
  {
  }

  /** The encoding from position at on is that of the packets from k on, without o bytes. */
  ghost predicate Remains(ps: seq<Packet>, at: nat, k: nat, o: nat) {
    && k <= |ps| && Sendable(ps) && Sendable(ps[k..])
    && at <= |Encode(ps)| && o <= |Encode(ps[k..])|
    && Encode(ps)[at..] == Encode(ps[k..])[o..]
  }

  lemma RemainsOn(ps: seq<Packet>, at: nat, k: nat, o: nat)
    requires Sendable(ps) && ps != [] && 2 + |ps[0]| <= at <= |Encode(ps)|
    requires Remains(ps[1..], at - 2 - |ps[0]|, k, o)
    ensures Remains(ps, at, 1 + k, o)
  {
    EncodeDrop(ps, at);
    Suffix(ps, k);
  }

  /** What is still to come begins there. */
  lemma {:induction false} Reached(ps: seq<Packet>, at: nat)
    requires Sendable(ps) && at <= |Encode(ps)|
    ensures Remains(ps, at, Whole(ps, at), Into(ps, at))
    decreases |ps|
  {
    if ps == [] || at < 2 + |ps[0]| {
      assert ps[0..] == ps;
    } else {
      var d := at - 2 - |ps[0]|;
      EncodeDrop(ps, at);
      Reached(ps[1..], d);
      RemainsOn(ps, at, Whole(ps[1..], d), Into(ps[1..], d));
    }
  }

  // ----- a chunk -----

  /** The rest of the packet begun, and what follows it. */
  lemma FeedRest(ps: seq<Packet>, o: nat, d: nat, chunk: seq<Byte>)
    requires Sendable(ps) && ps != [] && 2 <= o < 2 + |ps[0]| && d <= |Encode(ps[1..])|
    requires chunk == ps[0][o - 2..] + Encode(ps[1..])[..d]
    ensures var f := Scan(Encode(ps[1..])[..d]);
      Feed(Midway(ps, o), chunk) == f.(out := [ps[0]] + f.out)
  {
    var p, need := ps[0], |ps[0]| - (o - 2);
    assert chunk[need..] == Encode(ps[1..])[..d] && p[..o - 2] + chunk[..need] == p;
  }

  lemma ChunkSplit(ps: seq<Packet>, o: nat, e: nat)
    requires Sendable(ps) && ps != [] && 2 <= o < 2 + |ps[0]| && o <= e <= |Encode(ps)|
    ensures e - 2 - |ps[0]| <= |Encode(ps[1..])|
    ensures Encode(ps)[o..e]
         == if e < 2 + |ps[0]| then ps[0][o - 2..e - 2]
            else ps[0][o - 2..] + Encode(ps[1..])[..e - 2 - |ps[0]|]
  {
    EncodeSplit(ps, e);
    assert Encode(ps)[o..e] == Encode(ps)[..e][o..];
  }

  lemma FeedBegun(ps: seq<Packet>, o: nat, chunk: seq<Byte>)
    requires Sendable(ps) && ps != [] && 2 <= o && o + |chunk| < 2 + |ps[0]| && chunk != []
    requires o + |chunk| <= |Encode(ps)| && chunk == Encode(ps)[o..o + |chunk|]
    ensures Feed(Midway(ps, o), chunk) == Fed(Midway(ps, o + |chunk|), [], 0)
  {
    ChunkSplit(ps, o, o + |chunk|);
    var p, need := ps[0], |ps[0]| - (o - 2);
    assert chunk == p[o - 2..o + |chunk| - 2];
    assert p[..o - 2] + chunk == p[..o + |chunk| - 2];
    assert Feed(Partial(p[..o - 2], need), chunk) == Fed(Partial(p[..o - 2] + chunk, need - |chunk|), [], 0);
  }

  lemma FeedPast(ps: seq<Packet>, o: nat, chunk: seq<Byte>, d: nat)
    requires Sendable(ps) && ps != [] && 2 <= o < 2 + |ps[0]| && o + |chunk| == d + 2 + |ps[0]|
    requires d <= |Encode(ps[1..])| && chunk == ps[0][o - 2..] + Encode(ps[1..])[..d] && Into(ps[1..], d) != 1
    ensures var k, i := Whole(ps[1..], d), Into(ps[1..], d);
      && (i == 0 || (i >= 2 && 1 + k < |ps| && i < 2 + |ps[1 + k]|))
      && Feed(Midway(ps, o), chunk) == Fed(Midway(ps[1 + k..], i), ps[..1 + k], 0)
  {
    ScanPrefix(ps[1..], d);
    FeedRest(ps, o, d, chunk);
    Counted(ps, Whole(ps[1..], d));
  }

  /** A chunk of an encoding, taken where the last one ended and not ending inside a header,
      yields the packets that end in it. */
  lemma FeedChunk(ps: seq<Packet>, o: nat, chunk: seq<Byte>)
    requires Sendable(ps) && (o == 0 || (o >= 2 && ps != [] && o < 2 + |ps[0]|))
    requires chunk != [] && o + |chunk| <= |Encode(ps)| && chunk == Encode(ps)[o..o + |chunk|]
    requires Into(ps, o + |chunk|) != 1
    ensures var k, i := Whole(ps, o + |chunk|), Into(ps, o + |chunk|);
      && (i == 0 || (i >= 2 && k < |ps| && i < 2 + |ps[k]|))
      && Feed(Midway(ps, o), chunk) == Fed(Midway(ps[k..], i), ps[..k], 0)
  {
    var e := o + |chunk|;
    if o == 0 {
      assert chunk == Encode(ps)[..e];
      ScanPrefix(ps, e);
    } else if e < 2 + |ps[0]| {
      FeedBegun(ps, o, chunk);
      assert ps[0..] == ps;
    } else {
      ChunkSplit(ps, o, e);
      FeedPast(ps, o, chunk, e - 2 - |ps[0]|);
    }
  }

  // ----- no byte is counted twice -----

  /** The bytes that packets and their headers take up. */
  function Weight(out: seq<Packet>): nat {
    if out == [] then 0 else 2 + |out[0]| + Weight(out[1..])
  }

  function Held(s: State): nat {
    match s
    case Idle => 0
    case Partial(held, _) => 2 + |held|
  }

  lemma {:induction false} WeightAppend(a: seq<Packet>, b: seq<Packet>)
    ensures Weight(a + b) == Weight(a) + Weight(b)
  {
    if a == [] {
      assert a + b == b;
    } else {
      assert (a + b)[1..] == a[1..] + b;
      WeightAppend(a[1..], b);
    }
  }

  lemma {:induction false} EncodeWeight(ps: seq<Packet>)
    requires Sendable(ps)
    ensures |Encode(ps)| == Weight(ps)
  {
    if ps != [] { EncodeWeight(ps[1..]); }
  }

  lemma {:induction false} ScanWeight(b: seq<Byte>)
    ensures Weight(Scan(b).out) + Held(Scan(b).state) <= |b|
    decreases |b|
  {
    if |b| > 1 {
      var n := Size(b);
      if n == 0 {
        ScanWeight(b[2..]);
      } else if n <= MAXPACKET && n <= |b| - 2 {
        ScanWeight(b[2 + n..]);
        WeightAppend([b[2..2 + n]], Scan(b[2 + n..]).out);
      }
    }
  }

  lemma FeedWeight(s: State, chunk: seq<Byte>)
    ensures Weight(Feed(s, chunk).out) + Held(Feed(s, chunk).state) <= Held(s) + |chunk|
  {
    match s
    case Idle => ScanWeight(chunk);
    case Partial(held, need) =>
      if |chunk| >= need {
        ScanWeight(chunk[need..]);
        WeightAppend([held + chunk[..need]], Scan(chunk[need..]).out);
      }
  }

  lemma {:induction false} FeedAllWeight(s: State, chunks: seq<seq<Byte>>)
    ensures var r := FeedAll(s, chunks); Weight(r.1) + Held(r.0) <= Held(s) + |Concat(chunks)|
    decreases |chunks|
  {
    if chunks != [] {
      var f := Feed(s, chunks[0]);
      FeedWeight(s, chunks[0]);
      FeedAllWeight(f.state, chunks[1..]);
      WeightAppend(f.out, FeedAll(f.state, chunks[1..]).1);
    }
  }

  // ----- a chunk that ends inside a header loses the byte -----

  lemma {:induction false} ScanCut(ps: seq<Packet>, e: nat)
    requires Sendable(ps) && e <= |Encode(ps)| && Into(ps, e) == 1
    ensures var f := Scan(Encode(ps)[..e]); Weight(f.out) + Held(f.state) < e
    decreases |ps|
  {
    if ps != [] && e >= 2 {
      EncodeSplit(ps, e);
      var d := e - 2 - |ps[0]|;
      ScanCut(ps[1..], d);
      ScanOne(ps[0], Encode(ps[1..])[..d]);
      var f := Scan(Encode(ps[1..])[..d]);
      WeightAppend([ps[0]], f.out);
      assert Scan(Encode(ps)[..e]) == f.(out := [ps[0]] + f.out);
    }
  }

  lemma FeedCut(ps: seq<Packet>, o: nat, chunk: seq<Byte>)
    requires Sendable(ps) && (o == 0 || (o >= 2 && ps != [] && o < 2 + |ps[0]|))
    requires chunk != [] && o + |chunk| <= |Encode(ps)| && chunk == Encode(ps)[o..o + |chunk|]
    requires Into(ps, o + |chunk|) == 1
    ensures var f := Feed(Midway(ps, o), chunk);
      Weight(f.out) + Held(f.state) < Held(Midway(ps, o)) + |chunk|
  {
    var e := o + |chunk|;
    if o == 0 {
      assert chunk == Encode(ps)[..e];
      ScanCut(ps, e);
    } else {
      ChunkSplit(ps, o, e);
      var d := e - 2 - |ps[0]|;
      ScanCut(ps[1..], d);
      FeedRest(ps, o, d, chunk);
      WeightAppend([ps[0]], Scan(Encode(ps[1..])[..d]).out);
    }
  }

  // ----- whole streams -----

  /** No chunk, the first of which starts at position `at`, ends between two header bytes. */
  predicate CutFree(ps: seq<Packet>, at: nat, chunks: seq<seq<Byte>>)
    decreases |chunks|
  {
    chunks == [] || (Into(ps, at + |chunks[0]|) != 1 && CutFree(ps, at + |chunks[0]|, chunks[1..]))
  }

  /** What comes of feeding chunks: just the packets `left`, or fewer bytes than went in. */
  ghost predicate Fares(s: State, chunks: seq<seq<Byte>>, left: seq<Packet>, free: bool) {
    var r := FeedAll(s, chunks);
    if free then r == (Idle, left) else Weight(r.1) + Held(r.0) < Held(s) + |Concat(chunks)|
  }

  lemma FaresOn(s: State, chunks: seq<seq<Byte>>, left: seq<Packet>, later: seq<Packet>, free: bool)
    requires chunks != [] && Fares(Feed(s, chunks[0]).state, chunks[1..], later, free)
    requires left == Feed(s, chunks[0]).out + later
    ensures Fares(s, chunks, left, free)
  {
    var f := Feed(s, chunks[0]);
    FeedWeight(s, chunks[0]);
    WeightAppend(f.out, FeedAll(f.state, chunks[1..]).1);
  }

  lemma FaresIll(s: State, chunks: seq<seq<Byte>>, left: seq<Packet>)
    requires chunks != []
    requires var f := Feed(s, chunks[0]); Weight(f.out) + Held(f.state) < Held(s) + |chunks[0]|
    ensures Fares(s, chunks, left, false)
  {
    var f := Feed(s, chunks[0]);
    FeedAllWeight(f.state, chunks[1..]);
    WeightAppend(f.out, FeedAll(f.state, chunks[1..]).1);
  }

  /** The offset o lies in packet k, and not inside its header. */
  predicate Between(ps: seq<Packet>, k: nat, o: nat) {
    k <= |ps| && (o == 0 || (o >= 2 && k < |ps| && o < 2 + |ps[k]|))
  }

  /** One chunk, by its position in the whole encoding. */
  lemma FeedAt(ps: seq<Packet>, k: nat, o: nat, c: seq<Byte>, m: nat, i: nat)
    requires Between(ps, k, o) && Sendable(ps[k..])
    requires c != [] && o + |c| <= |Encode(ps[k..])| && c == Encode(ps[k..])[o..o + |c|]
    requires m == k + Whole(ps[k..], o + |c|) && i == Into(ps[k..], o + |c|) && i != 1
    ensures k <= m && Between(ps, m, i)
    ensures Feed(Midway(ps[k..], o), c) == Fed(Midway(ps[m..], i), ps[k..m], 0)
  {
    var qs := ps[k..];
    FeedChunk(qs, o, c);
    Slices(ps, k, m);
  }

  lemma Slices(ps: seq<Packet>, k: nat, m: nat)
    requires k <= m <= |ps|
    ensures ps[k..][m - k..] == ps[m..] && ps[k..][..m - k] == ps[k..m] && ps[k..m] + ps[m..] == ps[k..]
  {
  }

  lemma FaresOver(s: State, chunks: seq<seq<Byte>>, ps: seq<Packet>, k: nat, m: nat, free: bool)
    requires k <= m <= |ps| && chunks != [] && Feed(s, chunks[0]).out == ps[k..m]
    requires Fares(Feed(s, chunks[0]).state, chunks[1..], ps[m..], free)
    ensures Fares(s, chunks, ps[k..], free)
  {
    Slices(ps, k, m);
    FaresOn(s, chunks, ps[k..], ps[m..], free);
  }

  /** A chunk begins o bytes into packet k and ends i bytes into packet m. */
  ghost predicate Spans(ps: seq<Packet>, k: nat, o: nat, c: seq<Byte>, m: nat, i: nat) {
    && Between(ps, k, o) && Sendable(ps[k..])
    && o + |c| <= |Encode(ps[k..])| && c == Encode(ps[k..])[o..o + |c|]
    && m == k + Whole(ps[k..], o + |c|) && i == Into(ps[k..], o + |c|)
    && (i == 1 || Between(ps, m, i))
  }

  /** What comes of such a chunk and of those behind it. */
  lemma FaresFrom(ps: seq<Packet>, k: nat, o: nat, chunks: seq<seq<Byte>>, m: nat, i: nat, free: bool)
    requires chunks != [] && Spans(ps, k, o, chunks[0], m, i)
    requires if i == 1 then !free else Fares(Midway(ps[m..], i), chunks[1..], ps[m..], free)
    ensures Fares(Midway(ps[k..], o), chunks, ps[k..], free)
  {
    var s, c := Midway(ps[k..], o), chunks[0];
    if i == 1 {
      FeedCut(ps[k..], o, c);
      FaresIll(s, chunks, ps[k..]);
    } else if c == [] {
      Placed(ps[k..], o);
      assert k == m && o == i;
      FaresOn(s, chunks, ps[k..], ps[m..], free);
    } else {
      FeedAt(ps, k, o, c, m, i);
      FaresOver(s, chunks, ps, k, m, free);
    }
  }

  /** The chunks make up the encoding from position `at` on. */
  ghost predicate Coming(ps: seq<Packet>, at: nat, chunks: seq<seq<Byte>>) {
    Sendable(ps) && at <= |Encode(ps)| && Encode(ps)[at..] == Concat(chunks)
  }

  lemma Ahead(qs: seq<Packet>, o: nat, c: seq<Byte>, rest: seq<Byte>)
    requires Sendable(qs) && o <= |Encode(qs)| && Encode(qs)[o..] == c + rest
    ensures o + |c| <= |Encode(qs)| && Encode(qs)[o + |c|..] == rest && c == Encode(qs)[o..o + |c|]
  {
    assert Encode(qs)[o + |c|..] == Encode(qs)[o..][|c|..];
    assert Encode(qs)[o..o + |c|] == Encode(qs)[o..][..|c|];
  }

  lemma PlacedBetween(ps: seq<Packet>, at: nat)
    requires Sendable(ps) && at <= |Encode(ps)| && Into(ps, at) != 1
    ensures Between(ps, Whole(ps, at), Into(ps, at))
  {
    Placed(ps, at);
  }

  lemma Spanned(ps: seq<Packet>, at: nat, c: seq<Byte>, k: nat, o: nat, m: nat, i: nat)
    requires Sendable(ps) && at + |c| <= |Encode(ps)|
    requires k == Whole(ps, at) && o == Into(ps, at) && o != 1
    requires m == Whole(ps, at + |c|) && i == Into(ps, at + |c|)
    requires Sendable(ps[k..]) && o + |c| <= |Encode(ps[k..])| && c == Encode(ps[k..])[o..o + |c|]
    ensures Spans(ps, k, o, c, m, i)
  {
    PlacedBetween(ps, at);
    if i != 1 { PlacedBetween(ps, at + |c|); }
    Onward(ps, at, |c|);
  }

  /** Where a chunk that follows position `at` lies, seen from the packet begun there. */
  lemma Later(ps: seq<Packet>, at: nat, chunks: seq<seq<Byte>>)
    requires Coming(ps, at, chunks) && chunks != [] && Into(ps, at) != 1
    ensures var e := at + |chunks[0]|;
      && Coming(ps, e, chunks[1..])
      && Spans(ps, Whole(ps, at), Into(ps, at), chunks[0], Whole(ps, e), Into(ps, e))
  {
    var c, rest := chunks[0], Concat(chunks[1..]);
    var k, o, e := Whole(ps, at), Into(ps, at), at + |c|;
    Ahead(ps, at, c, rest);
    Reached(ps, at);
    Ahead(ps[k..], o, c, rest);
    Spanned(ps, at, c, k, o, Whole(ps, e), Into(ps, e));
  }

  lemma NoneComing(ps: seq<Packet>, at: nat)
    requires Coming(ps, at, []) && Into(ps, at) != 1
    ensures Whole(ps, at) == |ps| && Into(ps, at) == 0
    ensures Fares(Midway(ps[|ps|..], 0), [], ps[|ps|..], true)
  {
    assert |Encode(ps)[at..]| == 0;
    Placed(ps, at);
  }

  /** From a point of an encoding that is not inside a header: what the rest yields, or how
      many bytes it is bound to lose. */
  lemma {:induction false} FromHere(ps: seq<Packet>, at: nat, chunks: seq<seq<Byte>>, k: nat, o: nat)
    requires Coming(ps, at, chunks) && o != 1
    requires k == Whole(ps, at) && o == Into(ps, at)
    ensures Between(ps, k, o)
    ensures Fares(Midway(ps[k..], o), chunks, ps[k..], CutFree(ps, at, chunks))
    decreases |chunks|
  {
    if chunks == [] {
      NoneComing(ps, at);
    } else {
      var e := at + |chunks[0]|;
      Later(ps, at, chunks);
      var m, i := Whole(ps, e), Into(ps, e);
      if i != 1 { FromHere(ps, e, chunks[1..], m, i); }
      FaresFrom(ps, k, o, chunks, m, i, CutFree(ps, at, chunks));
    }
  }

  /** Chunk invariance: the receiver delivers just the packets that were sent, in order, if
      and only if no chunk ends between the two bytes of a header. */
  lemma ChunkInvariance(ps: seq<Packet>, chunks: seq<seq<Byte>>)
    requires Sendable(ps) && Concat(chunks) == Encode(ps)
    ensures FeedAll(Idle, chunks).1 == ps <==> CutFree(ps, 0, chunks)
    ensures CutFree(ps, 0, chunks) ==> FeedAll(Idle, chunks).0 == Idle
  {
    assert Encode(ps)[0..] == Encode(ps) && ps[0..] == ps;
    FromHere(ps, 0, chunks, 0, 0);
    EncodeWeight(ps);
  }

  // ----- headers that announce no packet -----

  lemma EncodeFirst(ps: seq<Packet>, rest: seq<Byte>)
    requires Sendable(ps) && ps != []
    ensures Encode(ps) + rest == Header(|ps[0]|) + ps[0] + (Encode(ps[1..]) + rest)
  {
  }

  lemma EncodedOne(ps: seq<Packet>, rest: seq<Byte>)
    requires Sendable(ps) && ps != []
    ensures var r := Scan(Encode(ps[1..]) + rest); Scan(Encode(ps) + rest) == r.(out := [ps[0]] + r.out)
  {
    EncodeFirst(ps, rest);
    ScanOne(ps[0], Encode(ps[1..]) + rest);
  }

  lemma OutFirst(ps: seq<Packet>, out: seq<Packet>)
    requires ps != []
    ensures [ps[0]] + (ps[1..] + out) == ps + out
  {
  }

  /** Whole packets, read from the front of a chunk. */
  lemma {:induction false} ScanPackets(ps: seq<Packet>, rest: seq<Byte>, r: Fed)
    requires Sendable(ps) && r == Scan(rest)
    ensures Scan(Encode(ps) + rest) == r.(out := ps + r.out)
    decreases |ps|
  {
    if ps == [] {
      assert Encode(ps) + rest == rest && ps + r.out == r.out;
    } else {
      ScanPackets(ps[1..], rest, r);
      EncodedOne(ps, rest);
      OutFirst(ps, r.out);
    }
  }

  /** After whole packets a size of 0 is skipped; a size above the largest packet is an error,
      at which the rest of the chunk is dropped; and a byte that is left alone is dropped
      without one. */
  lemma ScanOdd(ps: seq<Packet>, hi: Byte, lo: Byte, rest: seq<Byte>)
    requires Sendable(ps)
    ensures var size := hi * 256 + lo; var b := Encode(ps) + [hi, lo] + rest;
      && (size == 0 ==> Scan(b) == Scan(rest).(out := ps + Scan(rest).out))
      && (size > 9236 ==> Scan(b) == Fed(Idle, ps, -1))
    ensures Scan(Encode(ps) + [hi]) == Fed(Idle, ps, 0)
  {
    var more := [hi, lo] + rest;
    assert Encode(ps) + [hi, lo] + rest == Encode(ps) + more;
    assert more[0] == hi && more[1] == lo && more[2..] == rest;
    ScanPackets(ps, more, Scan(more));
    ScanPackets(ps, [hi], Scan([hi]));
    assert ps + [] == ps;
  }

  /** A packet in progress is completed before anything else is read; an empty chunk is an
      error that changes nothing. */
  lemma FeedPartial(held: seq<Byte>, part: seq<Byte>, rest: seq<Byte>)
    requires part != []
    ensures Feed(Partial(held, |part|), part + rest) == Scan(rest).(out := [held + part] + Scan(rest).out)
    ensures forall s: State :: Feed(s, []) == Fed(s, [], -1)
  {
    assert (part + rest)[|part|..] == rest && (part + rest)[..|part|] == part;
  }

  /** A packet of one byte that arrives as the first header byte, then the rest, is lost: the
      second header byte and the packet are taken for a header. */
  lemma CutHeaderLoses(b: Byte)
    ensures Concat([[0], [1, b]]) == Encode([[b]]) && !CutFree([[b]], 0, [[0], [1, b]])
    ensures FeedAll(Idle, [[0], [1, b]]) == (Partial([], 256 + b), [])
  {
    var chunks: seq<seq<Byte>>, rest: seq<seq<Byte>> := [[0], [1, b]], [[1, b]];
    assert chunks[1..] == rest && rest[1..] == [];
    assert Concat(rest) == [1, b] && Concat(chunks) == [0, 1, b];
    var ps: seq<Packet> := [[b]];
    assert ps[1..] == [] && Header(1) == [0, 1];
    assert Encode(ps) == Header(1) + [b] + Encode([]) == [0, 1, b];
    assert Feed(Idle, [0]) == Fed(Idle, [], 0);
    assert Feed(Idle, [1, b]) == Fed(Partial([], 256 + b), [], 0);
    var none: seq<seq<Byte>>, out: seq<Packet> := [], [];
    assert rest[1..] == none && out + out == out;
    assert FeedAll(Partial([], 256 + b), none) == (Partial([], 256 + b), out);
    assert FeedAll(Idle, rest) == (Partial([], 256 + b), out);
  }
}

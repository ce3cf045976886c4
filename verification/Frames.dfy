/** Ethernet frames as byte strings, and the two in-place rewrites between the tagged and
    the untagged form. */
module Frames {
  import opened KeyPacking

  type Frame = seq<Byte>

  const NUMOFVLAN: nat := 4095
  const NOVLAN: nat := 0xfff

  const MINFRAME: nat := 60
  const PACKET: nat := 1518     // sizeof(struct packet)
  const FILLER: nat := 4        // bipacket: room before the packet for a tag

  predicate Tagged(f: Frame)
    requires |f| >= 14
  {
    f[12] == 0x81 && f[13] == 0x00
  }

  /** The 12-bit VLAN identifier behind the 0x8100 type. */
  function Vid(f: Frame): nat
    requires |f| >= 16
  {
    var hi: nat, lo: nat := f[14], f[15];
    (hi * 256 + lo) % 0x1000
  }

  function Dest(f: Frame): Mac
    requires |f| >= 14
  {
    f[..6]
  }

  function Source(f: Frame): Mac
    requires |f| >= 14
  {
    f[6..12]
  }

  predicate IsBroadcast(m: Mac) {
    m[0] % 2 == 1
  }

  /** The frame without its four tag bytes. */
  function Strip(f: Frame): Frame
    requires |f| >= 16
  {
    f[..12] + f[16..]
  }

  function TagBytes(vlan: nat): seq<Byte> {
    [0x81, 0x00, vlan / 256 % 256, vlan % 256]
  }

  /** The frame with a tag between its addresses and its type. */
  function Insert(f: Frame, vlan: nat): Frame
    requires |f| >= 12
  {
    f[..12] + TagBytes(vlan) + f[12..]
  }

  /** What UNTAG2TAG makes of it: the macro has already moved the pointer back by four when
      it writes the tag, so the tag lands four bytes early, inside the source address. */
  function InsertAsWritten(f: Frame, vlan: nat): Frame
    requires |f| >= 12
  {
    f[..8] + TagBytes(vlan) + f[8..]
  }

  /** Stripping undoes tagging, and tagging with its own VLAN undoes stripping for a
      frame whose priority bits are clear. */
  lemma StripInsert(f: Frame, vlan: nat)
    requires |f| >= 14 && vlan < 0x1000
    ensures Strip(Insert(f, vlan)) == f
    ensures Tagged(Insert(f, vlan)) && Vid(Insert(f, vlan)) == vlan
    ensures Dest(Insert(f, vlan)) == Dest(f) && Source(Insert(f, vlan)) == Source(f)
  {
    assert Insert(f, vlan)[12..16] == TagBytes(vlan);
    var g := Insert(f, vlan);
    assert g[14] == TagBytes(vlan)[2] && g[15] == TagBytes(vlan)[3];
  }

  lemma VidParts(hi: nat, lo: nat, v: nat)
    requires hi < 256 && lo < 256 && v == (hi * 256 + lo) % 0x1000
    ensures v / 256 % 256 == hi % 16 && v % 256 == lo
  {
    assert v == hi % 16 * 256 + lo;
  }

  lemma VidBytes(f: Frame)
    requires |f| >= 16
    ensures TagBytes(Vid(f)) == [0x81, 0x00, f[14] % 16, f[15]]
  {
    VidParts(f[14], f[15], Vid(f));
  }

  lemma InsertStrip(f: Frame)
    requires |f| >= 16 && Tagged(f)
    ensures Insert(Strip(f), Vid(f)) == f <==> f[14] < 16
  {
    VidBytes(f);
    var t := TagBytes(Vid(f));
    assert f == f[..12] + f[12..16] + f[16..];
    assert Insert(Strip(f), Vid(f)) == f[..12] + t + f[16..];
    assert f[12..16] == [f[12], f[13], f[14], f[15]];
    if f[14] >= 16 {
      assert (f[..12] + t + f[16..])[14] == t[2] != f[14];
    }
  }

  /** UNTAG2TAG yields the tagged frame exactly when source bytes 2..5 already are the tag. */
  lemma TagMisplaced(f: Frame, vlan: nat)
    requires |f| >= 12
    ensures InsertAsWritten(f, vlan) == Insert(f, vlan) <==> f[8..12] == TagBytes(vlan)
  {
    var a, b, t := InsertAsWritten(f, vlan), Insert(f, vlan), TagBytes(vlan);
    assert a[8..12] == t && b[8..12] == f[8..12];
    assert a == f[..8] + t + f[8..12] + f[12..];
    assert b == f[..8] + f[8..12] + t + f[12..];
  }

  /** A frame for which it does not. */
  lemma TagMisplacedExample()
    ensures var f: Frame := seq(60, _ => 0); InsertAsWritten(f, 5) != Insert(f, 5)
  {
    var f: Frame := seq(60, _ => 0);
    TagMisplaced(f, 5);
    assert f[8..12][0] == 0;
  }

  /** Flooding an untagged frame strips it again instead of tagging it: never the frame
      that the tagged members are due. */
  lemma StrippedIsNotTagged(f: Frame, vlan: nat)
    requires |f| >= 16
    ensures Strip(f) != Insert(f, vlan)
  {
    assert |Strip(f)| == |f| - 4 && |Insert(f, vlan)| == |f| + 4;
  }

  // ----- the packet buffer -----

  /** The packet of `len` bytes at offset `at` of a buffer. */
  function View(buf: array<Byte>, at: nat, len: nat): Frame
    requires at + len <= buf.Length
    reads buf
  {
    buf[at..at + len]
  }

  /** memmove: as if through a copy of the source. */
  method MemMove(buf: array<Byte>, dst: nat, src: nat, n: nat)
    requires dst + n <= buf.Length && src + n <= buf.Length
    modifies buf
    ensures forall k :: 0 <= k < buf.Length
              ==> buf[k] == old(buf[if dst <= k < dst + n then src + (k - dst) else k])
  {
    if dst < src {
      for i := 0 to n
        invariant forall k :: 0 <= k < buf.Length
                    ==> buf[k] == old(buf[if dst <= k < dst + i then src + (k - dst) else k])
      {
        buf[dst + i] := buf[src + i];
      }
    } else {
      for i := n downto 0
        invariant forall k :: 0 <= k < buf.Length
                    ==> buf[k] == old(buf[if dst + i <= k < dst + n then src + (k - dst) else k])
      {
        buf[dst + i] := buf[src + i];
      }
    }
  }

  /** A frame shorter than 60 bytes is lengthened to 60; the zeros are written from byte
      len of the payload on, so up to 14 of the added bytes are what the buffer held. */
  function Padded(raw: seq<Byte>, len: nat): Frame
    requires len <= |raw| && MINFRAME <= |raw|
  {
    if len >= MINFRAME then raw[..len]
    else seq(MINFRAME, i requires 0 <= i < MINFRAME => if i < 14 + len then raw[i] else 0)
  }

  /** The padding is all zeros exactly when those stale bytes are. */
  lemma PaddingZero(raw: seq<Byte>, len: nat)
    requires len < MINFRAME <= |raw|
    ensures (forall i :: len <= i < MINFRAME ==> Padded(raw, len)[i] == 0)
       <==> (forall i :: len <= i < MINFRAME && i < 14 + len ==> raw[i] == 0)
    ensures Padded(raw, len)[..len] == raw[..len]
  {
    var p := Padded(raw, len);
    if forall i :: len <= i < MINFRAME ==> p[i] == 0 {
      forall i | len <= i < MINFRAME && i < 14 + len
        ensures raw[i] == 0
      {
        assert p[i] == 0;
      }
    }
  }

  /** A packet of 60 bytes or more is left as it is; a shorter one becomes 60 bytes long, of
      which those behind it are zero from 14 on. */
  lemma PaddedIs(raw: seq<Byte>, len: nat)
    requires len <= |raw| && MINFRAME <= |raw|
    ensures |Padded(raw, len)| == if len < 60 then 60 else len
    ensures forall i :: 0 <= i < |Padded(raw, len)| ==>
      Padded(raw, len)[i] == if i >= len + 14 && len < 60 then 0 else raw[i]
  {
  }

  /** A byte left behind a packet of 20 bytes by an earlier one goes out with its padding. */
  lemma PaddingStale(raw: seq<Byte>)
    requires |raw| == PACKET && raw[20] != 0
    ensures Padded(raw, 20)[20] == raw[20] != 0
  {
    PaddingZero(raw, 20);
  }

  /** The two memory effects of handle_in_packet on a short packet: memset and `len = 60`. */
  method PadShort(buf: array<Byte>, at: nat, len: nat) returns (n: nat)
    requires at + PACKET == buf.Length && len <= PACKET
    modifies buf
    ensures n == (if len < MINFRAME then MINFRAME else len)
    ensures View(buf, at, n) == Padded(old(View(buf, at, PACKET)), len)
  {
    n := len;
    if len < MINFRAME {
      ghost var raw := View(buf, at, PACKET);
      for i := 0 to MINFRAME - len
        invariant forall k :: at <= k < buf.Length
                    ==> buf[k] == if at + 14 + len <= k < at + 14 + len + i then 0 else raw[k - at]
      {
        buf[at + 14 + len + i] := 0;
      }
      n := MINFRAME;
      PaddedIs(raw, len);
      forall k | 0 <= k < n
        ensures buf[at + k] == Padded(raw, len)[k]
      {
      }
      assert View(buf, at, n) == Padded(raw, len);
    } else {
      assert View(buf, at, n) == View(buf, at, PACKET)[..len];
    }
  }

  /** TAG2UNTAG: the addresses move up over the tag and the packet starts four later. */
  method Tag2Untag(buf: array<Byte>, at: nat, len: nat) returns (newAt: nat, newLen: nat)
    requires 16 <= len && at + len <= buf.Length
    modifies buf
    ensures newAt == at + 4 && newLen == len - 4
    ensures View(buf, newAt, newLen) == Strip(old(View(buf, at, len)))
  {
    ghost var f := View(buf, at, len);
    MemMove(buf, at + 4, at, 12);
    newAt, newLen := at + 4, len - 4;
    forall k | 0 <= k < newLen
      ensures buf[newAt + k] == Strip(f)[k]
    {
      assert buf[newAt + k] == if k < 12 then f[k] else f[k + 4];
    }
  }

  /** The four byte writes of UNTAG2TAG. */
  method PutTag(buf: array<Byte>, at: nat, vlan: nat)
    requires at + 4 <= buf.Length
    modifies buf
    ensures forall k :: 0 <= k < buf.Length
              ==> buf[k] == if at <= k < at + 4 then TagBytes(vlan)[k - at] else old(buf[k])
  {
    buf[at], buf[at + 1] := 0x81, 0x00;
    buf[at + 2] := vlan / 256 % 256;
    buf[at + 3] := vlan % 256;
  }

  /** UNTAG2TAG as written. */
  method Untag2Tag(buf: array<Byte>, at: nat, vlan: nat, len: nat) returns (newAt: nat, newLen: nat)
    requires 4 <= at && 14 <= len && at + len <= buf.Length
    modifies buf
    ensures newAt == at - 4 && newLen == len + 4
    ensures View(buf, newAt, newLen) == InsertAsWritten(old(View(buf, at, len)), vlan)
  {
    ghost var f, t := View(buf, at, len), TagBytes(vlan);
    MemMove(buf, at - 4, at, 12);
    newAt, newLen := at - 4, len + 4;
    PutTag(buf, newAt + 8, vlan);
    forall k | newAt <= k < newAt + newLen
      ensures buf[k] == InsertAsWritten(f, vlan)[k - newAt]
    {
      if k < newAt + 8 {
        assert buf[k] == f[k - newAt];
      } else if k < newAt + 12 {
        assert buf[k] == t[k - newAt - 8];
      } else {
        assert buf[k] == f[k - newAt - 4];
      }
    }
  }
}

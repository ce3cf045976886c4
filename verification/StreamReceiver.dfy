/** The receiving end of a stream as it is stored: a buffer for the packet in progress, a
    position in it, and the two counters. */
module StreamReceiver {
  import opened KeyPacking
  import opened Framing

  class Stream {
    const fragment: array<Byte>
    var fragp: nat          // how far the fragment is filled
    var rnx: nat            // the size of the packet in progress; 0 when there is none
    var remaining: nat

    /** While a packet is in progress the bytes held and those missing make up its size. */
    ghost predicate Valid()
      reads this
    {
      && fragment.Length == MAXPACKET
      && rnx <= MAXPACKET
      && (rnx > 0 ==> remaining > 0 && fragp + remaining == rnx)
    }

    ghost function Abs(): State
      requires Valid()
      reads this, fragment
    {
      if rnx == 0 then Idle else Partial(fragment[..fragp], remaining)
    }

    constructor ()
      ensures Valid() && Abs() == Idle && fresh(fragment)
    {
      fragment := new Byte[MAXPACKET](_ => 0);
      fragp, rnx, remaining := 0, 0, 0;
    }

    /** memcpy of n bytes of the chunk to the fill position. */
    method Copy(buff: array<Byte>, pos: nat, n: nat)
      requires buff != fragment && pos + n <= buff.Length && fragp + n <= fragment.Length
      modifies fragment
      ensures fragment[..fragp + n] == old(fragment[..fragp]) + buff[pos..pos + n]
    {
      for i := 0 to n
        invariant forall k :: 0 <= k < fragp ==> fragment[k] == old(fragment[k])
        invariant forall k :: fragp <= k < fragp + i ==> fragment[k] == buff[pos + (k - fragp)]
      {
        fragment[fragp + i] := buff[pos + i];
      }
    }

    /** The part of the receiver that goes on with a packet in progress. The packets handed
        to the callback are returned, and the position the chunk is read from next. */
    method GoOn(buff: array<Byte>, length: nat) returns (pos: nat, out: seq<Packet>)
      requires Valid() && buff != fragment && 0 < length <= buff.Length
      modifies this, fragment
      ensures Valid() && pos <= length && (rnx > 0 ==> pos == length)
      ensures old(Abs()) == Idle ==> pos == 0 && out == [] && Abs() == Idle
      ensures old(Abs()).Partial? ==>
        var s, c := old(Abs()), buff[..length];
        if length < s.need
        then out == [] && Abs() == Partial(s.held + c, s.need - length)
        else pos == s.need && out == [s.held + c[..s.need]] && Abs() == Idle
    {
      pos, out := 0, [];
      if rnx > 0 {
        var amount := if remaining < length then remaining else length;
        Copy(buff, 0, amount);
        assert buff[0..amount] == buff[..length][..amount];
        remaining := remaining - amount;
        fragp := fragp + amount;
        pos := amount;
        if remaining == 0 {
          out := [fragment[..rnx]];
          rnx := 0;
        }
      }
    }

    /** winvdestream_recv, with an error callback. */
    method Recv(buff: array<Byte>, length: nat) returns (code: int, out: seq<Packet>)
      requires Valid() && buff != fragment && length <= buff.Length
      modifies this, fragment
      ensures Valid()
      ensures Fed(Abs(), out, code) == Feed(old(Abs()), buff[..length])
    {
      if length <= 0 { return -1, []; }
      var pos;
      pos, out := GoOn(buff, length);
      if rnx > 0 { return 0, out; }
      var more;
      ghost var b := buff[..length];
      assert IsHeld(b, buff, length);
      ghost var whole := Scan(b[pos..]);
      code, more := ReadPackets(buff, pos, length, b, whole);
      out := out + more;
    }

    /** The loop over the packets that begin in the chunk b. */
    method ReadPackets(buff: array<Byte>, start: nat, length: nat, ghost b: seq<Byte>, ghost whole: Fed)
      returns (code: int, out: seq<Packet>)
      requires Valid() && rnx == 0 && buff != fragment && start <= length <= buff.Length
      requires IsHeld(b, buff, length) && ResumedAt([], b, start, whole)
      modifies this, fragment
      ensures Valid() && Fed(Abs(), out, code) == whole
    {
      var pos := start;
      code, out := 0, [];
      while length - pos > 1
        invariant Valid() && rnx == 0 && start <= pos <= length && IsHeld(b, buff, length)
        invariant code == 0 && ResumedAt(out, b, pos, whole)
      {
        var n: nat := buff[pos];
        n := n * 256 + buff[pos + 1];
        ResumeHeld(out, b, buff, length, pos, n, whole);
        pos := pos + 2;
        if n == 0 {
          continue;
        }
        if n > MAXPACKET {
          return -1, out;
        }
        if n > length - pos {
          KeepPart(buff, pos, length, n, b);
          return 0, out;
        }
        out := out + [buff[pos..pos + n]];
        pos := pos + n;
      }
      ResumeEnd(out, b, pos, whole);
    }

    /** The chunk ends before the packet does. */
    method KeepPart(buff: array<Byte>, pos: nat, length: nat, n: nat, ghost b: seq<Byte>)
      requires Valid() && buff != fragment && pos <= length <= buff.Length && length - pos < n <= MAXPACKET
      requires IsHeld(b, buff, length)
      modifies this, fragment
      ensures Valid() && Abs() == Partial(b[pos..], n - (length - pos))
    {
      HeldPart(b, buff, length, pos, length - pos);
      fragp := 0;
      Copy(buff, pos, length - pos);
      rnx, remaining, fragp := n, n - (length - pos), length - pos;
    }
  }

  /** The bytes of a chunk, in the array that they are read from. */
  ghost predicate IsHeld(b: seq<Byte>, buff: array<Byte>, length: nat)
    reads buff
  {
    |b| == length <= buff.Length && forall i :: 0 <= i < length ==> b[i] == buff[i]
  }

  lemma HeldPart(b: seq<Byte>, buff: array<Byte>, length: nat, pos: nat, n: nat)
    requires IsHeld(b, buff, length) && pos + n <= length
    ensures b[pos..pos + n] == buff[pos..pos + n]
    ensures pos + n == length ==> b[pos..] == buff[pos..pos + n]
  {
  }

  /** Packets delivered so far and what is still to be read make up the whole scan. */
  ghost predicate Resumed(out: seq<Packet>, rest: seq<Byte>, whole: Fed) {
    Scan(rest).(out := out + Scan(rest).out) == whole
  }

  /** One header read: what is then still to be read, or how the scan ends. */
  lemma Resume(out: seq<Packet>, rest: seq<Byte>, whole: Fed)
    requires Resumed(out, rest, whole) && |rest| >= 2
    ensures var n := Size(rest);
      if n == 0 then Resumed(out, rest[2..], whole)
      else if n > MAXPACKET then whole == Fed(Idle, out, -1)
      else if n > |rest| - 2 then whole == Fed(Partial(rest[2..], n - (|rest| - 2)), out, 0)
      else Resumed(out + [rest[2..2 + n]], rest[2 + n..], whole)
  {
    var n := Size(rest);
    if 0 < n <= MAXPACKET && n <= |rest| - 2 {
      var r := Scan(rest[2 + n..]).out;
      assert out + ([rest[2..2 + n]] + r) == out + [rest[2..2 + n]] + r;
    }
  }

  /** The same by positions in the chunk. */
  ghost predicate ResumedAt(out: seq<Packet>, b: seq<Byte>, pos: nat, whole: Fed) {
    pos <= |b| && Resumed(out, b[pos..], whole)
  }

  lemma ResumeAt(out: seq<Packet>, b: seq<Byte>, pos: nat, n: nat, whole: Fed)
    requires ResumedAt(out, b, pos, whole) && pos + 2 <= |b|
    requires var hi: nat, lo: nat := b[pos], b[pos + 1]; n == hi * 256 + lo
    ensures
      if n == 0 then ResumedAt(out, b, pos + 2, whole)
      else if n > MAXPACKET then whole == Fed(Idle, out, -1)
      else if n > |b| - pos - 2 then whole == Fed(Partial(b[pos + 2..], n - (|b| - pos - 2)), out, 0)
      else ResumedAt(out + [b[pos + 2..pos + 2 + n]], b, pos + 2 + n, whole)
  {
    var rest := b[pos..];
    assert rest[2..] == b[pos + 2..];
    if n <= |rest| - 2 {
      assert rest[2..2 + n] == b[pos + 2..pos + 2 + n] && rest[2 + n..] == b[pos + 2 + n..];
    }
    Resume(out, rest, whole);
  }

  /** The same in the array. */
  lemma ResumeHeld(out: seq<Packet>, b: seq<Byte>, buff: array<Byte>, length: nat, pos: nat, n: nat, whole: Fed)
    requires IsHeld(b, buff, length) && ResumedAt(out, b, pos, whole) && pos + 2 <= length
    requires var hi: nat, lo: nat := buff[pos], buff[pos + 1]; n == hi * 256 + lo
    ensures
      if n == 0 then ResumedAt(out, b, pos + 2, whole)
      else if n > MAXPACKET then whole == Fed(Idle, out, -1)
      else if n > length - pos - 2 then whole == Fed(Partial(b[pos + 2..], n - (length - pos - 2)), out, 0)
      else ResumedAt(out + [buff[pos + 2..pos + 2 + n]], b, pos + 2 + n, whole)
  {
    ResumeAt(out, b, pos, n, whole);
    if n <= length - pos - 2 { HeldPart(b, buff, length, pos + 2, n); }
  }

  lemma ResumeEnd(out: seq<Packet>, b: seq<Byte>, pos: nat, whole: Fed)
    requires ResumedAt(out, b, pos, whole) && |b| - pos <= 1
    ensures whole == Fed(Idle, out, 0)
  {
    assert out + [] == out;
  }
}

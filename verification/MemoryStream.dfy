/** A file in memory that grows by chunks of fixed size. */
module MemoryStream {
  type Bytes = seq<char>

  const CHUNK: nat := 1024     // MEMORY_BUFFER_SIZE

  // ----- what is written -----

  /** A write is refused when it is empty, and when the file ends at the end of a chunk, the
      empty file aside. */
  predicate Accepts(size: nat, data: Bytes) {
    data != [] && (size == 0 || size % CHUNK != 0)
  }

  function Written(contents: Bytes, data: Bytes): Bytes {
    if Accepts(|contents|, data) then contents + data else contents
  }

  function WrittenAll(contents: Bytes, writes: seq<Bytes>): Bytes {
    if writes == [] then contents
    else Written(WrittenAll(contents, writes[..|writes| - 1]), writes[|writes| - 1])
  }

  function Concat(writes: seq<Bytes>): Bytes {
    if writes == [] then [] else Concat(writes[..|writes| - 1]) + writes[|writes| - 1]
  }

  /** A file that ends at the end of a chunk never grows again. */
  lemma {:induction false} Stuck(contents: Bytes, writes: seq<Bytes>)
    requires |contents| > 0 && |contents| % CHUNK == 0
    ensures WrittenAll(contents, writes) == contents
  {
    if writes != [] { Stuck(contents, writes[..|writes| - 1]); }
  }

  /** The number of leading writes that reach the file: all up to the first that makes it end
      at the end of a chunk. */
  function Reaching(writes: seq<Bytes>): (n: nat)
    ensures n <= |writes|
  {
    if writes == [] then 0
    else
      var front := writes[..|writes| - 1];
      var n, size := Reaching(front), |Concat(front)|;
      if n == |front| && (size == 0 || size % CHUNK != 0) then n + 1 else n
  }

  lemma {:induction false} ReachingStops(writes: seq<Bytes>)
    ensures var n := Reaching(writes); n < |writes| ==> |Concat(writes[..n])| > 0 && |Concat(writes[..n])| % CHUNK == 0
    ensures forall k :: 0 <= k < Reaching(writes) ==> |Concat(writes[..k])| == 0 || |Concat(writes[..k])| % CHUNK != 0
  {
    if writes != [] {
      var front := writes[..|writes| - 1];
      ReachingStops(front);
      assert forall k :: 0 <= k <= |front| ==> front[..k] == writes[..k];
    }
  }

  lemma {:induction false} HoldsOnly(writes: seq<Bytes>)
    ensures WrittenAll([], writes) == Concat(writes[..Reaching(writes)])
  {
    if writes != [] {
      var front, n := writes[..|writes| - 1], Reaching(writes[..|writes| - 1]);
      HoldsOnly(front);
      ReachingStops(front);
      assert writes[..n] == front[..n] && front[..|front|] == front && writes[..|writes|] == writes;
    }
  }

  lemma {:induction false} Longer(writes: seq<Bytes>, n: nat)
    requires n <= |writes|
    ensures |Concat(writes[..n])| <= |Concat(writes)|
    ensures Concat(writes[..n]) == Concat(writes) <==> forall i :: n <= i < |writes| ==> writes[i] == []
    ensures |Concat(writes[..n])| == |Concat(writes)| ==> forall i :: n <= i < |writes| ==> writes[i] == []
  {
    if n < |writes| {
      var front := writes[..|writes| - 1];
      Longer(front, n);
      assert front[..n] == writes[..n];
    } else {
      assert writes[..n] == writes;
    }
  }

  /** The file holds exactly those writes, one after the other; it holds all that was written
      if and only if every write from then on is empty. */
  lemma HoldsReaching(writes: seq<Bytes>)
    ensures WrittenAll([], writes) == Concat(writes[..Reaching(writes)])
    ensures WrittenAll([], writes) == Concat(writes)
       <==> forall i :: Reaching(writes) <= i < |writes| ==> writes[i] == []
  {
    HoldsOnly(writes);
    Longer(writes, Reaching(writes));
  }

  /** A byte written after a full chunk is lost. */
  lemma ByteLost(chunk: Bytes, c: char)
    requires |chunk| == CHUNK
    ensures WrittenAll([], [chunk, [c]]) == chunk != Concat([chunk, [c]])
  {
    var writes := [chunk, [c]];
    assert writes[..1] == [chunk] && [chunk][..0] == [];
    assert WrittenAll([], []) == [] && Concat([]) == [];
    assert WrittenAll([], [chunk]) == [] + chunk == chunk;
    assert Concat([chunk]) == [] + chunk == chunk;
    assert Concat(writes) == chunk + [c];
  }

  // ----- the chain of chunks -----

  /** The chunks of the chain, of which the last is filled up to a position. */
  function Stored(chain: seq<Bytes>, pos: nat): Bytes
    requires chain != [] && pos <= CHUNK && forall i :: 0 <= i < |chain| ==> |chain[i]| == CHUNK
  {
    Concat(chain[..|chain| - 1]) + chain[|chain| - 1][..pos]
  }

  lemma {:induction false} FullChunks(chain: seq<Bytes>)
    requires forall i :: 0 <= i < |chain| ==> |chain[i]| == CHUNK
    ensures |Concat(chain)| == |chain| * CHUNK
  {
    if chain != [] { FullChunks(chain[..|chain| - 1]); }
  }

  class MemoryFile {
    var chain: seq<Bytes>     // the linked list of buffers, first to last
    var bufferPos: nat
    var size: nat

    /** Every chunk but the last is full, and the last is empty only in an empty file. */
    ghost predicate Valid()
      reads this
    {
      && chain != [] && bufferPos <= CHUNK
      && (forall i :: 0 <= i < |chain| ==> |chain[i]| == CHUNK)
      && size == |Contents()| && (bufferPos == 0 ==> |chain| == 1)
    }

    ghost function Contents(): Bytes
      requires chain != [] && bufferPos <= CHUNK && forall i :: 0 <= i < |chain| ==> |chain[i]| == CHUNK
      reads this
    {
      Stored(chain, bufferPos)
    }

    constructor ()
      ensures Valid() && Contents() == []
    {
      chain, bufferPos, size := [seq(CHUNK, _ => '\0')], 0, 0;
      new;
      assert chain[..0] == [];
    }

    /** memcpy into the last chunk at the position. */
    method Fill(data: Bytes)
      requires chain != [] && bufferPos + |data| <= CHUNK && forall i :: 0 <= i < |chain| ==> |chain[i]| == CHUNK
      modifies this
      ensures |chain| == |old(chain)| && (forall i :: 0 <= i < |chain| ==> |chain[i]| == CHUNK)
      ensures bufferPos == old(bufferPos) + |data| && size == old(size) + |data|
      ensures Stored(chain, bufferPos) == old(Stored(chain, bufferPos)) + data
    {
      var last := chain[|chain| - 1];
      var filled := last[..bufferPos] + data + last[bufferPos + |data|..];
      assert filled[..bufferPos + |data|] == last[..bufferPos] + data;
      chain := chain[|chain| - 1 := filled];
      assert chain[..|chain| - 1] == old(chain)[..|chain| - 1];
      bufferPos, size := bufferPos + |data|, size + |data|;
    }

    /** A zeroed chunk is appended; the one before is full. */
    method Extend()
      requires chain != [] && bufferPos == CHUNK && forall i :: 0 <= i < |chain| ==> |chain[i]| == CHUNK
      modifies `chain, `bufferPos
      ensures |chain| == |old(chain)| + 1 && bufferPos == 0 && forall i :: 0 <= i < |chain| ==> |chain[i]| == CHUNK
      ensures Stored(chain, bufferPos) == old(Stored(chain, bufferPos))
    {
      ghost var was := chain;
      chain := chain + [seq(CHUNK, _ => '\0')];
      bufferPos := 0;
      assert chain[..|chain| - 1] == was;
      assert was[|was| - 1][..CHUNK] == was[|was| - 1];
    }

    /** write_memorystream; -1 is an error. */
    method Write(buff: Bytes) returns (written: int)
      requires Valid()
      modifies this
      ensures Valid() && Contents() == Written(old(Contents()), buff)
      ensures if buff == [] || (|old(Contents())| > 0 && |old(Contents())| % 1024 == 0)
              then written == -1 && Contents() == old(Contents())
              else written == |buff| && Contents() == old(Contents()) + buff
    {
      FullChunks(chain[..|chain| - 1]);
      if buff == [] || bufferPos >= CHUNK { return -1; }
      Append(buff);
      written := |buff|;
    }

    /** The bytes fill the last chunk, and then new ones. */
    method Append(buff: Bytes)
      requires Valid() && buff != [] && bufferPos < CHUNK
      modifies this
      ensures Valid() && Contents() == old(Contents()) + buff
    {
      ghost var start := Contents();
      var n := if CHUNK - bufferPos < |buff| then CHUNK - bufferPos else |buff|;
      Fill(buff[..n]);
      var offset := n;
      while offset < |buff|
        invariant n <= offset <= |buff| && chain != [] && 0 < bufferPos <= CHUNK
        invariant forall i :: 0 <= i < |chain| ==> |chain[i]| == CHUNK
        invariant offset < |buff| ==> bufferPos == CHUNK
        invariant Stored(chain, bufferPos) == start + buff[..offset] && size == |start| + offset
      {
        Extend();
        var m := if CHUNK < |buff| - offset then CHUNK else |buff| - offset;
        Fill(buff[offset..offset + m]);
        assert buff[..offset] + buff[offset..offset + m] == buff[..offset + m];
        offset := offset + m;
      }
      assert buff[..|buff|] == buff;
    }

    /** get_buffer: the chunks are copied one after the other. */
    method GetBuffer() returns (out: Bytes)
      requires Valid()
      ensures out == Contents() && |out| == size
    {
      out := [];
      for i := 0 to |chain|
        invariant i < |chain| ==> out == Concat(chain[..i])
        invariant i == |chain| ==> out == Contents()
      {
        assert chain[..i + 1][..i] == chain[..i];
        if i + 1 < |chain| {
          out := out + chain[i];
        } else {
          out := out + chain[i][..bufferPos];
        }
      }
    }
  }
}

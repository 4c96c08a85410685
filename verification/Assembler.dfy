/** The receive buffer: a list of blocks, trimmed in place, that stands for one flat byte queue. */
module Assembly {
  import opened Bytes

  /** `buffer` is what was allocated; the data not yet consumed is the last `length` bytes, from offset `start`. */
  datatype BlockInfo = BlockInfo(buffer: seq<byte>, start: nat, length: uint32)

  type Block = b: BlockInfo | b.start + b.length == |b.buffer| witness BlockInfo([], 0, 0)

  function Data(block: Block): (d: seq<byte>)
    ensures |d| == block.length
  {
    block.buffer[block.start..]
  }

  /** The bytes held by a list of blocks, in order. */
  function Flat(blocks: seq<Block>): seq<byte>
  {
    if blocks == [] then [] else Data(blocks[0]) + Flat(blocks[1..])
  }

  lemma {:induction false} FlatConcat(a: seq<Block>, b: seq<Block>)
    ensures Flat(a + b) == Flat(a) + Flat(b)
  {
    if a == [] {
      assert a + b == b;
    } else {
      assert (a + b)[1..] == a[1..] + b;
      FlatConcat(a[1..], b);
    }
  }

  lemma FlatOne(block: Block)
    ensures Flat([block]) == Data(block)
  {
  }

  lemma FlatSplit(blocks: seq<Block>, i: nat)
    requires i <= |blocks|
    ensures Flat(blocks) == Flat(blocks[..i]) + Flat(blocks[i..])
  {
    assert blocks[..i] + blocks[i..] == blocks;
    FlatConcat(blocks[..i], blocks[i..]);
  }

  lemma FlatSnoc(blocks: seq<Block>, low: nat, i: nat)
    requires low <= i < |blocks|
    ensures Flat(blocks[low..i + 1]) == Flat(blocks[low..i]) + Data(blocks[i])
  {
    assert blocks[low..i + 1] == blocks[low..i] + [blocks[i]];
    FlatOne(blocks[i]);
    FlatConcat(blocks[low..i], [blocks[i]]);
  }

  /** Block `i` occupies the bytes that follow those of the blocks before it. */
  lemma FlatAt(blocks: seq<Block>, i: nat)
    requires i < |blocks|
    ensures Flat(blocks[..i + 1]) == Flat(blocks[..i]) + Data(blocks[i])
    ensures Flat(blocks) == Flat(blocks[..i + 1]) + Flat(blocks[i + 1..])
  {
    FlatSnoc(blocks, 0, i);
    FlatSplit(blocks, i + 1);
  }

  function Overwritten(s: seq<byte>, at: nat, source: seq<byte>): seq<byte>
    requires at + |source| <= |s|
  {
    s[..at] + source + s[at + |source|..]
  }

  /** Copying right after the part already written extends that part. */
  lemma OverwriteNext(original: seq<byte>, done: seq<byte>, source: seq<byte>)
    requires |done| + |source| <= |original|
    ensures Overwritten(Overwritten(original, 0, done), |done|, source) == Overwritten(original, 0, done + source)
  {
  }

  lemma OverwriteAll(original: seq<byte>, source: seq<byte>)
    requires |source| == |original|
    ensures Overwritten(original, 0, source) == source
  {
  }

  lemma ConcatAssociates(a: seq<byte>, b: seq<byte>, c: seq<byte>)
    ensures a + b + c == a + (b + c)
  {
  }

  /** `memcpy(dst + at, source, |source|)`. */
  method MemCopy(dst: array<byte>, at: nat, source: seq<byte>)
    requires at + |source| <= dst.Length
    modifies dst
    ensures dst[..] == Overwritten(old(dst[..]), at, source)
  {
    forall i | 0 <= i < |source| {
      dst[at + i] := source[i];
    }
  }

  class Assembler {
    var size: uint32
    var blocks: seq<Block>

    /** The plain byte sequence that the blocks stand for. */
    ghost function Contents(): seq<byte>
      reads this
    {
      Flat(blocks)
    }

    /** The size counter says how many bytes are held. */
    ghost predicate Valid()
      reads this
    {
      size == |Contents()|
    }

    constructor ()
      ensures Valid() && Contents() == []
    {
      size, blocks := 0, [];
    }

    method Clear()
      modifies this
      ensures Valid() && Contents() == []
    {
      blocks := [];
      size := 0;
    }

    /** The counter wraps when 2^32 or more bytes are held. */
    method Append(data: seq<byte>) returns (newSize: uint32)
      requires |data| < WORD
      modifies this
      ensures Contents() == old(Contents()) + data
      ensures newSize == size == (old(size) + |data|) % WORD
      ensures old(Valid()) ==> (Valid() <==> |old(Contents())| + |data| < WORD)
    {
      var info := BlockInfo(data, 0, |data|);
      FlatOne(info);
      FlatConcat(blocks, [info]);
      blocks := blocks + [info];
      size := (size + |data|) % WORD;
      newSize := size;
    }

    /** The block that holds byte `offset`, and the number of bytes before that block. */
    method FindStart(offset: uint32) returns (start: nat, depth: uint32)
      requires Valid() && offset < |Contents()|
      ensures start < |blocks| && depth == |Flat(blocks[..start])|
      ensures depth <= offset < depth + blocks[start].length
    {
      start, depth := 0, 0;
      var it := 0;
      assert blocks[..|blocks|] == blocks;
      while it != |blocks|
        invariant it <= |blocks| && depth == |Flat(blocks[..it])| <= offset
      {
        FlatAt(blocks, it);
        start := it;
        if depth + blocks[it].length > offset {
          return;
        }
        depth := depth + blocks[it].length;
        it := it + 1;
      }
    }

    /** The first block at whose end at least `end` bytes are covered, and the bytes before it. */
    method FindEnd(end: uint32) returns (last: nat, depth: uint32)
      requires Valid() && 0 < end <= |Contents()|
      ensures last < |blocks| && depth == |Flat(blocks[..last])|
      ensures depth < end <= depth + blocks[last].length
    {
      last, depth := 0, 0;
      var it := 0;
      assert blocks[..|blocks|] == blocks;
      while it != |blocks|
        invariant it <= |blocks| && depth == |Flat(blocks[..it])| < end
      {
        FlatAt(blocks, it);
        last := it;
        if depth + blocks[it].length >= end {
          return;
        }
        depth := depth + blocks[it].length;
        it := it + 1;
      }
    }

    /** Both ends of a range: its bytes are the span between them. */
    method Locate(offset: uint32, count: uint32) returns (start: nat, startOffset: uint32, last: nat, endOffset: uint32)
      requires Valid() && count > 0 && offset + count <= |Contents()|
      ensures IsSpan(blocks, start, startOffset, last, endOffset)
      ensures Contents()[offset..offset + count] == Span(blocks, start, startOffset, last, endOffset)
    {
      var depth: uint32;
      start, depth := FindStart(offset);
      startOffset := offset - depth;
      last, depth := FindEnd(offset + count);
      endOffset := offset + count - depth;
      StartNotAfterLast(blocks, start, last, offset);
      SpanIsSlice(blocks, start, startOffset, last, endOffset);
    }

    /** Copies `count` bytes at `offset` into the caller's buffer; fails without effect when there are none
        to copy or the range is not held. The sum `offset + count` must not wrap. */
    method Peek(out: array<byte>, count: uint32, offset: uint32 := 0) returns (ok: bool)
      requires Valid() && count <= out.Length && offset + count < WORD
      modifies out
      ensures ok == (count > 0 && offset + count <= |Contents()|)
      ensures out[..] == if ok then Overwritten(old(out[..]), 0, Contents()[offset..offset + count]) else old(out[..])
    {
      if offset + count > size || count == 0 {
        return false;
      }
      var start, startOffset, last, endOffset := Locate(offset, count);
      if start == last {
        var slice := Data(blocks[start])[startOffset..][..count];
        assert slice == Span(blocks, start, startOffset, last, endOffset);
        MemCopy(out, 0, slice);
      } else {
        CopyAcross(out, start, startOffset, last, endOffset);
      }
      ok := true;
    }

    /** Copies the tail of block `start`, the whole blocks between, and the head of block `last`. */
    method CopyAcross(out: array<byte>, start: nat, startOffset: uint32, last: nat, endOffset: uint32)
      requires Valid() && IsSpan(blocks, start, startOffset, last, endOffset) && start < last
      requires |Span(blocks, start, startOffset, last, endOffset)| <= out.Length
      modifies out
      ensures out[..] == Overwritten(old(out[..]), 0, Span(blocks, start, startOffset, last, endOffset))
    {
      ghost var original := out[..];
      var head := Data(blocks[start])[startOffset..];
      var tail := Data(blocks[last])[..endOffset];
      ghost var done := head + Flat(blocks[start + 1..last]);
      assert done + tail == Span(blocks, start, startOffset, last, endOffset);
      MemCopy(out, 0, head);
      var copied := CopyBlocks(out, |head|, start + 1, last, original, head);
      OverwriteNext(original, done, tail);
      MemCopy(out, copied, tail);
    }

    /** Copies whole blocks behind the `at` bytes of `done` already written over `original`. */
    method CopyBlocks(out: array<byte>, at: nat, first: nat, last: nat,
                      ghost original: seq<byte>, ghost done: seq<byte>)
      returns (copied: nat)
      requires Valid() && first <= last <= |blocks| && at == |done|
      requires at + |Flat(blocks[first..last])| <= out.Length == |original|
      requires out[..] == Overwritten(original, 0, done)
      modifies out
      ensures copied == at + |Flat(blocks[first..last])|
      ensures out[..] == Overwritten(original, 0, done + Flat(blocks[first..last]))
    {
      copied := at;
      var it := first;
      ghost var written := done;
      while it != last
        invariant first <= it <= last && copied == |written|
        invariant written == done + Flat(blocks[first..it])
        invariant copied + |Flat(blocks[it..last])| <= out.Length
        invariant out[..] == Overwritten(original, 0, written)
      {
        var data := Data(blocks[it]);
        MiddleStep(blocks, first, it, last);
        ConcatAssociates(done, Flat(blocks[first..it]), data);
        OverwriteNext(original, written, data);
        MemCopy(out, copied, data);
        written, copied := written + data, copied + |data|;
        it := it + 1;
      }
    }

    /** Removes `count` bytes from the head. If there are fewer, all of them go and the counter wraps. */
    method Trim(count: uint32)
      modifies this
      ensures Contents() == Behind(old(Contents()), count)
      ensures size == (old(size) - count) % WORD
      ensures old(Valid()) ==> (Valid() <==> count <= |old(Contents())|)
    {
      if size == |Contents()| {
        CountDown(Contents(), count);
      }
      size := (size - count) % WORD;
      TrimBlocks(count);
    }

    /** Drops whole blocks at the head, and the beginning of the one that is left. */
    method TrimBlocks(count: uint32)
      modifies this`blocks
      ensures Contents() == Behind(old(Contents()), count)
    {
      var left: uint32 := count;
      while blocks != [] && left > 0
        invariant Behind(Flat(blocks), left) == Behind(old(Contents()), count)
        decreases |blocks|, left
      {
        if left >= blocks[0].length {
          left := left - blocks[0].length;
          blocks := blocks[1..];
        } else {
          var trimmed := BlockInfo(blocks[0].buffer, blocks[0].start + left, blocks[0].length - left);
          assert Data(trimmed) == Data(blocks[0])[left..];
          assert blocks[0 := trimmed][1..] == blocks[1..];
          blocks := blocks[0 := trimmed];
          left := 0;
        }
      }
    }

    /** Moves `count` bytes from the head into the caller's buffer, or fails without effect. */
    method Pop(out: array<byte>, count: uint32) returns (ok: bool)
      requires Valid() && count <= out.Length
      modifies this, out
      ensures Valid() && ok == (0 < count <= |old(Contents())|)
      ensures Contents() == if ok then old(Contents())[count..] else old(Contents())
      ensures out[..] == if ok then Overwritten(old(out[..]), 0, old(Contents())[..count]) else old(out[..])
    {
      ok := Peek(out, count);
      if ok {
        Trim(count);
      }
    }
  }

  /** What is left behind the first `count` bytes. */
  function Behind(bytes: seq<byte>, count: nat): seq<byte> {
    if count <= |bytes| then bytes[count..] else []
  }

  lemma CountDown(held: seq<byte>, count: uint32)
    requires |held| < WORD
    ensures (|held| - count) % WORD == |Behind(held, count)| <==> count <= |held|
  {
    if count > |held| {
      assert (|held| - count) % WORD == |held| - count + WORD;
    }
  }

  predicate IsSpan(blocks: seq<Block>, start: nat, startOffset: nat, last: nat, endOffset: nat) {
    start <= last < |blocks| && startOffset <= blocks[start].length && endOffset <= blocks[last].length
    && (start == last ==> startOffset <= endOffset)
  }

  /** The bytes from an offset in block `start` up to an offset in block `last`. */
  function Span(blocks: seq<Block>, start: nat, startOffset: nat, last: nat, endOffset: nat): seq<byte>
    requires IsSpan(blocks, start, startOffset, last, endOffset)
  {
    if start == last then Data(blocks[start])[startOffset..endOffset]
    else Data(blocks[start])[startOffset..] + Flat(blocks[start + 1..last]) + Data(blocks[last])[..endOffset]
  }

  /** The block that covers byte `offset` does not come after one whose end lies beyond it. */
  lemma StartNotAfterLast(blocks: seq<Block>, start: nat, last: nat, offset: nat)
    requires start < |blocks| && last < |blocks|
    requires |Flat(blocks[..start])| <= offset < |Flat(blocks[..last])| + blocks[last].length
    ensures start <= last
  {
    if last < start {
      FlatAt(blocks, last);
      assert blocks[..start][..last + 1] == blocks[..last + 1];
      FlatSplit(blocks[..start], last + 1);
    }
  }

  lemma MiddleStep(blocks: seq<Block>, low: nat, it: nat, high: nat)
    requires low <= it < high <= |blocks|
    ensures Flat(blocks[low..it + 1]) == Flat(blocks[low..it]) + Data(blocks[it])
    ensures |Flat(blocks[it..high])| == blocks[it].length + |Flat(blocks[it + 1..high])|
  {
    FlatSnoc(blocks, low, it);
    assert blocks[it..high][1..] == blocks[it + 1..high];
  }

  lemma FlatThrough(blocks: seq<Block>, start: nat, last: nat)
    requires start < last < |blocks|
    ensures Flat(blocks[..last]) == Flat(blocks[..start]) + Data(blocks[start]) + Flat(blocks[start + 1..last])
  {
    FlatSnoc(blocks, 0, start);
    assert blocks[..last] == blocks[..start + 1] + blocks[start + 1..last];
    FlatConcat(blocks[..start + 1], blocks[start + 1..last]);
  }

  lemma SpanAcrossIsSlice(blocks: seq<Block>, start: nat, startOffset: nat, last: nat, endOffset: nat)
    requires IsSpan(blocks, start, startOffset, last, endOffset) && start < last
    requires |Flat(blocks[..last])| + endOffset <= |Flat(blocks)|
    ensures var from, to := |Flat(blocks[..start])| + startOffset, |Flat(blocks[..last])| + endOffset;
      from <= to && Flat(blocks)[from..to] == Span(blocks, start, startOffset, last, endOffset)
  {
    FlatAt(blocks, last);
    FlatThrough(blocks, start, last);
    SliceOfConcat(Flat(blocks[..start]), Data(blocks[start]), Flat(blocks[start + 1..last]), Data(blocks[last]),
                  Flat(blocks[last + 1..]), startOffset, endOffset);
  }

  /** A span over blocks is one slice of the flat byte sequence. */
  lemma SpanIsSlice(blocks: seq<Block>, start: nat, startOffset: nat, last: nat, endOffset: nat)
    requires IsSpan(blocks, start, startOffset, last, endOffset)
    ensures var from, to := |Flat(blocks[..start])| + startOffset, |Flat(blocks[..last])| + endOffset;
      from <= to <= |Flat(blocks)| && Flat(blocks)[from..to] == Span(blocks, start, startOffset, last, endOffset)
  {
    FlatAt(blocks, last);
    if start == last {
      SliceInMiddle(Flat(blocks[..last]), Data(blocks[last]), Flat(blocks[last + 1..]), startOffset, endOffset);
    } else {
      SpanAcrossIsSlice(blocks, start, startOffset, last, endOffset);
    }
  }

  lemma SliceInMiddle(before: seq<byte>, a: seq<byte>, after: seq<byte>, i: nat, j: nat)
    requires i <= j <= |a|
    ensures (before + a + after)[|before| + i..|before| + j] == a[i..j]
  {
  }

  lemma SliceOfConcat(before: seq<byte>, a: seq<byte>, b: seq<byte>, c: seq<byte>, after: seq<byte>, i: nat, j: nat)
    requires i <= |a| && j <= |c|
    ensures (before + a + b + c + after)[|before| + i..|before| + |a| + |b| + j] == a[i..] + b + c[..j]
  {
  }
}

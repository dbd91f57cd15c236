/**
 The circular bitstream buffer of the i.MX decoder: copying the chunks of a decode unit into it
 (src/video/imx.c), against the plain copy of the software decoder (src/video/sdl.c).
 */
module StreamBuffer {
  import opened CTypes

  const STREAM_BUF_SIZE := 0x200000

  function Concat(chunks: seq<seq<byte>>): seq<byte> {
    if chunks == [] then [] else Concat(chunks[..|chunks| - 1]) + chunks[|chunks| - 1]
  }

  /** The bytes of a chunk keep their order, after those of the chunks before it. */
  lemma {:induction false} ConcatAt(chunks: seq<seq<byte>>, c: nat, i: nat)
    requires c < |chunks| && i < |chunks[c]|
    ensures Before(chunks, c) + i < |Concat(chunks)| && Concat(chunks)[Before(chunks, c) + i] == chunks[c][i]
  {
    var front := chunks[..|chunks| - 1];
    ConcatLength(front);
    if c < |front| {
      ConcatAt(front, c, i);
      BeforeOfFront(chunks, c);
    } else {
      BeforeIsAll(chunks);
    }
  }

  /** The bytes in the chunks before one of them. */
  function Before(chunks: seq<seq<byte>>, c: nat): nat
    requires c <= |chunks|
  {
    if c == 0 then 0 else Before(chunks, c - 1) + |chunks[c - 1]|
  }

  lemma {:induction false} BeforeOfFront(chunks: seq<seq<byte>>, c: nat)
    requires c < |chunks|
    ensures Before(chunks[..|chunks| - 1], c) == Before(chunks, c)
  {
    if c > 0 { BeforeOfFront(chunks, c - 1); }
  }

  lemma BeforeIsAll(chunks: seq<seq<byte>>)
    requires chunks != []
    ensures Before(chunks, |chunks| - 1) == |Concat(chunks[..|chunks| - 1])|
  {
    ConcatLength(chunks[..|chunks| - 1]);
    BeforeOfFront(chunks, |chunks| - 1);
  }

  lemma {:induction false} ConcatLength(chunks: seq<seq<byte>>)
    ensures |Concat(chunks)| == Before(chunks, |chunks|)
  {
    if chunks != [] {
      ConcatLength(chunks[..|chunks| - 1]);
      BeforeOfFront(chunks, |chunks| - 1);
    }
  }

  /** The software decoder's copy: the chunks one after another from the start of the buffer. */
  method LinearCopy(buffer: array<byte>, chunks: seq<seq<byte>>) returns (length: nat)
    requires |Concat(chunks)| <= buffer.Length
    modifies buffer
    ensures length == |Concat(chunks)|
    ensures buffer[..length] == Concat(chunks)
    ensures buffer[length..] == old(buffer[length..])
  {
    length := 0;
    for c := 0 to |chunks|
      invariant length == |Concat(chunks[..c])| <= buffer.Length
      invariant buffer[..length] == Concat(chunks[..c])
      invariant buffer[length..] == old(buffer[length..])
    {
      var chunk := chunks[c];
      assert chunks[..c + 1][..c] == chunks[..c];
      ConcatPrefix(chunks, c + 1);
      forall i | 0 <= i < |chunk| {
        buffer[length + i] := chunk[i];
      }
      assert buffer[..length + |chunk|] == buffer[..length] + chunk;
      length := length + |chunk|;
    }
    assert chunks[..|chunks|] == chunks;
  }

  lemma {:induction false} ConcatPrefix(chunks: seq<seq<byte>>, c: nat)
    requires c <= |chunks|
    ensures |Concat(chunks[..c])| <= |Concat(chunks)|
    ensures Concat(chunks[..c]) <= Concat(chunks)
    decreases |chunks| - c
  {
    if c == |chunks| {
      assert chunks[..c] == chunks;
    } else {
      ConcatPrefix(chunks, c + 1);
      assert chunks[..c + 1][..c] == chunks[..c];
    }
  }

  /** The place `distance` bytes after `start` in a ring of `size` places; its end is its start. */
  function Place(size: nat, start: nat, distance: nat): (p: nat)
    requires start <= size && distance < size
    ensures p < size
  {
    if start + distance < size then start + distance else start + distance - size
  }

  /** A remainder is the number itself below the divisor, and does not change by taking the divisor off. */
  lemma OnceAround(n: nat, size: nat)
    requires size > 0
    ensures n < size ==> n % size == n
    ensures size <= n < 2 * size ==> n % size == n - size
    ensures size <= n ==> n % size == (n - size) % size
  {
    if size <= n {
      var q, r := (n - size) / size, (n - size) % size;
      assert n == size * (q + 1) + r;
      UniqueRemainder(n, size, q + 1, r);
    }
  }

  lemma UniqueRemainder(n: nat, size: nat, q: int, r: nat)
    requires r < size && n == size * q + r
    ensures n % size == r
  {
    var d := n / size - q;
    assert n == size * (n / size) + n % size;
    assert size * d == r - n % size;
    assert d >= 1 ==> size * d >= size;
    assert d <= -1 ==> size * d <= 0 - size;
  }

  /** The place is the one that counting on modulo the size gives. */
  lemma PlaceIsRemainder(size: nat, start: nat, distance: nat)
    requires start <= size && distance < size
    ensures Place(size, start, distance) == (start + distance) % size
  {
    OnceAround(start + distance, size);
  }

  /**
   The ring after `bytes` are written from `start`: place by place, the byte at its distance from
   the start, and the old content beyond the end of the bytes.
   */
  ghost predicate Written(before: seq<byte>, start: nat, bytes: seq<byte>, after: seq<byte>)
    requires start <= |before| && |bytes| <= |before|
  {
    && |after| == |before|
    && (forall d :: 0 <= d < |bytes| ==> after[Place(|before|, start, d)] == bytes[d])
    && (forall d :: |bytes| <= d < |before| ==> after[Place(|before|, start, d)] == before[Place(|before|, start, d)])
  }

  /** What `Written` says determines every byte of the ring. */
  lemma WrittenDetermines(before: seq<byte>, start: nat, bytes: seq<byte>, a: seq<byte>, b: seq<byte>)
    requires start <= |before| && |bytes| <= |before|
    requires Written(before, start, bytes, a) && Written(before, start, bytes, b)
    ensures a == b
  {
    forall p | 0 <= p < |before| ensures a[p] == b[p] {
      var d: nat := if start <= p then p - start else p + |before| - start;
      assert Place(|before|, start, d) == p;
    }
  }

  /** Byte by byte: counting on from the start modulo the size, first the bytes, then the old content. */
  lemma WrittenAt(before: seq<byte>, start: nat, bytes: seq<byte>, after: seq<byte>, d: nat)
    requires start <= |before| && |bytes| <= |before| && Written(before, start, bytes, after)
    requires d < |before|
    ensures after[(start + d) % |before|] == if d < |bytes| then bytes[d] else before[(start + d) % |before|]
  {
    PlaceIsRemainder(|before|, start, d);
  }

  /** What a reader that starts at `start` finds in the next `length` places. */
  function ReadRing(ring: seq<byte>, start: nat, length: nat): (r: seq<byte>)
    requires start <= |ring| && length <= |ring|
    ensures |r| == length
  {
    seq(length, d requires 0 <= d < length => ring[Place(|ring|, start, d)])
  }

  /** The whole ring, oldest byte first, for a writer that has come to `end`. */
  function Window(ring: seq<byte>, end: nat): (w: seq<byte>)
    requires end <= |ring|
    ensures |w| == |ring|
  {
    ReadRing(ring, end, |ring|)
  }

  /** The end of a stretch of places. */
  ghost predicate Ends(size: nat, start: nat, length: nat, end: nat) {
    end <= size && size > 0 && end % size == (start + length) % size
  }

  /** Where places counted from the end are places counted from the start. */
  lemma PlacesFromEnd(size: nat, start: nat, length: nat, end: nat, d: nat)
    requires start <= size && length <= size && d < size && Ends(size, start, length, end)
    ensures Place(size, end, d) == Place(size, start, if d < size - length then d + length else d - (size - length))
  {
    EndIsOnceAround(size, start, length, end);
  }

  lemma EndIsOnceAround(size: nat, start: nat, length: nat, end: nat)
    requires start <= size && length <= size && Ends(size, start, length, end)
    ensures start + length - end == 0 || start + length - end == size || start + length - end == 2 * size
         || end - (start + length) == size
  {
    OnceAround(size, size);
    OnceAround(end, size);
    OnceAround(start + length, size);
  }

  lemma WindowAtRemainder(ring: seq<byte>, end: nat)
    requires end <= |ring| && |ring| > 0
    ensures Window(ring, end) == Window(ring, end % |ring|)
  {
    OnceAround(end, |ring|);
  }

  /** Writing pushes the bytes into the window, and as many of the oldest out of it. */
  lemma WrittenMovesWindow(before: seq<byte>, start: nat, bytes: seq<byte>, after: seq<byte>, end: nat)
    requires start <= |before| && |bytes| <= |before| && Written(before, start, bytes, after)
    requires Ends(|before|, start, |bytes|, end)
    ensures Window(after, end) == (Window(before, start) + bytes)[|bytes|..]
  {
    forall d | 0 <= d < |before| ensures Window(after, end)[d] == (Window(before, start) + bytes)[|bytes|..][d] {
      PlacesFromEnd(|before|, start, |bytes|, end, d);
    }
  }

  /** So does a write that is split at the end of the ring. */
  lemma SplitMovesWindow(before: seq<byte>, start: nat, bytes: seq<byte>, mid: seq<byte>, after: seq<byte>)
    requires start <= |before| == |mid| && 0 < |bytes| - (|before| - start) <= |before|
    requires Written(before, start, bytes[..|before| - start], mid)
    requires Written(mid, 0, bytes[|before| - start..], after)
    ensures Window(after, |bytes| - (|before| - start)) == (Window(before, start) + bytes)[|bytes|..]
  {
    var n, room := |before|, |before| - start;
    OnceAround(n, n);
    WrittenMovesWindow(before, start, bytes[..room], mid, n);
    WindowAtRemainder(mid, n);
    OnceAround(|bytes| - room, n);
    WrittenMovesWindow(mid, 0, bytes[room..], after, |bytes| - room);
    PushMore(Window(before, start), bytes[..room], bytes[room..]);
    assert bytes[..room] + bytes[room..] == bytes;
  }

  /** A window that was moved by no more bytes than the ring has tells how the ring was written. */
  lemma MovedWindowIsWritten(before: seq<byte>, start: nat, bytes: seq<byte>, after: seq<byte>, end: nat)
    requires start <= |before| == |after| && |bytes| <= |before|
    requires Ends(|before|, start, |bytes|, end)
    requires Window(after, end) == (Window(before, start) + bytes)[|bytes|..]
    ensures Written(before, start, bytes, after)
  {
    var n, length := |before|, |bytes|;
    forall d | 0 <= d < n
      ensures after[Place(n, start, d)] == if d < length then bytes[d] else before[Place(n, start, d)]
    {
      var e := if d < length then d + n - length else d - length;
      PlacesFromEnd(n, start, length, end, e);
      assert Window(after, end)[e] == (Window(before, start) + bytes)[length + e];
    }
  }

  /** `memcpy` into the buffer. */
  method Copy(buffer: array<byte>, at: nat, bytes: seq<byte>)
    requires at + |bytes| <= buffer.Length
    modifies buffer
    ensures forall i :: 0 <= i < buffer.Length ==>
      buffer[i] == if at <= i < at + |bytes| then bytes[i - at] else old(buffer[i])
  {
    forall i | 0 <= i < |bytes| {
      buffer[at + i] := bytes[i];
    }
  }

  /** Where the target is after a chunk that was written at `target`. */
  function Next(size: nat, target: nat, length: nat): (next: int)
    requires target <= size
  {
    if target + length > size then length - (size - target) else target + length
  }

  /** A chunk that fits exactly leaves the target on the end itself; one that does not starts over. */
  lemma NextExactly(size: nat, target: nat, length: nat)
    requires target <= size
    ensures length <= size - target ==> Next(size, target, length) == target + length
    ensures length > size - target ==> Next(size, target, length) == target + length - size
  {
  }

  /** And after some chunks, while none of them leaves the buffer. */
  function TargetAfter(size: nat, start: nat, chunks: seq<seq<byte>>): (target: nat)
    requires start <= size && Inside(size, start, chunks)
    ensures target <= size
    decreases |chunks|, 1
  {
    if chunks == [] then start
    else Next(size, TargetAfter(size, start, chunks[..|chunks| - 1]), |chunks[|chunks| - 1]|)
  }

  /** No write leaves the buffer: the part of a chunk that goes to its start is no longer than the buffer. */
  predicate Inside(size: nat, start: nat, chunks: seq<seq<byte>>)
    requires start <= size
    decreases |chunks|, 0
  {
    chunks == []
    || (Inside(size, start, chunks[..|chunks| - 1])
        && Next(size, TargetAfter(size, start, chunks[..|chunks| - 1]), |chunks[|chunks| - 1]|) <= size)
  }

  lemma {:induction false} InsideFront(size: nat, start: nat, chunks: seq<seq<byte>>, c: nat)
    requires start <= size && c <= |chunks| && Inside(size, start, chunks)
    ensures Inside(size, start, chunks[..c])
    decreases |chunks|
  {
    if c == |chunks| {
      assert chunks[..c] == chunks;
    } else {
      InsideFront(size, start, chunks[..|chunks| - 1], c);
      assert chunks[..|chunks| - 1][..c] == chunks[..c];
    }
  }

  /** One more chunk stays inside exactly if it is no longer than the room before the end and the buffer together. */
  lemma StaysInsideExactly(size: nat, start: nat, chunks: seq<seq<byte>>, chunk: seq<byte>)
    requires start <= size
    ensures Inside(size, start, [])
    ensures Inside(size, start, chunks + [chunk])
       <==> Inside(size, start, chunks) && |chunk| <= size - TargetAfter(size, start, chunks) + size
  {
    assert (chunks + [chunk])[..|chunks|] == chunks;
  }

  /** Chunks no longer than the buffer always stay inside, however many there are. */
  lemma {:induction false} ShortChunksStayInside(size: nat, start: nat, chunks: seq<seq<byte>>)
    requires start <= size && forall chunk :: chunk in chunks ==> |chunk| <= size
    ensures Inside(size, start, chunks)
    decreases |chunks|
  {
    if chunks != [] {
      ShortChunksStayInside(size, start, chunks[..|chunks| - 1]);
      assert chunks[|chunks| - 1] in chunks;
    }
  }

  /** One chunk, split if it does not fit before the end of the buffer. */
  method CopyChunk(ring: array<byte>, target: nat, chunk: seq<byte>) returns (next: nat)
    requires target <= ring.Length && ring.Length > 0 && Next(ring.Length, target, |chunk|) <= ring.Length
    modifies ring
    ensures next == Next(ring.Length, target, |chunk|)
    ensures Ends(ring.Length, target, |chunk|, next)
    ensures Window(ring[..], next) == (Window(old(ring[..]), target) + chunk)[|chunk|..]
  {
    var n := ring.Length;
    ghost var before := ring[..];
    OnceAround(target + |chunk|, n);
    if target + |chunk| > n {
      var room := n - target;
      Copy(ring, target, chunk[..room]);
      ghost var mid := ring[..];
      Copy(ring, 0, chunk[room..]);
      next := |chunk| - room;
      SplitMovesWindow(before, target, chunk, mid, ring[..]);
    } else {
      Copy(ring, target, chunk);
      next := target + |chunk|;
      WrittenMovesWindow(before, target, chunk, ring[..], next);
    }
  }

  /**
   The decoder's copy: chunk after chunk. A chunk that fits exactly leaves the target on the end itself.
   Whatever the length of the unit, the ring holds the last bytes that were written to it; a unit that is
   no longer than the ring is there as a whole, and every other byte is the old one.
   */
  method RingCopy(ring: array<byte>, start: nat, chunks: seq<seq<byte>>) returns (target: nat)
    requires ring.Length == STREAM_BUF_SIZE && start <= ring.Length
    requires Inside(ring.Length, start, chunks)
    modifies ring
    ensures target == TargetAfter(ring.Length, start, chunks)
    ensures Ends(ring.Length, start, |Concat(chunks)|, target)
    ensures Window(ring[..], target) == (Window(old(ring[..]), start) + Concat(chunks))[|Concat(chunks)|..]
    ensures |Concat(chunks)| <= ring.Length ==>
      && Written(old(ring[..]), start, Concat(chunks), ring[..])
      && ReadRing(ring[..], start, |Concat(chunks)|) == Concat(chunks)
      && forall d :: 0 <= d < |Concat(chunks)| ==> ring[(start + d) % STREAM_BUF_SIZE] == Concat(chunks)[d]
  {
    target := start;
    ghost var before := ring[..];
    for c := 0 to |chunks|
      invariant Inside(ring.Length, start, chunks[..c]) && target == TargetAfter(ring.Length, start, chunks[..c])
      invariant Ends(ring.Length, start, |Concat(chunks[..c])|, target)
      invariant Window(ring[..], target)
             == (Window(before, start) + Concat(chunks[..c]))[|Concat(chunks[..c])|..]
    {
      ghost var done, from := Concat(chunks[..c]), target;
      assert chunks[..c + 1][..c] == chunks[..c];
      InsideFront(ring.Length, start, chunks, c + 1);
      target := CopyChunk(ring, target, chunks[c]);
      EndsExtend(ring.Length, start, |done|, from, |chunks[c]|, target);
      PushMore(Window(before, start), done, chunks[c]);
    }
    assert chunks[..|chunks|] == chunks;
    if |Concat(chunks)| <= ring.Length {
      MovedWindowIsWritten(before, start, Concat(chunks), ring[..], target);
      forall d | 0 <= d < |Concat(chunks)| ensures ring[(start + d) % STREAM_BUF_SIZE] == Concat(chunks)[d] {
        WrittenAt(before, start, Concat(chunks), ring[..], d);
      }
    }
  }

  lemma EndsExtend(size: nat, start: nat, length: nat, from: nat, more: nat, next: nat)
    requires Ends(size, start, length, from) && Ends(size, from, more, next)
    ensures Ends(size, start, length + more, next)
  {
    SameRemainder(from, start + length, more, size);
  }

  lemma SameRemainder(a: nat, b: nat, more: nat, size: nat)
    requires size > 0 && a % size == b % size
    ensures (a + more) % size == (b + more) % size
  {
    var k, q, r := b / size - a / size, (a + more) / size, (a + more) % size;
    assert b == a + size * k;
    assert a + more == size * q + r;
    assert size * (q + k) == size * q + size * k;
    UniqueRemainder(b + more, size, q + k, r);
  }

  lemma PushMore(window: seq<byte>, done: seq<byte>, chunk: seq<byte>)
    ensures ((window + done)[|done|..] + chunk)[|chunk|..] == (window + (done + chunk))[|done + chunk|..]
  {
  }

  // ---- a queue of bytes ----

  /** Reading the ring from where it was written gives what the plain copy holds. */
  lemma RingHoldsLinearCopy(before: seq<byte>, start: nat, bytes: seq<byte>, after: seq<byte>)
    requires start <= |before| && |bytes| <= |before| && Written(before, start, bytes, after)
    ensures ReadRing(after, start, |bytes|) == bytes
  {
  }

  /** The buffer between this code, which writes decode units, and the decoder, which consumes bytes. */
  class Bitstream {
    const ring: array<byte>
    var readOffset: nat
    var unread: nat

    ghost predicate Valid()
      reads this
    {
      ring.Length == STREAM_BUF_SIZE && readOffset < ring.Length && unread <= ring.Length
    }

    /** The bytes that the decoder has not consumed yet, oldest first. */
    ghost function Contents(): seq<byte>
      requires Valid()
      reads this, ring
    {
      ReadRing(ring[..], readOffset, unread)
    }

    constructor ()
      ensures Valid() && Contents() == [] && fresh(ring)
      ensures ring.Length == 2 * 1024 * 1024 && readOffset == 0
    {
      ring := new byte[STREAM_BUF_SIZE](_ => 0);
      readOffset, unread := 0, 0;
    }

    function WriteOffset(): nat
      requires Valid()
      reads this
    {
      (readOffset + unread) % STREAM_BUF_SIZE
    }

    /** The decoder takes bytes from the front. */
    method Consume(n: nat)
      requires Valid() && n <= unread
      modifies this
      ensures Valid() && Contents() == old(Contents())[n..]
    {
      OnceAround(readOffset + n, ring.Length);
      readOffset := (readOffset + n) % STREAM_BUF_SIZE;
      unread := unread - n;
    }

    /**
     A decode unit that is no longer than the room left is appended whole. When the decoder reports less
     space than the unit needs, that is noticed but the unit is copied all the same: where there is not
     the room, its last bytes replace the oldest unread ones, and of a unit longer than the buffer nothing
     but its own last bytes remains.
     */
    method Submit(chunks: seq<seq<byte>>, fullLength: nat, space: nat) returns (noticed: bool)
      requires Valid() && fullLength == |Concat(chunks)|
      requires Inside(STREAM_BUF_SIZE, WriteOffset(), chunks)
      requires space <= STREAM_BUF_SIZE - unread
      modifies this, ring
      ensures Valid()
      ensures noticed <==> space < fullLength
      ensures fullLength <= STREAM_BUF_SIZE - old(unread) ==> Contents() == old(Contents()) + Concat(chunks)
      ensures STREAM_BUF_SIZE - old(unread) < fullLength <= STREAM_BUF_SIZE ==>
        var free := STREAM_BUF_SIZE - old(unread);
        noticed && Contents() == Concat(chunks)[free..] + old(Contents())[fullLength - free..]
      ensures fullLength > STREAM_BUF_SIZE ==>
        noticed && Window(ring[..], (old(WriteOffset()) + fullLength) % STREAM_BUF_SIZE)
                   == Concat(chunks)[fullLength - STREAM_BUF_SIZE..]
    {
      ghost var before := ring[..];
      noticed := space < fullLength;
      var target := RingCopy(ring, WriteOffset(), chunks);
      ghost var after := ring[..];
      if fullLength <= STREAM_BUF_SIZE {
        AppendedRing(before, readOffset, unread, Concat(chunks), after);
      } else {
        WindowAtRemainder(after, target);
      }
      if fullLength <= STREAM_BUF_SIZE - unread {
        unread := unread + fullLength;
      }
      assert Contents() == ReadRing(after, readOffset, unread);
    }
  }

  lemma AppendedRing(before: seq<byte>, rd: nat, unread: nat, bytes: seq<byte>, after: seq<byte>)
    requires |before| == STREAM_BUF_SIZE && rd < |before| && unread <= |before| && |bytes| <= |before|
    requires Written(before, (rd + unread) % STREAM_BUF_SIZE, bytes, after)
    ensures unread + |bytes| <= |before| ==>
      ReadRing(after, rd, unread + |bytes|) == ReadRing(before, rd, unread) + bytes
    ensures unread + |bytes| > |before| ==>
      var free := |before| - unread;
      ReadRing(after, rd, unread) == bytes[free..] + ReadRing(before, rd, unread)[|bytes| - free..]
  {
    var n, start := |before|, (rd + unread) % STREAM_BUF_SIZE;
    OnceAround(rd + unread, n);
    forall d | 0 <= d < n
      ensures Place(n, rd, d) == Place(n, start, if d < unread then d + n - unread else d - unread)
    {
    }
  }
}

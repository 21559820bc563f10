/**
 * The fixed-capacity record buffer (kernel/src/tls/buffer.rs): a byte array
 * with a used region [head, tail) and a free region [tail, capacity).
 *
 * `BufferView` is the value of a buffer; the functions on it specify each
 * operation, and the class `TlsBuffer` implements them in place.
 */
module Buffer {
  import opened Base
  import opened Constant
  import opened Error

  datatype BufferView = BufferView(bytes: seq<byte>, head: nat, tail: nat)

  /** The buffer invariant 0 <= head <= tail <= capacity. */
  predicate WellFormed(b: BufferView) {
    b.head <= b.tail <= |b.bytes|
  }

  /** The used region: bytes committed and not yet discarded. */
  function Used(b: BufferView): seq<byte>
    requires WellFormed(b)
  {
    b.bytes[b.head..b.tail]
  }

  /** Size of the free region after `tail`. */
  function FreeSpace(b: BufferView): nat
    requires WellFormed(b)
  {
    |b.bytes| - b.tail
  }

  /** A buffer after an operation, with the operation's result. */
  datatype Outcome = Outcome(buffer: BufferView, result: Result<(), TlsError>)

  /** `TlsBuffer::new(size)`: zero-filled storage, both cursors at 0. */
  function Empty(size: nat): (b: BufferView)
    ensures WellFormed(b) && |b.bytes| == size && Used(b) == [] && FreeSpace(b) == size
  {
    BufferView(seq(size, _ => 0), 0, 0)
  }

  /** `advance_used(n)`: commit the next `n` free bytes to the used region. */
  function Advanced(b: BufferView, n: nat): (o: Outcome)
    requires WellFormed(b)
    ensures WellFormed(o.buffer) && o.buffer.bytes == b.bytes && o.buffer.head == b.head
    ensures o.result.Ok? <==> n <= FreeSpace(b)
    ensures o.result.Ok? ==> Used(o.buffer) == Used(b) + b.bytes[b.tail..b.tail + n]
    ensures o.result.Err? ==> o.buffer == b && o.result.error == BufferTooSmall
  {
    if b.tail + n > |b.bytes| then Outcome(b, Err(BufferTooSmall))
    else Outcome(b.(tail := b.tail + n), Ok(()))
  }

  /** `move_head(n)`: discard `n` bytes from the front of the used region, never past `tail`. */
  function HeadMoved(b: BufferView, n: nat): (r: BufferView)
    requires WellFormed(b)
    ensures WellFormed(r) && r.bytes == b.bytes && r.tail == b.tail
    ensures Used(r) == Used(b)[Min(n, |Used(b)|)..]
  {
    var h := b.head + n;
    b.(head := if h > b.tail then b.tail else h)
  }

  /** `reset_used()`: empty the used region; the stored bytes are not cleared. */
  function Reset(b: BufferView): (r: BufferView)
    ensures WellFormed(r) && r.bytes == b.bytes && Used(r) == [] && FreeSpace(r) == |b.bytes|
  {
    b.(head := 0, tail := 0)
  }

  /**
   * `compact()`: move the used region to offset 0 (as `copy_within` does:
   * the bytes after the moved region are left as they were).
   */
  function Compacted(b: BufferView): (r: BufferView)
    requires WellFormed(b)
    ensures WellFormed(r) && |r.bytes| == |b.bytes|
    ensures r.head == 0 && r.tail == b.tail - b.head && Used(r) == Used(b)
    ensures FreeSpace(r) == |b.bytes| - |Used(b)|
  {
    if b.head == 0 then b
    else BufferView(b.bytes[b.head..b.tail] + b.bytes[b.tail - b.head..], 0, b.tail - b.head)
  }

  /**
   * `ensure_space(needed)`: make `needed` free bytes available after `tail`,
   * compacting only when the free region is too small.
   */
  function SpaceEnsured(b: BufferView, needed: nat): (o: Outcome)
    requires WellFormed(b)
    ensures WellFormed(o.buffer) && |o.buffer.bytes| == |b.bytes| && Used(o.buffer) == Used(b)
    ensures o.result.Ok? <==> |b.bytes| - |Used(b)| >= needed
    ensures o.result.Ok? ==> FreeSpace(o.buffer) >= needed
    ensures o.result.Err? ==> o.result.error == BufferTooSmall
    ensures FreeSpace(b) >= needed ==> o.buffer == b
    ensures FreeSpace(b) < needed ==> o.buffer == Compacted(b)
  {
    if FreeSpace(b) >= needed then Outcome(b, Ok(()))
    else
      var c := Compacted(b);
      if FreeSpace(c) < needed then Outcome(c, Err(BufferTooSmall)) else Outcome(c, Ok(()))
  }

  /**
   * A foreign writer (the transport's `read`, the engine's `encode`) fills the
   * first `|data|` bytes of the free region handed out by
   * `remaining_buf_as_mut` or `mutable_slice_from_remaining`.
   */
  function Filled(b: BufferView, data: seq<byte>): (r: BufferView)
    requires WellFormed(b) && |data| <= FreeSpace(b)
    ensures WellFormed(r) && |r.bytes| == |b.bytes| && r.head == b.head && r.tail == b.tail
    ensures Used(r) == Used(b) && r.bytes[b.tail..b.tail + |data|] == data
  {
    b.(bytes := b.bytes[..b.tail] + data + b.bytes[b.tail + |data|..])
  }

  /** Compaction never happens when the free region already suffices. */
  lemma NoNeedlessCompaction(b: BufferView, needed: nat)
    requires WellFormed(b) && FreeSpace(b) >= needed
    ensures SpaceEnsured(b, needed) == Outcome(b, Ok(()))
  {
  }

  /**
   * When the free region is too small, the used region is relocated to
   * offset 0 whether or not `ensure_space` then succeeds.
   */
  lemma CompactionBeforeFailure(b: BufferView, needed: nat)
    requires WellFormed(b) && FreeSpace(b) < needed
    ensures var o := SpaceEnsured(b, needed);
      o.buffer.head == 0 && o.buffer.tail == b.tail - b.head && Used(o.buffer) == Used(b)
  {
  }

  /** The invariant and the capacity survive every sequence of operations. */
  lemma OperationsKeepInvariant(b: BufferView, n: nat, data: seq<byte>)
    requires WellFormed(b) && |data| <= FreeSpace(b)
    ensures WellFormed(Advanced(b, n).buffer) && |Advanced(b, n).buffer.bytes| == |b.bytes|
    ensures WellFormed(HeadMoved(b, n)) && |HeadMoved(b, n).bytes| == |b.bytes|
    ensures WellFormed(Reset(b)) && |Reset(b).bytes| == |b.bytes|
    ensures WellFormed(SpaceEnsured(b, n).buffer) && |SpaceEnsured(b, n).buffer.bytes| == |b.bytes|
    ensures WellFormed(Filled(b, data)) && |Filled(b, data).bytes| == |b.bytes|
  {
  }

  /** A fixed-capacity byte buffer updated in place. */
  class TlsBuffer {
    const buf: array<byte>
    var head: nat
    var tail: nat

    ghost predicate Valid()
      reads this
    {
      head <= tail <= buf.Length
    }

    /** The buffer as a value. */
    function View(): (v: BufferView)
      reads this, buf
      ensures |v.bytes| == buf.Length && v.head == head && v.tail == tail
    {
      BufferView(buf[..], head, tail)
    }

    constructor (size: nat)
      ensures Valid() && fresh(buf) && View() == Empty(size)
    {
      buf := new byte[size](_ => 0);
      head, tail := 0, 0;
    }

    /** `curr_used_buf_as_ref` / `curr_used_buf_as_mut`: the used region. */
    function CurrUsedBuf(): (s: seq<byte>)
      reads this, buf
      requires Valid()
      ensures |s| == tail - head && s == Used(View())
    {
      buf[head..tail]
    }

    /** `remaining_buf_as_mut`: the whole free region. */
    function RemainingBuf(): (s: seq<byte>)
      reads this, buf
      requires Valid()
      ensures |s| == FreeSpace(View()) && View().bytes == View().bytes[..tail] + s
    {
      buf[tail..]
    }

    /**
     * `mutable_slice_from_remaining(size)`: the bounds [start, end) of the
     * first `size` free bytes, if there are that many.
     */
    function MutableSliceFromRemaining(size: nat): (r: Result<(nat, nat), TlsError>)
      reads this
      requires Valid()
      ensures r.Ok? <==> size <= FreeSpace(View())
      ensures r.Ok? ==> r.value.0 == tail && r.value.1 - r.value.0 == size && r.value.1 <= buf.Length
      ensures r.Err? ==> r.error == BufferTooSmall
    {
      if tail + size > buf.Length then Err(BufferTooSmall) else Ok((tail, tail + size))
    }

    /**
     * `extract_record_len_from_current_position`: peek at the length field of
     * a record header written at `tail`, before the header is committed.
     */
    function ExtractRecordLenFromCurrentPosition(): (r: Result<nat, TlsError>)
      reads this, buf
      requires Valid()
      ensures r.Ok? <==> tail + HEADER_LEN <= buf.Length
      ensures r.Ok? ==> r.value == RecordLength(buf[tail..tail + HEADER_LEN]) && r.value < 0x1_0000
      ensures r.Err? ==> r.error == BufferTooSmall
    {
      if tail + HEADER_LEN > buf.Length then Err(BufferTooSmall)
      else Ok((buf[tail + SECOND_LEN_BYTE_POS] as nat) * 256 + buf[tail + FIRST_LEN_BYTE_POS] as nat)
    }

    method AdvanceUsed(n: nat) returns (r: Result<(), TlsError>)
      requires Valid()
      modifies this
      ensures Valid() && Outcome(View(), r) == Advanced(old(View()), n)
    {
      if tail + n > buf.Length {
        return Err(BufferTooSmall);
      }
      tail := tail + n;
      return Ok(());
    }

    method ResetUsed()
      requires Valid()
      modifies this
      ensures Valid() && View() == Reset(old(View()))
    {
      head := 0;
      tail := 0;
    }

    method EnsureSpace(needed: nat) returns (r: Result<(), TlsError>)
      requires Valid()
      modifies this, buf
      ensures Valid() && Outcome(View(), r) == SpaceEnsured(old(View()), needed)
    {
      var remainingSpace := buf.Length - tail;
      if remainingSpace >= needed {
        return Ok(());
      }
      Compact();
      var remainingSpaceAfterCompact := buf.Length - tail;
      if remainingSpaceAfterCompact < needed {
        return Err(BufferTooSmall);
      }
      return Ok(());
    }

    method MoveHead(n: nat)
      requires Valid()
      modifies this
      ensures Valid() && View() == HeadMoved(old(View()), n)
    {
      head := head + n;
      if head > tail {
        head := tail;
      }
    }

    method Compact()
      requires Valid()
      modifies this, buf
      ensures Valid() && View() == Compacted(old(View()))
    {
      if head == 0 {
        return;
      }
      var h, n := head, tail - head;
      var i := 0;
      while i < n
        invariant 0 <= i <= n && h == head && n == tail - head
        invariant forall j :: 0 <= j < i ==> buf[j] == old(buf[h + j])
        invariant forall j :: i <= j < buf.Length ==> buf[j] == old(buf[j])
      {
        buf[i] := buf[h + i];
        i := i + 1;
      }
      ghost var was := old(View());
      assert buf[..] == was.bytes[was.head..was.tail] + was.bytes[was.tail - was.head..];
      tail := tail - head;
      head := 0;
    }

    /** The foreign writer's side of `remaining_buf_as_mut`: fill the free region's first bytes. */
    method FillRemaining(data: seq<byte>)
      requires Valid() && tail + |data| <= buf.Length
      modifies buf
      ensures Valid() && View() == Filled(old(View()), data)
    {
      var i := 0;
      while i < |data|
        invariant 0 <= i <= |data|
        invariant forall j :: 0 <= j < buf.Length && !(tail <= j < tail + i) ==> buf[j] == old(buf[j])
        invariant forall j :: 0 <= j < i ==> buf[tail + j] == data[j]
      {
        buf[tail + i] := data[i];
        i := i + 1;
      }
      ghost var was := old(View());
      assert buf[..] == was.bytes[..tail] + data + was.bytes[tail + |data|..];
    }
  }
}

/** The flat byte buffer behind the message slots of a queue. */
module QueueBuffers {
  import opened Rings

  lemma {:induction false} SlotFits(len: nat, size: nat, i: nat)
    requires i < len
    ensures i * size + size <= len * size
  {
    assert (i + 1) * size <= len * size;
  }

  /** Slot `i` of a buffer of `len` slots. */
  function SlotAt(b: seq<Byte>, len: nat, size: nat, i: nat): (slot: seq<Byte>)
    requires |b| == len * size && i < len
    ensures |slot| == size
  {
    SlotFits(len, size, i);
    b[i * size..i * size + size]
  }

  function Slots(b: seq<Byte>, len: nat, size: nat): (s: seq<seq<Byte>>)
    requires |b| == len * size
    ensures |s| == len
  {
    seq(len, i requires 0 <= i < len => SlotAt(b, len, size, i))
  }

  /** `data` copied over the bytes from `off` on. */
  function Blit(b: seq<Byte>, off: nat, data: seq<Byte>): (r: seq<Byte>)
    requires off + |data| <= |b|
    ensures |r| == |b|
  {
    b[..off] + data + b[off + |data|..]
  }

  lemma {:induction false} BlitInside(b: seq<Byte>, lo: nat, hi: nat, off: nat, data: seq<Byte>)
    requires lo <= off && off + |data| <= hi <= |b|
    ensures Blit(b, off, data)[lo..hi] == Blit(b[lo..hi], off - lo, data)
  {
  }

  lemma {:induction false} BlitOutside(b: seq<Byte>, lo: nat, hi: nat, off: nat, data: seq<Byte>)
    requires off + |data| <= |b| && lo <= hi <= |b| && (hi <= off || off + |data| <= lo)
    ensures Blit(b, off, data)[lo..hi] == b[lo..hi]
  {
  }

  lemma {:induction false} SlotsApart(size: nat, i: nat, j: nat)
    requires i < j
    ensures i * size + size <= j * size
  {
    assert (i + 1) * size <= j * size;
  }

  lemma {:induction false} BlitSlotAt(b: seq<Byte>, len: nat, size: nat, pos: nat, k: nat, data: seq<Byte>, i: nat)
    requires |b| == len * size && pos < len && k + |data| <= size && i < len
    ensures pos * size + k + |data| <= |b|
    ensures SlotAt(Blit(b, pos * size + k, data), len, size, i) ==
              if i == pos then Blit(SlotAt(b, len, size, pos), k, data) else SlotAt(b, len, size, i)
  {
    hide Blit;
    SlotFits(len, size, pos);
    SlotFits(len, size, i);
    var off, lo := pos * size + k, i * size;
    if i == pos {
      BlitInside(b, lo, lo + size, off, data);
    } else {
      if i < pos {
        SlotsApart(size, i, pos);
      } else {
        SlotsApart(size, pos, i);
      }
      BlitOutside(b, lo, lo + size, off, data);
    }
  }

  /** Copying inside one slot changes that slot and no other. */
  lemma {:induction false} BlitSlot(b: seq<Byte>, len: nat, size: nat, pos: nat, k: nat, data: seq<Byte>)
    requires |b| == len * size && pos < len && k + |data| <= size
    ensures pos * size + k + |data| <= |b|
    ensures Slots(Blit(b, pos * size + k, data), len, size) == Slots(b, len, size)[pos := Blit(SlotAt(b, len, size, pos), k, data)]
  {
    hide Blit, SlotAt;
    SlotFits(len, size, pos);
    var r := Blit(b, pos * size + k, data);
    forall i: nat | i < len
      ensures SlotAt(r, len, size, i) == if i == pos then Blit(SlotAt(b, len, size, pos), k, data) else SlotAt(b, len, size, i)
    {
      BlitSlotAt(b, len, size, pos, k, data, i);
    }
  }

  /** The length word and then the bytes, as a copy write stores them. */
  lemma {:induction false} StoreIsBlits(slot: seq<Byte>, data: seq<Byte>)
    requires |data| + LENGTH_BYTES <= |slot| < 0x1_0000
    ensures Store(slot, data) == Blit(Blit(slot, |slot| - LENGTH_BYTES, Le32(|data|)), 0, data)
  {
  }

  lemma {:induction false} WriteIsStore(b: seq<Byte>, len: nat, size: nat, pos: nat, data: seq<Byte>)
    requires |b| == len * size && pos < len && |data| + LENGTH_BYTES <= size < 0x1_0000
    ensures pos * size + size <= |b|
    ensures var c := Blit(b, pos * size + size - LENGTH_BYTES, Le32(|data|));
      Slots(Blit(c, pos * size, data), len, size) == Slots(b, len, size)[pos := Store(Slots(b, len, size)[pos], data)]
  {
    SlotFits(len, size, pos);
    var off := pos * size + (size - LENGTH_BYTES);
    BlitSlot(b, len, size, pos, size - LENGTH_BYTES, Le32(|data|));
    var c := Blit(b, off, Le32(|data|));
    BlitSlot(c, len, size, pos, 0, data);
    StoreIsBlits(SlotAt(b, len, size, pos), data);
    assert SlotAt(c, len, size, pos) == Slots(c, len, size)[pos];
    hide Blit, Store, Le32;
  }

  /** memcpy_s into the buffer. */
  method CopyIn(buf: array<Byte>, off: nat, data: seq<Byte>)
    requires off + |data| <= buf.Length
    modifies buf
    ensures buf[..] == Blit(old(buf[..]), off, data)
  {
    for j := 0 to |data|
      invariant forall i :: 0 <= i < buf.Length ==>
                  buf[i] == if off <= i < off + j then data[i - off] else old(buf[i])
    {
      buf[off + j] := data[j];
    }
  }

  /** The copy of a read: the length word at the end of the slot says how much. */
  method ReadAt(buf: array<Byte>, node: nat, size: nat, room: nat) returns (out: seq<Byte>)
    requires node + size <= buf.Length && LENGTH_BYTES <= size
    requires FromLe32(buf[node..node + size][size - LENGTH_BYTES..]) <= size
    ensures out == Load(buf[node..node + size], room)
  {
    hide FromLe32;
    ghost var slot := buf[node..node + size];
    var n := FromLe32(buf[node + size - LENGTH_BYTES..node + size]);
    assert buf[node + size - LENGTH_BYTES..node + size] == slot[size - LENGTH_BYTES..];
    n := if room < n then room else n;
    out := buf[node..node + n];
    assert out == slot[..n];
  }

  /** The two copies of a write: the length word at the end of the slot, then the bytes. */
  method WriteAt(buf: array<Byte>, node: nat, size: nat, data: seq<Byte>)
    requires node + size <= buf.Length && |data| + LENGTH_BYTES <= size < 0x1_0000
    modifies buf
    ensures buf[..] == Blit(Blit(old(buf[..]), node + size - LENGTH_BYTES, Le32(|data|)), node, data)
  {
    hide Blit, Le32;
    CopyIn(buf, node + size - LENGTH_BYTES, Le32(|data|));
    CopyIn(buf, node, data);
  }

  /** The buffer, its geometry and the two positions. */
  class QueueBuffer {
    const buf: array<Byte>  // queueHandle
    const len: nat          // queueLen
    const size: nat         // queueSize
    var head: nat
    var tail: nat

    ghost predicate Valid()
      reads this, buf
    {
      buf.Length == len * size && RingOk(Ring(Slots(buf[..], len, size), size, head, tail))
    }

    ghost function Content(): (q: Ring)
      requires Valid()
      reads this, buf
      ensures RingOk(q)
    {
      Ring(Slots(buf[..], len, size), size, head, tail)
    }

    /** OsQueueCreate: `len` slots of the message size and a length word. */
    constructor (len: nat, maxMsgSize: nat)
      requires 0 < len && 0 < maxMsgSize && maxMsgSize + LENGTH_BYTES < 0x1_0000
      ensures Valid() && fresh(buf) && this.len == len && size == maxMsgSize + LENGTH_BYTES && Holds(Content(), [])
    {
      this.len := len;
      size := maxMsgSize + LENGTH_BYTES;
      buf := new Byte[len * (maxMsgSize + LENGTH_BYTES)];
      head, tail := 0, 0;
    }

    /** The copy into a slot. */
    method Write(pos: nat, data: seq<Byte>)
      requires Valid() && pos < len && |data| + LENGTH_BYTES <= size
      modifies buf
      ensures Slots(buf[..], len, size) ==
                old(Slots(buf[..], len, size)[pos := Store(Slots(buf[..], len, size)[pos], data)])
    {
      assert size < 0x1_0000;
      hide Slots, Blit, Store, RingOk, Le32;
      WriteIsStore(buf[..], len, size, pos, data);
      WriteAt(buf, pos * size, size, data);
    }

    /** The copy out of a slot whose message ends within it. */
    method ReadOut(pos: nat, room: nat) returns (out: seq<Byte>)
      requires Valid() && pos < len
      requires FromLe32(Slots(buf[..], len, size)[pos][size - LENGTH_BYTES..]) <= size
      ensures out == Load(Slots(buf[..], len, size)[pos], room)
    {
      SlotFits(len, size, pos);
      ghost var slot := SlotAt(buf[..], len, size, pos);
      assert Slots(buf[..], len, size)[pos] == slot;
      hide Slots, RingOk, Load, FromLe32;
      out := ReadAt(buf, pos * size, size, room);
    }

    /** OsQueueBufferOperate in copy mode. */
    method Operate(op: Op) returns (out: seq<Byte>)
      requires Valid() && Fits(Content(), op)
      requires op.Read? ==> FromLe32(Content().slots[head][size - LENGTH_BYTES..]) <= size
      modifies this, buf
      ensures Valid() && (Content(), out) == Rings.Operate(old(Content()), op)
    {
      out := [];
      match op
      case Read(room) =>
        var pos := head;
        head := if head + 1 == len then 0 else head + 1;
        out := ReadOut(pos, room);
      case WriteHead(data) =>
        head := if head == 0 then len - 1 else head - 1;
        Write(head, data);
      case WriteTail(data) =>
        var pos := tail;
        tail := if tail + 1 == len then 0 else tail + 1;
        Write(pos, data);
    }
  }
}

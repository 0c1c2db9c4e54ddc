/** The message slots of a queue: a ring that holds a double-ended queue of messages. */
module Rings {

  newtype Byte = x: int | 0 <= x < 0x100

  /** sizeof(UINT32): every slot ends with the length of its message. */
  const LENGTH_BYTES: nat := 4

  function Le32(n: nat): (b: seq<Byte>)
    requires n < 0x1_0000_0000
    ensures |b| == LENGTH_BYTES
  {
    [(n % 0x100) as Byte, (n / 0x100 % 0x100) as Byte, (n / 0x1_0000 % 0x100) as Byte, (n / 0x100_0000) as Byte]
  }

  function FromLe32(b: seq<Byte>): (n: nat)
    requires |b| == LENGTH_BYTES
    ensures n < 0x1_0000_0000
  {
    b[0] as nat + 0x100 * b[1] as nat + 0x1_0000 * b[2] as nat + 0x100_0000 * b[3] as nat
  }

  lemma {:induction false} LengthRoundTrip(n: nat)
    requires n < 0x1_0000_0000
    ensures FromLe32(Le32(n)) == n
  {
    var q := n / 0x100;
    assert n / 0x1_0000 == q / 0x100 && n / 0x100_0000 == q / 0x100 / 0x100;
  }

  /** What a copy write leaves in a slot: the length word at its end and the bytes at its start. */
  function Store(slot: seq<Byte>, data: seq<Byte>): (r: seq<Byte>)
    requires |data| + LENGTH_BYTES <= |slot| < 0x1_0000
    ensures |r| == |slot|
  {
    data + slot[|data|..|slot| - LENGTH_BYTES] + Le32(|data|)
  }

  /** The message in a slot: as many bytes as its length word says. */
  function Message(slot: seq<Byte>): (data: seq<Byte>)
    requires |slot| >= LENGTH_BYTES
  {
    var n := FromLe32(slot[|slot| - LENGTH_BYTES..]);
    if n <= |slot| then slot[..n] else slot
  }

  /** What a copy read with a buffer of `room` bytes delivers. */
  function Load(slot: seq<Byte>, room: nat): (data: seq<Byte>)
    requires |slot| >= LENGTH_BYTES
  {
    var m := Message(slot);
    if room < |m| then m[..room] else m
  }

  /** A message written is the message read. */
  lemma {:induction false} StoreLoad(slot: seq<Byte>, data: seq<Byte>, room: nat)
    requires |data| + LENGTH_BYTES <= |slot| < 0x1_0000
    ensures Message(Store(slot, data)) == data
    ensures |data| <= room ==> Load(Store(slot, data), room) == data
  {
    var r := Store(slot, data);
    assert r[|r| - LENGTH_BYTES..] == Le32(|data|);
    LengthRoundTrip(|data|);
    assert r[..|data|] == data;
  }

  // ------------------------------------------------------------ the ring

  datatype Ring = Ring(slots: seq<seq<Byte>>, size: nat, head: nat, tail: nat)

  /** `i` slots further on. */
  function Ahead(pos: nat, i: nat, len: nat): (r: nat)
    requires pos < len && i <= len
    ensures r < len
  {
    if pos + i < len then pos + i else pos + i - len
  }

  function Behind(pos: nat, len: nat): (r: nat)
    requires pos < len
    ensures r < len
  {
    if pos == 0 then len - 1 else pos - 1
  }

  ghost predicate RingOk(q: Ring) {
    && 0 < |q.slots| && LENGTH_BYTES < q.size < 0x1_0000
    && q.head < |q.slots| && q.tail < |q.slots|
    && forall i :: 0 <= i < |q.slots| ==> |q.slots[i]| == q.size
  }

  /** The ring holds the messages `d`, front first: `tail` is that many slots ahead of `head`. */
  ghost predicate Holds(q: Ring, d: seq<seq<Byte>>) {
    && RingOk(q) && |d| <= |q.slots| && q.tail == Ahead(q.head, |d|, |q.slots|)
    && (forall i :: 0 <= i < |d| ==> |d[i]| + LENGTH_BYTES <= q.size)
    && (forall i :: 0 <= i < |d| ==> Message(q.slots[Ahead(q.head, i, |q.slots|)]) == d[i])
  }

  datatype Op = Read(room: nat) | WriteHead(data: seq<Byte>) | WriteTail(data: seq<Byte>)

  ghost predicate Fits(q: Ring, op: Op) {
    match op
    case Read(_) => true
    case WriteHead(data) => |data| + LENGTH_BYTES <= q.size
    case WriteTail(data) => |data| + LENGTH_BYTES <= q.size
  }

  /** OsQueueBufferOperate in copy mode. */
  function Operate(q: Ring, op: Op): (r: (Ring, seq<Byte>))
    requires RingOk(q) && Fits(q, op)
    ensures RingOk(r.0) && |r.0.slots| == |q.slots| && r.0.size == q.size
  {
    match op
    case Read(room) => (q.(head := Ahead(q.head, 1, |q.slots|)), Load(q.slots[q.head], room))
    case WriteHead(data) =>
      var pos := Behind(q.head, |q.slots|);
      (q.(head := pos, slots := q.slots[pos := Store(q.slots[pos], data)]), [])
    case WriteTail(data) =>
      (q.(tail := Ahead(q.tail, 1, |q.slots|), slots := q.slots[q.tail := Store(q.slots[q.tail], data)]), [])
  }

  /** The same operation on a double-ended queue. */
  function DequeOperate(d: seq<seq<Byte>>, op: Op): (r: seq<seq<Byte>>)
    requires op.Read? ==> d != []
  {
    match op
    case Read(_) => d[1..]
    case WriteHead(data) => [data] + d
    case WriteTail(data) => d + [data]
  }

  lemma {:induction false} ReadRefines(q: Ring, d: seq<seq<Byte>>, room: nat)
    requires Holds(q, d) && d != []
    ensures Holds(Operate(q, Read(room)).0, d[1..])
    ensures Operate(q, Read(room)).1 == if room < |d[0]| then d[0][..room] else d[0]
  {
    var len := |q.slots|;
    var r := Operate(q, Read(room)).0;
    assert Message(q.slots[Ahead(q.head, 0, len)]) == d[0];
    forall i | 0 <= i < |d| - 1 ensures Message(r.slots[Ahead(r.head, i, len)]) == d[1..][i] {
      assert Ahead(r.head, i, len) == Ahead(q.head, i + 1, len);
    }
  }

  lemma {:induction false} WriteHeadRefines(q: Ring, d: seq<seq<Byte>>, data: seq<Byte>)
    requires Holds(q, d) && Fits(q, WriteHead(data)) && |d| < |q.slots|
    ensures Holds(Operate(q, WriteHead(data)).0, [data] + d)
  {
    var len := |q.slots|;
    var r := Operate(q, WriteHead(data)).0;
    StoreLoad(q.slots[r.head], data, 0);
    forall i | 0 <= i < |d| + 1 ensures Message(r.slots[Ahead(r.head, i, len)]) == ([data] + d)[i] {
      if i > 0 {
        assert Ahead(r.head, i, len) == Ahead(q.head, i - 1, len) != r.head;
      }
    }
  }

  lemma {:induction false} WriteTailRefines(q: Ring, d: seq<seq<Byte>>, data: seq<Byte>)
    requires Holds(q, d) && Fits(q, WriteTail(data)) && |d| < |q.slots|
    ensures Holds(Operate(q, WriteTail(data)).0, d + [data])
  {
    var len := |q.slots|;
    var r := Operate(q, WriteTail(data)).0;
    StoreLoad(q.slots[q.tail], data, 0);
    forall i | 0 <= i < |d| + 1 ensures Message(r.slots[Ahead(r.head, i, len)]) == (d + [data])[i] {
      if i < |d| {
        assert Ahead(q.head, i, len) != q.tail;
      }
    }
  }

  /** The ring refines a bounded double-ended queue: a tail write appends, a head write prepends, a
      read takes the front and delivers as much of it as the buffer has room for. */
  lemma {:induction false} OperateRefines(q: Ring, d: seq<seq<Byte>>, op: Op)
    requires Holds(q, d) && Fits(q, op)
    requires if op.Read? then d != [] else |d| < |q.slots|
    ensures Holds(Operate(q, op).0, DequeOperate(d, op))
    ensures op.Read? ==> Operate(q, op).1 == if op.room < |d[0]| then d[0][..op.room] else d[0]
  {
    hide Holds, Operate;
    match op
    case Read(room) => ReadRefines(q, d, room);
    case WriteHead(data) => WriteHeadRefines(q, d, data);
    case WriteTail(data) => WriteTailRefines(q, d, data);
  }
}

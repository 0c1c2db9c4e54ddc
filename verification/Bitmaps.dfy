/** The 32-bit word that says which ready queues are non-empty. */
module Bitmaps {
  import Queues

  const PRIOR0: bv32 := 0x8000_0000  // PRIQUEUE_PRIOR0_BIT

  function Bit(i: bv5): (m: bv32) { PRIOR0 >> i }

  function Mask(p: nat): (m: bv32)
    requires p < Queues.PRIORITIES
  {
    Bit(p as bv5)
  }

  function And(b: bv32, m: bv32): (r: bv32) { b & m }

  predicate Common(b: bv32, m: bv32) { And(b, m) != 0 }

  predicate Has(bitmap: bv32, p: nat)
    requires p < Queues.PRIORITIES
  {
    Common(bitmap, Mask(p))
  }

  /** The priorities whose bits are set. */
  function Bits(bitmap: bv32): (s: set<nat>) {
    set p: nat | p < Queues.PRIORITIES && Has(bitmap, p)
  }

  function With(bitmap: bv32, m: bv32): (b: bv32) { bitmap | m }

  function Minus(bitmap: bv32, m: bv32): (b: bv32) { bitmap & !m }

  // ------------------------------------------------------------ single bits

  lemma {:induction false} IndexRound(p: nat)
    requires p < 32
    ensures (p as bv5) as nat == p
  {
  }

  lemma {:induction false} BitsApart(i: bv5, j: bv5)
    ensures i != j ==> !Common(Bit(i), Bit(j))
  {
  }

  lemma {:induction false} BitSet(i: bv5)
    ensures Common(Bit(i), Bit(i))
  {
  }

  lemma {:induction false} MasksApart(p: nat, q: nat)
    requires p < Queues.PRIORITIES && q < Queues.PRIORITIES
    ensures Common(Mask(p), Mask(q)) <==> p == q
  {
    hide Common, Bit;
    IndexRound(p);
    IndexRound(q);
    BitsApart(p as bv5, q as bv5);
    BitSet(p as bv5);
  }

  lemma {:induction false} AndWith(b: bv32, m: bv32, n: bv32)
    ensures And(With(b, m), n) == With(And(b, n), And(m, n))
  {
    assert (b | m) & n == (b & n) | (m & n) by {
      hide And, With;
    }
  }

  lemma {:induction false} WithZero(x: bv32, y: bv32)
    ensures With(x, y) == 0 <==> x == 0 && y == 0
  {
  }

  lemma {:induction false} AndMinus(b: bv32, m: bv32, n: bv32)
    ensures And(m, n) == 0 ==> And(Minus(b, m), n) == And(b, n)
  {
  }

  lemma {:induction false} WithCommon(b: bv32, m: bv32, n: bv32)
    ensures Common(With(b, m), n) <==> Common(b, n) || Common(m, n)
  {
    hide And, With;
    AndWith(b, m, n);
    WithZero(And(b, n), And(m, n));
  }

  lemma {:induction false} MinusCommon(b: bv32, m: bv32, n: bv32)
    requires !Common(m, n)
    ensures Common(Minus(b, m), n) <==> Common(b, n)
  {
    hide And, Minus;
    AndMinus(b, m, n);
  }

  lemma {:induction false} MinusSelf(b: bv32, m: bv32)
    ensures !Common(Minus(b, m), m)
  {
  }

  /** Setting the bit of a priority adds that priority. */
  lemma {:induction false} WithBits(b: bv32, p: nat)
    requires p < Queues.PRIORITIES
    ensures Bits(With(b, Mask(p))) == Bits(b) + {p}
  {
    hide Common, With, Mask;
    forall q: nat | q < Queues.PRIORITIES ensures Has(With(b, Mask(p)), q) <==> Has(b, q) || q == p {
      WithCommon(b, Mask(p), Mask(q));
      MasksApart(p, q);
    }
  }

  /** Clearing it takes that priority out. */
  lemma {:induction false} MinusBits(b: bv32, p: nat)
    requires p < Queues.PRIORITIES
    ensures Bits(Minus(b, Mask(p))) == Bits(b) - {p}
  {
    hide Common, Minus, Mask;
    forall q: nat | q < Queues.PRIORITIES ensures Has(Minus(b, Mask(p)), q) <==> Has(b, q) && q != p {
      MasksApart(p, q);
      if q != p {
        MinusCommon(b, Mask(p), Mask(q));
      } else {
        MinusSelf(b, Mask(p));
      }
    }
  }

  // ------------------------------------------------------------ leading zeros

  /** The union of the masks in front of index `i`. */
  function Front(i: bv5): (m: bv32) { !(0xffff_ffff >> i) }

  lemma {:induction false} IndexBack(i: bv5)
    ensures (i as nat) as bv5 == i
  {
  }

  lemma {:induction false} FrontStep(i: bv5)
    requires i != 31
    ensures Front(i + 1) == With(Front(i), Bit(i))
  {
  }

  lemma {:induction false} FrontAll()
    ensures Front(0) == 0 && With(Front(31), Bit(31)) == 0xffff_ffff
  {
  }

  lemma {:induction false} NoneInFront(b: bv32, i: bv5)
    requires forall j: bv5 | j < i :: !Common(b, Bit(j))
    ensures !Common(Front(i), b)
    decreases i
  {
    hide Common, With, Bit, Front;
    if i == 0 {
      FrontAll();
      ZeroCommon(b);
    } else {
      NoneInFront(b, i - 1);
      FrontStep(i - 1);
      WithCommon(Front(i - 1), Bit(i - 1), b);
      CommonSym(Bit(i - 1), b);
      assert !Common(b, Bit(i - 1));
    }
  }

  lemma {:induction false} ZeroCommon(b: bv32)
    ensures !Common(0, b)
  {
  }

  lemma {:induction false} CommonSym(a: bv32, b: bv32)
    ensures Common(a, b) <==> Common(b, a)
  {
    assert a & b == b & a;
  }

  lemma {:induction false} CommonAll(b: bv32)
    ensures Common(0xffff_ffff, b) <==> b != 0
  {
  }

  /** The word is zero exactly when no priority is in it. */
  lemma {:induction false} ZeroIsEmpty(b: bv32)
    ensures b == 0 <==> Bits(b) == {}
  {
    hide Common, With, Bit, Front;
    if Bits(b) == {} {
      forall j: bv5 ensures !Common(b, Bit(j)) {
        assert j as nat !in Bits(b);
        IndexBack(j);
      }
      NoneInFront(b, 31);
      WithCommon(Front(31), Bit(31), b);
      CommonSym(Bit(31), b);
      FrontAll();
      CommonAll(b);
    } else {
      var p :| p in Bits(b);
      ZeroCommon(Mask(p));
    }
  }

  /** CLZ: the number of zeros in front of the first bit that is set, from bit `p` on. */
  function LeadingZeros(b: bv32, p: nat): (n: nat)
    requires p <= Queues.PRIORITIES
    decreases Queues.PRIORITIES - p
  {
    if p == Queues.PRIORITIES || Has(b, p) then p else LeadingZeros(b, p + 1)
  }

  lemma {:induction false} LeadingZerosClz(b: bv32, p: nat)
    requires p <= Queues.PRIORITIES
    ensures LeadingZeros(b, p) == Queues.Clz(Bits(b), p)
    decreases Queues.PRIORITIES - p
  {
    hide Has;
    if p < Queues.PRIORITIES && !Has(b, p) {
      LeadingZerosClz(b, p + 1);
    }
  }

  /** The word without the bits behind index `i`. */
  function Down(b: bv32, i: bv5): (r: bv32) { b >> (31 - i) }

  lemma {:induction false} FirstBit(b: bv32, i: bv5)
    requires !Common(Front(i), b) && Common(b, Bit(i))
    ensures Down(b, i) == 1
  {
  }

  lemma {:induction false} FirstInBits(b: bv32, n: nat)
    requires n < 32 && n in Bits(b) && forall q :: 0 <= q < n ==> q !in Bits(b)
    ensures Down(b, n as bv5) == 1
  {
    hide Common, Bit, Front, Down;
    var i := n as bv5;
    IndexRound(n);
    forall j: bv5 | j < i ensures !Common(b, Bit(j)) {
      IndexBack(j);
      IndexLess(j, i);
      assert j as nat !in Bits(b);
    }
    NoneInFront(b, i);
    FirstBit(b, i);
  }

  lemma {:induction false} IndexLess(j: bv5, i: bv5)
    requires j < i
    ensures j as nat < i as nat
  {
  }

  /** So cutting the word off behind the bit that CLZ finds leaves exactly that bit. */
  lemma {:induction false} LeadingZerosExact(b: bv32)
    requires b != 0
    ensures var n := LeadingZeros(b, 0); n < 32 && Down(b, n as bv5) == 1
  {
    hide Has, Down;
    ZeroIsEmpty(b);
    LeadingZerosClz(b, 0);
    var q :| q in Bits(b);
    FirstInBits(b, LeadingZeros(b, 0));
  }
}

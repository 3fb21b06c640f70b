/**
  nn::util::BitFlagSet: `size` flags packed into an array of storage words,
  32-bit words for up to 32 flags and 64-bit words above that.
 */
module BitFlags {
  import opened Arithmetic
  import opened Bits

  function StorageBits(size: nat): nat {
    if size <= 32 then 32 else 64
  }

  function StorageCount(size: nat): nat {
    (size + StorageBits(size) - 1) / StorageBits(size)
  }

  datatype BitFlagSet = BitFlagSet(size: nat, field: seq<nat>) {
    ghost predicate Valid() {
      && size > 0
      && |field| == StorageCount(size)
      && WordsFit(field, StorageBits(size))
    }

    /** The number of bits the words hold, which can exceed `size`. */
    function Capacity(): nat {
      |field| * StorageBits(size)
    }

    /** `field[index / storageBits] & (1 << index % storageBits)`, compared with zero. */
    predicate IsBitSet(index: nat)
      requires index < Capacity()
    {
      WordIndexInRange(field, StorageBits(size), index);
      And(field[index / StorageBits(size)], Pow2(index % StorageBits(size)) % Pow2(StorageBits(size))) != 0
    }

    /** The set of naturals the flags stand for. */
    ghost function Members(): set<nat> {
      set i: nat | 0 <= i < Capacity() && IsBitSet(i)
    }

    /** A missing flag reads as clear; the indices the code uses are all below `size`. */
    predicate Has(index: nat) {
      index < Capacity() && IsBitSet(index)
    }
  }

  ghost predicate WordsFit(words: seq<nat>, bits: nat) {
    forall i :: 0 <= i < |words| ==> words[i] < Pow2(bits)
  }

  /** `T()`: every word zero. */
  function Empty(size: nat): (f: BitFlagSet)
    requires size > 0
    ensures f.Valid() && f.size == size
  {
    BitFlagSet(size, seq(StorageCount(size), _ => 0))
  }

  lemma WordIndexInRange(words: seq<nat>, bits: nat, index: nat)
    requires bits > 0 && index < |words| * bits
    ensures index / bits < |words|
  {
    assert index == bits * (index / bits) + index % bits;
    MulOrder(bits, |words|, index / bits);
  }

  /** Every index below the declared size has a word, and no word is wholly unused. */
  lemma StorageCountExact(size: nat)
    requires size > 0
    ensures size <= StorageCount(size) * StorageBits(size) < size + StorageBits(size)
    ensures forall i: nat | i < size :: i / StorageBits(size) < StorageCount(size)
  {
    var b := StorageBits(size);
    assert size + b - 1 == StorageCount(size) * b + (size + b - 1) % b;
    forall i: nat | i < size ensures i / b < StorageCount(size) {
      WordIndexInRange(seq(StorageCount(size), _ => 0), b, i);
    }
  }

  /** The number whose digits in base 2^bits are the words, least significant first. */
  function Number(words: seq<nat>, bits: nat): nat {
    if words == [] then 0 else words[0] + Pow2(bits) * Number(words[1..], bits)
  }

  lemma {:induction false} NumberBound(words: seq<nat>, bits: nat)
    requires WordsFit(words, bits)
    ensures Number(words, bits) < Pow2(|words| * bits)
  {
    if words != [] {
      NumberBound(words[1..], bits);
      PeelWord(|words|, bits);
      GluedBound(words[0], Number(words[1..], bits), bits, (|words| - 1) * bits);
    }
  }

  lemma PeelWord(count: nat, bits: nat)
    requires count > 0
    ensures count * bits == bits + (count - 1) * bits && (count - 1) * bits >= 0
  {
    MulNonNegative(count - 1, bits);
  }

  lemma GluedBound(lo: nat, hi: nat, m: nat, n: nat)
    requires lo < Pow2(m) && hi < Pow2(n)
    ensures lo + Pow2(m) * hi < Pow2(m + n)
  {
    Pow2Add(m, n);
    MulOrder(Pow2(m), hi, Pow2(n));
  }

  lemma {:induction false} NumberInjective(a: seq<nat>, b: seq<nat>, bits: nat)
    requires |a| == |b| && WordsFit(a, bits) && WordsFit(b, bits)
    requires Number(a, bits) == Number(b, bits)
    ensures a == b
  {
    if a != [] {
      var x, y := Number(a[1..], bits), Number(b[1..], bits);
      DivModUnique(Number(a, bits), Pow2(bits), x, a[0]);
      DivModUnique(Number(b, bits), Pow2(bits), y, b[0]);
      NumberInjective(a[1..], b[1..], bits);
      assert a == [a[0]] + a[1..] && b == [b[0]] + b[1..];
    }
  }

  lemma {:induction false} WordBit(words: seq<nat>, bits: nat, index: nat)
    requires WordsFit(words, bits) && bits > 0 && index < |words| * bits
    ensures index / bits < |words|
    ensures Bit(words[index / bits], index % bits) <==> Bit(Number(words, bits), index)
  {
    WordIndexInRange(words, bits, index);
    BitOfGlued(words[0], Number(words[1..], bits), bits, index);
    if index >= bits {
      DivModShift(index, bits);
      PeelWord(|words|, bits);
      var rest, i := words[1..], index - bits;
      WordBit(rest, bits, i);
      assert rest[i / bits] == words[index / bits];
    } else {
      DivModUnique(index, bits, 0, index);
    }
  }

  lemma DivModShift(y: nat, d: nat)
    requires 1 <= d <= y
    ensures (y - d) / d == y / d - 1 && (y - d) % d == y % d
  {
    var q := y / d;
    assert y == d * q + y % d;
    assert d * (q - 1) == d * q - d;
    DivModUnique(y - d, d, q - 1, y % d);
  }

  lemma IsBitSetIsBit(f: BitFlagSet, index: nat)
    requires f.Valid() && index < f.Capacity()
    ensures f.IsBitSet(index) <==> Bit(Number(f.field, StorageBits(f.size)), index)
  {
    var b := StorageBits(f.size);
    WordBit(f.field, b, index);
    var k := index % b;
    Pow2Strict(k, b);
    DivModUnique(Pow2(k), Pow2(b), 0, Pow2(k));
    AndSingleBit(f.field[index / b], k);
  }

  /** isBitSet(i) is bit i of the number the array spells out in 32-bit words, or 64-bit words for over 32 flags. */
  lemma IsBitSetIsBitOfNumber(f: BitFlagSet, index: nat)
    requires f.Valid() && index < f.Capacity()
    ensures f.Capacity() == |f.field| * if f.size <= 32 then 32 else 64
    ensures f.IsBitSet(index) <==> Bit(Number(f.field, if f.size <= 32 then 32 else 64), index)
  {
    IsBitSetIsBit(f, index);
  }

  lemma Pow2Strict(a: nat, b: nat)
    requires a < b
    ensures Pow2(a) < Pow2(b)
  {
    Pow2Monotone(a, b - 1);
    assert Pow2(b) == 2 * Pow2(b - 1);
  }

  /** The words are determined by the set they represent, and by nothing else. */
  lemma EqualWordsIffSameMembers(f: BitFlagSet, g: BitFlagSet)
    requires f.Valid() && g.Valid() && f.size == g.size
    ensures f == g <==> f.Members() == g.Members()
    ensures f == g <==> forall i: nat | i < f.Capacity() :: f.Has(i) == g.Has(i)
  {
    var b := StorageBits(f.size);
    if forall i: nat | i < f.Capacity() :: f.Has(i) == g.Has(i) {
      forall i: nat | i < |f.field| * b
        ensures Bit(Number(f.field, b), i) == Bit(Number(g.field, b), i)
      {
        assert f.Has(i) == g.Has(i);
        IsBitSetIsBit(f, i);
        IsBitSetIsBit(g, i);
      }
      NumberBound(f.field, b);
      NumberBound(g.field, b);
      BitsDetermine(Number(f.field, b), Number(g.field, b), |f.field| * b);
      NumberInjective(f.field, g.field, b);
    }
    if f.Members() == g.Members() {
      forall i: nat | i < f.Capacity() ensures f.Has(i) == g.Has(i) {
        assert i in f.Members() <==> i in g.Members();
      }
    }
  }

  /** A zero-initialised flag set stands for the empty set. */
  lemma EmptyHasNoMembers(size: nat)
    requires size > 0
    ensures Empty(size).Members() == {}
  {
    var f := Empty(size);
    forall i: nat | i < f.Capacity() ensures !f.IsBitSet(i) {
      IsBitSetIsBit(f, i);
      WordBit(f.field, StorageBits(size), i);
      ZeroHasNoBits(i % StorageBits(size));
    }
  }

  ghost predicate AgreeBelowSize(f: BitFlagSet, g: BitFlagSet) {
    forall i: nat | i < f.size :: f.Has(i) == g.Has(i)
  }

  /** Reading all declared flags tells two sets apart exactly when no storage bit is left over. */
  ghost predicate FlagsDetermineWords(size: nat) {
    forall f: BitFlagSet, g: BitFlagSet
      | f.Valid() && g.Valid() && f.size == size && g.size == size && AgreeBelowSize(f, g) :: f == g
  }

  lemma FlagsDetermineWordsIff(size: nat)
    requires size > 0
    ensures FlagsDetermineWords(size) <==> size % StorageBits(size) == 0
  {
    var b, n := StorageBits(size), StorageCount(size);
    StorageCountExact(size);
    if size % b == 0 {
      DivModUnique(size + b - 1, b, size / b, b - 1);
      assert n * b == size;
      forall f: BitFlagSet, g: BitFlagSet
        | f.Valid() && g.Valid() && f.size == size && g.size == size && AgreeBelowSize(f, g)
        ensures f == g
      {
        EqualWordsIffSameMembers(f, g);
      }
    } else {
      LeftoverBit(size);
    }
  }

  /** With a storage bit left over, two different word arrays agree on every declared flag. */
  lemma LeftoverBit(size: nat)
    requires size > 0 && size % StorageBits(size) != 0
    ensures !FlagsDetermineWords(size)
  {
    var b, n := StorageBits(size), StorageCount(size);
    StorageCountExact(size);
    var f := Empty(size);
    Pow2Strict(b - 1, b);
    var g := f.(field := f.field[n - 1 := Pow2(b - 1)]);
    assert size < n * b by {
      if size == n * b { DivModUnique(size, b, n, 0); }
    }
    forall i: nat | i < size ensures f.Has(i) == g.Has(i) {
      IsBitSetIsBit(f, i);
      IsBitSetIsBit(g, i);
      WordBit(f.field, b, i);
      WordBit(g.field, b, i);
      ZeroHasNoBits(i % b);
      if i / b == n - 1 {
        assert i == (n - 1) * b + i % b && n * b == (n - 1) * b + b;
        Pow2HasOneBit(b - 1, i % b);
      }
    }
    assert AgreeBelowSize(f, g) && f.field[n - 1] != g.field[n - 1];
  }
}

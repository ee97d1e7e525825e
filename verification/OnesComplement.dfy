/** Arithmetic of the Internet checksum: one's complement sums of 16-bit words,
    as section 1 of RFC 1071 defines them, and the two identities of section 2
    (byte order independence, deferred carries) that the optimised loops rely on. */
module OnesComplement {
  import opened MachineTypes

  const TWO32: int := 0x1_0000_0000

  /** FOLD_U32T: add the upper half word to the lower one. */
  function Fold(x: u32): u32 {
    x / 0x1_0000 + x % 0x1_0000
  }

  /** SWAP_BYTES_IN_WORD: exchange the two low bytes and drop the rest. */
  function SwapBytes(x: u32): u16 {
    (x % 0x100) * 0x100 + (x / 0x100) % 0x100
  }

  /** One's complement addition: the carry out of bit 15 is added back at bit 0. */
  function OnesAdd(a: u16, b: u16): u16 {
    if a + b > 0xffff then a + b - 0xffff else a + b
  }

  /** A 16-bit load on a little-endian host. */
  function Word(first: u8, second: u8): u16 {
    (first as int) + 0x100 * (second as int)
  }

  /** The reference sum of RFC 1071: pair the octets into 16-bit words as a
      little-endian host loads them, pad an odd tail with zero, and add the words
      in one's complement arithmetic. */
  function OnesSum(s: seq<u8>): u16 {
    if |s| == 0 then 0
    else if |s| == 1 then s[0]
    else OnesAdd(Word(s[0], s[1]), OnesSum(s[2..]))
  }

  /** The same words added as integers; `high` says whether the first octet is the
      upper half of its word. */
  function ByteSum(s: seq<u8>, high: bool): nat {
    if s == [] then 0
    else (if high then 0x100 * (s[0] as int) else s[0]) + ByteSum(s[1..], !high)
  }

  /** The 16-bit word that a one's complement adder reaches for the integer x:
      x modulo 65535, with zero reserved for x == 0. */
  function Norm(x: nat): u16 {
    if x == 0 then 0 else (x - 1) % 0xffff + 1
  }

  lemma NormSmall(x: nat)
    requires x <= 0xffff
    ensures Norm(x) == x
  {
  }

  /** Two folds bring any 32-bit accumulator down to its 16-bit word. */
  lemma FoldTwice(x: u32)
    ensures Fold(Fold(x)) == Norm(x)
  {
    FoldKeepsNorm(x);
    FoldKeepsNorm(Fold(x));
    NormSmall(Fold(Fold(x)));
  }

  lemma FoldKeepsNorm(x: u32)
    ensures Norm(Fold(x)) == Norm(x)
    ensures x <= 0x1_fffe ==> Fold(x) <= 0xffff
  {
    NormDrop(x, x / 0x1_0000);
  }

  lemma NormDrop(x: nat, k: nat)
    requires 0xffff * k < x || k == 0
    ensures Norm(x - 0xffff * k) == Norm(x)
  {
    if k > 0 {
      assert x - 1 == 0xffff * k + (x - 0xffff * k - 1);
      assert (x - 1) % 0xffff == (x - 0xffff * k - 1) % 0xffff;
    }
  }

  lemma NormAdd(x: nat, y: nat)
    ensures Norm(Norm(x) + y) == Norm(x + y)
  {
    if x > 0 {
      var q := (x - 1) / 0xffff;
      assert x == Norm(x) + 0xffff * q;
      NormDrop(x + y, q);
    }
  }

  lemma OnesAddIsNorm(x: nat, y: nat)
    ensures OnesAdd(Norm(x), Norm(y)) == Norm(x + y)
  {
    hide Norm, OnesAdd;
    NormAdd(x, y);
    NormAdd(y, Norm(x));
    OnesAddWords(Norm(x), Norm(y));
  }

  lemma OnesAddWords(a: u16, b: u16)
    ensures OnesAdd(a, b) == Norm(a + b)
  {
  }

  /** The integer sum and the reference one's complement sum name the same word. */
  lemma {:induction false} OnesSumIsNorm(s: seq<u8>)
    ensures OnesSum(s) == Norm(ByteSum(s, false))
  {
    if |s| >= 2 {
      OnesSumIsNorm(s[2..]);
      ByteSumTwo(s, 0, false);
      assert s[0..] == s;
      NormSmall(Word(s[0], s[1]));
      OnesAddIsNorm(Word(s[0], s[1]), ByteSum(s[2..], false));
    } else if |s| == 1 {
      assert s[1..] == [];
    }
  }

  /** Unrolling one word at position i. */
  lemma ByteSumTwo(s: seq<u8>, i: nat, high: bool)
    requires i + 2 <= |s|
    ensures ByteSum(s[i..], high) ==
            (if high then Word(s[i + 1], s[i]) else Word(s[i], s[i + 1])) + ByteSum(s[i + 2..], high)
  {
    assert s[i..][1..] == s[i + 1..];
    assert s[i + 1..][1..] == s[i + 2..];
  }

  predicate Odd(n: nat) {
    n % 2 == 1
  }

  lemma OddAdd(a: nat, b: nat)
    ensures Odd(a + b) == (Odd(a) != Odd(b))
    ensures !Odd(0) && Odd(1) && !Odd(2)
  {
  }

  lemma {:induction false} ByteSumConcat(a: seq<u8>, b: seq<u8>, high: bool)
    ensures ByteSum(a + b, high) == ByteSum(a, high) + ByteSum(b, high != Odd(|a|))
  {
    if a == [] {
      assert a + b == b;
    } else {
      assert (a + b)[1..] == a[1..] + b;
      ByteSumConcat(a[1..], b, !high);
    }
  }

  /** Byte order independence (section 2(B) of RFC 1071): shifting every octet to
      the other half of its word multiplies the sum by 256. */
  lemma {:induction false} ByteSumShift(s: seq<u8>, high: bool)
    ensures Norm(0x100 * ByteSum(s, high)) == Norm(ByteSum(s, !high))
  {
    if s != [] {
      ByteSumShift(s[1..], !high);
      ShiftStep(s[0], ByteSum(s[1..], !high), ByteSum(s[1..], high), high);
    }
  }

  /** Shifting an octet and a rest by eight bits; the upper octet wraps to the lower half. */
  lemma ShiftStep(b: u8, rest: nat, shifted: nat, high: bool)
    requires Norm(0x100 * rest) == Norm(shifted)
    ensures Norm(0x100 * ((if high then 0x100 * (b as int) else b) + rest)) ==
            Norm((if high then b else 0x100 * (b as int)) + shifted)
  {
    hide Norm;
    var w: nat := if high then b else 0x100 * (b as int);
    if high && b + 0x100 * rest > 0 {
      NormDrop(0x100 * (0x100 * (b as int) + rest), b);
      assert 0x100 * (0x100 * (b as int) + rest) == 0xffff * (b as int) + (w + 0x100 * rest);
    }
    NormAdd(0x100 * rest, w);
    NormAdd(shifted, w);
  }

  lemma SwapIsShift(x: nat)
    ensures SwapBytes(Norm(x)) == Norm(0x100 * x)
  {
    if x > 0 {
      var q := (x - 1) / 0xffff;
      SwapOfWord(Norm(x));
      assert 0x100 * x == 0x100 * Norm(x) + 0xffff * (0x100 * q);
      hide Norm, SwapBytes;
      NormDrop(0x100 * x, 0x100 * q);
    }
  }

  lemma SwapOfWord(w: u16)
    ensures SwapBytes(w) == Norm(0x100 * (w as int))
    ensures w > 0 ==> SwapBytes(w) > 0
  {
    if w > 0 {
      var high, low := (w as int) / 0x100, (w as int) % 0x100;
      var swapped := SwapBytes(w);
      assert swapped == 0x100 * low + high;
      assert 0x100 * (w as int) == 0xffff * high + swapped;
      hide Norm, SwapBytes;
      NormDrop(0x100 * (w as int), high);
      NormSmall(swapped);
    }
  }

  /** Swapping the folded sum of a misaligned buffer repairs its alignment. */
  lemma SwapRepairs(s: seq<u8>, high: bool)
    ensures SwapBytes(Norm(ByteSum(s, high))) == Norm(ByteSum(s, !high))
  {
    SwapIsShift(ByteSum(s, high));
    ByteSumShift(s, high);
  }

  lemma {:induction false} ByteSumBound(s: seq<u8>, high: bool)
    ensures ByteSum(s, high) <=
            0xffff * (|s| / 2) + if Odd(|s|) then (if high then 0xff00 else 0xff) else 0
  {
    if |s| >= 2 {
      OddAdd(|s| - 2, 2);
      ByteSumTwo(s, 0, high);
      assert s[0..] == s;
      hide Odd, ByteSum;
      ByteSumBound(s[2..], high);
    } else if |s| == 1 {
      assert s[1..] == [];
    }
  }

  // ---- In network order ------------------------------------------------------

  /** The sum as section 1 of RFC 1071 writes it: the first octet of a word is the higher
      one, and a carry out of sixteen bits is added back. */
  function NetworkSum(s: seq<u8>): u16 {
    if |s| == 0 then 0
    else if |s| == 1 then 256 * s[0]
    else
      var sum := 256 * (s[0] as int) + s[1] + NetworkSum(s[2..]);
      if sum < 65536 then sum else sum - 65536 + 1
  }

  /** A little-endian host computes the sum in network order with its octets exchanged, so
      that storing it puts the higher octet first. */
  lemma HostOrderIsNetworkOrder(s: seq<u8>)
    ensures OnesSum(s) % 256 == NetworkSum(s) / 256 && OnesSum(s) / 256 == NetworkSum(s) % 256
  {
    OnesSumIsNorm(s);
    NetworkSumIsNorm(s);
    SwapRepairs(s, false);
    hide OnesSum, NetworkSum, Norm, ByteSum;
    SwappedHalves(OnesSum(s));
  }

  lemma SwappedHalves(x: u16)
    ensures x % 256 == SwapBytes(x) / 256 && x / 256 == SwapBytes(x) % 256
  {
  }

  lemma {:induction false} NetworkSumIsNorm(s: seq<u8>)
    ensures NetworkSum(s) == Norm(ByteSum(s, true))
  {
    if |s| >= 2 {
      NetworkSumIsNorm(s[2..]);
      ByteSumTwo(s, 0, true);
      assert s[0..] == s;
      NormSmall(Word(s[1], s[0]));
      OnesAddIsNorm(Word(s[1], s[0]), ByteSum(s[2..], true));
    } else if |s| == 1 {
      assert s[1..] == [];
    }
  }
}

/** The three versions of lwip_standard_chksum. Accumulators are 32 bits wide and
    wrap; a buffer is its start address and its octets; every half-word or word
    load is shown to be aligned and inside the buffer. */
module StandardChecksum {
  import opened MachineTypes
  import opened OnesComplement

  /** The largest length for which no buffer can wrap a 32-bit accumulator that adds
      16-bit words. The source promises 0x20000; see ByteSumFits and ByteSumWraps. */
  const MAX_SUMMABLE: nat := 0x2_0002

  predicate FourAligned(address: nat) {
    address % 4 == 0
  }

  lemma FourAlignedStep(address: nat)
    requires FourAligned(address)
    ensures FourAligned(address + 4) && FourAligned(address + 8) && !Odd(address)
  {
  }

  function Load16(data: seq<u8>, address: nat, i: nat): u16
    requires i + 2 <= |data|
    requires !Odd(address + i)
  {
    Word(data[i], data[i + 1])
  }

  function Load32(data: seq<u8>, address: nat, i: nat): u32
    requires i + 4 <= |data|
    requires FourAligned(address + i)
  {
    Word(data[i], data[i + 1]) + 0x1_0000 * (Word(data[i + 2], data[i + 3]) as int)
  }

  /** A 32-bit addition: the carry out of bit 31 is lost. */
  function AddU32(a: u32, b: u32): u32 {
    if a + b < TWO32 then a + b else a + b - TWO32
  }

  ghost function Carry(a: u32, b: u32): nat {
    if a + b < TWO32 then 0 else 1
  }

  lemma WrapUnique(sum: u32, wraps: nat, total: nat)
    requires sum + TWO32 * wraps == total
    ensures sum == total % TWO32
  {
  }

  /** What versions 1 and 2 compute on any buffer, wrapped or not: the sum of the
      words modulo 2^32, folded, and swapped when the first octet was taken as an
      upper half. */
  function WrappedChksum(data: seq<u8>, high: bool): u16 {
    var folded := Norm(ByteSum(data, high) % TWO32);
    if high then SwapBytes(folded) else folded
  }

  /** Version 1 adds big-endian octet pairs and reorders the folded sum. */
  method StandardChksum1(data: seq<u8>) returns (r: u16)
    ensures r == WrappedChksum(data, true)
    ensures |data| <= MAX_SUMMABLE ==> r == OnesSum(data)
  {
    var acc: u32 := 0;
    var i: nat, len: nat := 0, |data|;
    ghost var done, wraps := 0, 0;
    while len > 1
      invariant i + len == |data|
      invariant done + ByteSum(data[i..], true) == ByteSum(data, true)
      invariant acc + TWO32 * wraps == done
    {
      ByteSumTwo(data, i, true);
      var src := Word(data[i + 1], data[i]);
      acc, done, wraps := AddU32(acc, src), done + src, wraps + Carry(acc, src);
      i, len := i + 2, len - 2;
    }
    if len > 0 {
      assert data[i..][1..] == [];
      var src := 0x100 * (data[i] as int);
      acc, done, wraps := AddU32(acc, src), done + src, wraps + Carry(acc, src);
    }
    WrapUnique(acc, wraps, ByteSum(data, true));
    FoldTwice(acc);
    acc := Fold(acc);
    if acc / 0x1_0000 != 0 {
      acc := Fold(acc);
    }
    r := SwapBytes(acc);
    WrappedIsRight(data, true);
  }

  /** The bulk loop of version 2, from an even address: all half-words are added, at
      most one octet is left. `wraps` counts the carries lost out of bit 31. */
  method AddHalfWords(data: seq<u8>, address: nat, from: nat) returns (sum: u32, i: nat, ghost wraps: nat)
    requires from <= |data|
    requires from < |data| ==> !Odd(address + from)
    ensures from <= i <= |data| <= i + 1
    ensures sum + TWO32 * wraps + ByteSum(data[i..], false) == ByteSum(data[from..], false)
  {
    hide Odd;
    sum, i, wraps := 0, from, 0;
    var len := |data| - from;
    while len > 1
      invariant from <= i && 0 <= len && i + len == |data|
      invariant len > 1 ==> !Odd(address + i)
      invariant sum + TWO32 * wraps + ByteSum(data[i..], false) == ByteSum(data[from..], false)
    {
      ByteSumTwo(data, i, false);
      OddAdd(address + i, 2);
      var word := Load16(data, address, i);
      sum, wraps := AddU32(sum, word), wraps + Carry(sum, word);
      i, len := i + 2, len - 2;
    }
  }

  /** Version 2 adds aligned half-words; from an odd address it peels one octet, adds
      the sum of the shifted buffer and swaps at the end. */
  method StandardChksum2(data: seq<u8>, address: nat) returns (r: u16)
    ensures r == WrappedChksum(data, Odd(address))
    ensures |data| <= MAX_SUMMABLE ==> r == OnesSum(data)
  {
    hide Norm, SwapBytes, OnesSum, Odd;
    OddAdd(address, 1);
    var first: u8, last: u8 := 0, 0;  // the two octets of t, in memory order
    var i: nat := 0;
    var odd := Odd(address);
    if odd && |data| > 0 {
      last := data[0];
      i := 1;
    }
    assert Word(0, last) + ByteSum(data[i..], false) == ByteSum(data, odd);
    var sum: u32;
    ghost var wraps: nat;
    sum, i, wraps := AddHalfWords(data, address, i);
    if i < |data| {
      first := data[i];
      assert data[i..][1..] == [];
    }
    var t := Word(first, last);
    WrapUnique(AddU32(sum, t), wraps + Carry(sum, t), ByteSum(data, odd));
    r := FoldAndSwap(AddU32(sum, t), odd);
    WrappedIsRight(data, odd);
  }

  /** The common end of versions 2 and 3: fold twice, swap if alignment was odd. */
  method FoldAndSwap(sum: u32, odd: bool) returns (r: u16)
    ensures r == if odd then SwapBytes(Norm(sum)) else Norm(sum)
  {
    FoldTwice(sum);
    var folded: u32 := Fold(sum);
    folded := Fold(folded);
    if odd {
      folded := SwapBytes(folded);
    }
    r := folded;
  }

  /** One "ping" of version 3: add an aligned 32-bit word and add the carry back. The
      add-back never wraps again, and the one's complement value of what is summed
      and what is still to come does not change. */
  method AddWord32(sum: u32, data: seq<u8>, address: nat, i: nat, ghost rest: nat) returns (r: u32)
    requires i + 4 <= |data|
    requires FourAligned(address + i)
    ensures Norm(r + rest) == Norm(sum + Word(data[i], data[i + 1]) + Word(data[i + 2], data[i + 3]) + rest)
    ensures var word := Load32(data, address, i);
            r == if sum + word < TWO32 then sum + word else sum + word - (TWO32 - 1)
  {
    var word := Load32(data, address, i);
    LoadKeepsNorm(data, address, i, sum + rest);
    r := AddU32(sum, word);
    if r < sum {
      NormDrop(sum + word + rest, 0x1_0001);
      r := r + 1;
    }
  }

  /** The unrolled loop of version 3: eight octets at a time from a four-byte
      boundary, leaving at most seven. */
  method AddBulk(data: seq<u8>, address: nat, from: nat, before: u32, ghost pending: nat)
    returns (sum: u32, i: nat)
    requires from <= |data|
    requires from + 1 < |data| ==> FourAligned(address + from)
    ensures from <= i <= |data| <= i + 7
    ensures i + 1 < |data| ==> !Odd(address + i)
    ensures Norm(sum + pending + ByteSum(data[i..], false)) ==
            Norm(before + pending + ByteSum(data[from..], false))
  {
    hide Norm, FourAligned, Odd, Load32, ByteSum;
    i, sum := from, before;
    var len := |data| - from;
    while len > 7
      invariant from <= i && i + len == |data|
      invariant 0 <= len && (len > 1 ==> FourAligned(address + i))
      invariant Norm(sum + pending + ByteSum(data[i..], false)) ==
                Norm(before + pending + ByteSum(data[from..], false))
    {
      ByteSumFour(data, i);
      ByteSumFour(data, i + 4);
      FourAlignedStep(address + i);
      ghost var rest := pending + ByteSum(data[i + 8..], false);
      var tmp := AddWord32(sum, data, address, i,
                           Word(data[i + 4], data[i + 5]) + Word(data[i + 6], data[i + 7]) + rest);
      sum := AddWord32(tmp, data, address, i + 4, rest);
      i, len := i + 8, len - 8;
    }
    if len > 1 {
      FourAlignedStep(address + i);
    }
  }

  /** The tail of version 3: at most three half-words, a dangling octet, and the octet
      peeled off the front. `last` is the octet already stored in the upper half of t. */
  method AddTail(data: seq<u8>, address: nat, from: nat, before: u32, last: u8) returns (sum: u32)
    requires from <= |data| <= from + 7
    requires from + 1 < |data| ==> !Odd(address + from)
    requires before <= 0x1_fffe
    ensures sum == before + Word(0, last) + ByteSum(data[from..], false)
  {
    hide Odd;
    var first: u8 := 0;
    var i, len := from, |data| - from;
    sum := before;
    while len > 1
      invariant from <= i && i + len == |data| && 0 <= len <= 7
      invariant len > 1 ==> !Odd(address + i)
      invariant sum <= 0x1_fffe + 0xffff * (7 - len)
      invariant sum + ByteSum(data[i..], false) == before + ByteSum(data[from..], false)
    {
      ByteSumTwo(data, i, false);
      OddAdd(address + i, 2);
      sum := sum + Load16(data, address, i);
      i, len := i + 2, len - 2;
    }
    if len > 0 {
      first := data[i];
      assert data[i..][1..] == [];
    }
    sum := sum + Word(first, last);
  }

  lemma FrontOctet(data: seq<u8>)
    ensures if data == [] then ByteSum(data, true) == ByteSum(data, false)
            else Word(0, data[0]) + ByteSum(data[1..], false) == ByteSum(data, true)
  {
  }

  lemma HalfwayAligned(address: nat)
    ensures !Odd(address) && !FourAligned(address) ==> FourAligned(address + 2)
  {
  }

  /** The front of version 3: an octet at an odd address goes to the upper half of t, then
      at most one half-word is summed to reach a four-byte boundary. */
  method AlignFront(data: seq<u8>, address: nat) returns (sum: u32, i: nat, last: u8)
    ensures i <= |data| && (i + 1 < |data| ==> FourAligned(address + i))
    ensures sum + Word(0, last) + ByteSum(data[i..], false) == ByteSum(data, Odd(address))
  {
    hide Odd, FourAligned, ByteSum;
    sum, i, last := 0, 0, 0;
    FrontOctet(data);
    assert data[i..] == data;
    if Odd(address) && |data| > 0 {
      last := data[0];
      i := 1;
    }
    OddAdd(address, i);
    HalfwayAligned(address + i);
    if !FourAligned(address + i) && i + 1 < |data| {
      ByteSumTwo(data, i, false);
      sum := Load16(data, address, i);
      i := i + 2;
    }
  }

  /** Version 3 aligns to four bytes, adds 32-bit words two at a time with the carry
      added back, and finishes the tail in half-words. It is right for any length. */
  method StandardChksum3(data: seq<u8>, address: nat) returns (r: u16)
    ensures r == OnesSum(data)
  {
    hide Norm, SwapBytes, OnesSum, Odd, ByteSum, FourAligned;
    var odd := Odd(address);
    var sum, i, last := AlignFront(data, address);
    sum, i := AddBulk(data, address, i, sum, Word(0, last));
    sum := FoldInPlace(sum, Word(0, last) + ByteSum(data[i..], false));
    sum := AddTail(data, address, i, sum, last);
    r := FoldAndSwap(sum, odd);
    SwapRepairs(data, odd);
    OnesSumIsNorm(data);
  }

  method FoldInPlace(sum: u32, ghost rest: nat) returns (r: u32)
    ensures Norm(r + rest) == Norm(sum + rest)
    ensures r <= 0x1_fffe
  {
    r := Fold(sum);
    FoldKeepsNorm(sum);
    NormAdd(sum, rest);
    NormAdd(r, rest);
  }

  lemma ByteSumFour(data: seq<u8>, i: nat)
    requires i + 4 <= |data|
    ensures ByteSum(data[i..], false) ==
            Word(data[i], data[i + 1]) + Word(data[i + 2], data[i + 3]) + ByteSum(data[i + 4..], false)
  {
    ByteSumTwo(data, i, false);
    ByteSumTwo(data, i + 2, false);
  }

  /** A 32-bit word weighs as much as its two half-words. */
  lemma LoadKeepsNorm(data: seq<u8>, address: nat, i: nat, rest: nat)
    requires i + 4 <= |data|
    requires FourAligned(address + i)
    ensures Norm(Load32(data, address, i) + rest) ==
            Norm(Word(data[i], data[i + 1]) + Word(data[i + 2], data[i + 3]) + rest)
  {
    var low, high := Word(data[i], data[i + 1]), Word(data[i + 2], data[i + 3]);
    if high > 0 {
      NormDrop(Load32(data, address, i) + rest, high);
    }
  }

  lemma WrappedIsRight(data: seq<u8>, high: bool)
    ensures |data| <= MAX_SUMMABLE ==> WrappedChksum(data, high) == OnesSum(data)
  {
    if |data| <= MAX_SUMMABLE {
      ByteSumFits(data, high);
      assert ByteSum(data, high) % TWO32 == ByteSum(data, high);
    }
    SwapRepairs(data, high);
    OnesSumIsNorm(data);
  }

  /** No buffer of up to 0x20002 octets makes the sum of its words reach 2^32. */
  lemma ByteSumFits(data: seq<u8>, high: bool)
    requires |data| <= MAX_SUMMABLE
    ensures ByteSum(data, high) < TWO32
  {
    ByteSumBound(data, high);
  }

  /** One octet more and the all-ones buffer wraps: MAX_SUMMABLE is the exact limit. */
  lemma ByteSumWraps(data: seq<u8>, high: bool)
    requires |data| == MAX_SUMMABLE + 1
    requires forall i :: 0 <= i < |data| ==> data[i] == 0xff
    ensures ByteSum(data, high) >= TWO32
  {
    AllOnesSum(data, high);
  }

  lemma {:induction false} AllOnesSum(data: seq<u8>, high: bool)
    requires forall i :: 0 <= i < |data| ==> data[i] == 0xff
    ensures ByteSum(data, high) ==
            0xffff * (|data| / 2) + if Odd(|data|) then (if high then 0xff00 else 0xff) else 0
  {
    if |data| >= 2 {
      OddAdd(|data| - 2, 2);
      ByteSumTwo(data, 0, high);
      assert data[0..] == data;
      hide Odd, ByteSum;
      AllOnesSum(data[2..], high);
    } else if |data| == 1 {
      assert data[1..] == [];
    }
  }

  /** For every length an `int` can hold, a wrapped accumulator is a wrong checksum:
      the value of versions 1 and 2 is the RFC 1071 sum exactly when the sum of the
      words stayed below 2^32. `high` is true for version 1 and for version 2 at an
      odd address. */
  lemma WrapIsWrong(data: seq<u8>, high: bool)
    requires |data| < 0x8000_0000
    ensures WrappedChksum(data, high) == OnesSum(data) <==> ByteSum(data, high) < TWO32
  {
    hide Norm, SwapBytes, ByteSum, OnesSum, Odd;
    var sum := ByteSum(data, high);
    OnesSumIsNorm(data);
    SwapRepairs(data, high);
    SwapBytesInjective(Norm(sum % TWO32), Norm(sum));
    if sum >= TWO32 {
      ByteSumBelow(data, high);
      WrapChangesNorm(sum);
    }
  }

  lemma ByteSumBelow(data: seq<u8>, high: bool)
    requires |data| < 0x8000_0000
    ensures ByteSum(data, high) < 0xfffe * TWO32
  {
    hide ByteSum;
    ByteSumBound(data, high);
    assert |data| / 2 <= 0x4000_0000;
  }

  lemma SwapBytesInjective(a: u16, b: u16)
    ensures SwapBytes(a) == SwapBytes(b) <==> a == b
  {
    SwapBytesInvolution(a);
    SwapBytesInvolution(b);
  }

  lemma SwapBytesInvolution(a: u16)
    ensures SwapBytes(SwapBytes(a)) == a
  {
    var low, high := a % 0x100, a / 0x100;
    assert SwapBytes(a) == low * 0x100 + high;
    assert SwapBytes(a) % 0x100 == high && SwapBytes(a) / 0x100 == low;
  }

  /** 2^32 is 1 modulo 65535, and fewer than 65535 wraps can occur. */
  lemma WrapChangesNorm(sum: nat)
    requires TWO32 <= sum < 0xfffe * TWO32
    ensures Norm(sum % TWO32) != Norm(sum)
  {
    var wraps, low := sum / TWO32, sum % TWO32;
    assert sum == 0xffff * (0x1_0001 * wraps) + (wraps + low);
    NormDrop(sum, 0x1_0001 * wraps);
    NormSmall(wraps);
    NormAdd(low, wraps);
  }

}

/** inet_chksum and the walkers that sum a chain of pbufs. A pbuf is its payload
    address and at most 65535 octets; the walkers only read the chain. */
module ChainChecksum {
  import opened MachineTypes
  import opened OnesComplement
  import opened StandardChecksum

  type Payload = s: seq<u8> | |s| <= 0xffff
  type Address = s: seq<u8> | |s| == 4 witness [0, 0, 0, 0]

  datatype Pbuf = Pbuf(address: nat, payload: Payload)
  type Chain = seq<Pbuf>

  /** LWIP_CHKSUM_ALGORITHM selects one version at compile time. */
  datatype Algorithm = One | Two | Three

  /** The octets of a chain in order. */
  function Concat(chain: Chain): seq<u8> {
    if chain == [] then [] else Concat(chain[..|chain| - 1]) + chain[|chain| - 1].payload
  }

  lemma ConcatStep(chain: Chain, k: nat)
    requires k < |chain|
    ensures Concat(chain[..k + 1]) == Concat(chain[..k]) + chain[k].payload
  {
    assert chain[..k + 1][..k] == chain[..k];
  }

  function Complement(x: u16): u16 {
    0xffff - x
  }

  method LwipChksum(algorithm: Algorithm, data: seq<u8>, address: nat) returns (r: u16)
    requires |data| <= MAX_SUMMABLE
    ensures r == OnesSum(data)
  {
    match algorithm
    case One => r := StandardChksum1(data);
    case Two => r := StandardChksum2(data, address);
    case Three => r := StandardChksum3(data, address);
  }

  method InetChksum(algorithm: Algorithm, data: Payload, address: nat) returns (r: u16)
    ensures r == Complement(OnesSum(data))
  {
    r := LwipChksum(algorithm, data, address);
    r := Complement(r);
  }

  /** One pass of the loop that the three walkers share: add the sum of the first
      `chklen` octets of a segment, fold once, and swap if the whole segment is odd.
      `before` stands for everything summed so far. The accumulator then agrees with
      the flag, and the flag with the parity unless the segment was clipped. */
  method AddSegment(algorithm: Algorithm, q: Pbuf, chklen: nat, acc: u16, swapped: bool, ghost before: seq<u8>)
    returns (acc': u16, swapped': bool)
    requires chklen <= |q.payload|
    requires swapped == Odd(|before|)
    requires acc == Norm(ByteSum(before, swapped))
    ensures swapped' == (swapped != Odd(|q.payload|))
    ensures acc' == Norm(ByteSum(before + q.payload[..chklen], swapped'))
    ensures chklen == |q.payload| ==> swapped' == Odd(|before + q.payload[..chklen]|)
  {
    hide SwapBytes, Norm, ByteSum, OnesSum, Odd;
    OddAdd(|before|, |q.payload|);
    var payload := q.payload[..chklen];
    var sum := LwipChksum(algorithm, payload, q.address);
    SegmentSum(before, payload);
    FoldKeepsNorm(acc + sum);
    NormSmall(Fold(acc + sum));
    acc', swapped' := Fold(acc + sum), swapped;
    if Odd(|q.payload|) {
      swapped' := !swapped;
      acc' := SwapBytes(acc');
      SwapRepairs(before + payload, swapped);
    }
  }

  lemma SegmentSum(before: seq<u8>, payload: seq<u8>)
    ensures var swapped := Odd(|before|);
            Norm(Norm(ByteSum(before, swapped)) + OnesSum(payload)) == Norm(ByteSum(before + payload, swapped))
  {
    hide *;
    var swapped := Odd(|before|);
    ByteSumConcat(before, payload, swapped);
    OnesSumIsNorm(payload);
    NormAdd(ByteSum(payload, false), Norm(ByteSum(before, swapped)));
    NormAdd(ByteSum(before, swapped), ByteSum(payload, false));
  }

  /** The loop of inet_chksum_pbuf and inet_cksum_pseudo_base, with the closing swap.
      `acc` is what the caller already summed, the octets `header`. */
  method SumChain(algorithm: Algorithm, chain: Chain, acc: u16, ghost header: seq<u8>) returns (r: u16)
    requires !Odd(|header|)
    requires acc == OnesSum(header)
    ensures r == OnesSum(header + Concat(chain))
  {
    hide Norm, SwapBytes, ByteSum, OnesSum, Odd;
    r := acc;
    var swapped := false;
    OnesSumIsNorm(header);
    assert header + Concat(chain[..0]) == header;
    for k := 0 to |chain|
      invariant swapped == Odd(|header + Concat(chain[..k])|)
      invariant r == Norm(ByteSum(header + Concat(chain[..k]), swapped))
    {
      ghost var before := header + Concat(chain[..k]);
      r, swapped := AddSegment(algorithm, chain[k], |chain[k].payload|, r, swapped, before);
      assert chain[k].payload[..|chain[k].payload|] == chain[k].payload;
      ConcatStep(chain, k);
      assert before + chain[k].payload == header + Concat(chain[..k + 1]);
    }
    assert chain[..|chain|] == chain;
    if swapped {
      r := SwapBytes(r);
      SwapRepairs(header + Concat(chain), true);
    }
    OnesSumIsNorm(header + Concat(chain));
  }

  /** The checksum of a chain is the checksum of its octets, exactly, however the
      octets are cut into segments and wherever the segments lie in memory. */
  method InetChksumPbuf(algorithm: Algorithm, chain: Chain) returns (r: u16)
    ensures r == Complement(OnesSum(Concat(chain)))
  {
    assert [] + Concat(chain) == Concat(chain);
    r := SumChain(algorithm, chain, 0, []);
    r := Complement(r);
  }

  // ---- Pseudo header -------------------------------------------------------

  /** The pseudo header of section 3.1 of RFC 793, in network byte order. */
  function PseudoHeader(src: Address, dest: Address, proto: u8, protoLen: u16): seq<u8> {
    src + dest + [0, proto, protoLen / 0x100, protoLen % 0x100]
  }

  /** Addresses, a zero octet, the protocol and the length, its higher octet first. */
  lemma PseudoHeaderLayout(src: Address, dest: Address, proto: u8, protoLen: u16)
    ensures var h := PseudoHeader(src, dest, proto, protoLen);
            && |h| == 12 && h[..4] == src && h[4..8] == dest && h[8] == 0 && h[9] == proto
            && 256 * (h[10] as int) + h[11] == protoLen
  {
  }

  /** The checksum of the pseudo header followed by the octets of the chain. */
  function PseudoChksum(chain: Chain, proto: u8, protoLen: u16, src: Address, dest: Address): u16 {
    Complement(OnesSum(PseudoHeader(src, dest, proto, protoLen) + Concat(chain)))
  }

  /** inet_chksum_pseudo: the two addresses are summed first, the chain is walked, and
      protocol and length are added last; the result is the checksum of the pseudo
      header followed by the chain. */
  method InetChksumPseudo(algorithm: Algorithm, chain: Chain, proto: u8, protoLen: u16,
                          src: Address, dest: Address)
    returns (r: u16)
    ensures r == PseudoChksum(chain, proto, protoLen, src, dest)
  {
    var acc := SumAddresses(src, dest);
    acc := SumChain(algorithm, chain, acc, src + dest);
    r := FinishPseudo(acc, proto, protoLen, src, dest, Concat(chain));
  }

  method SumAddresses(src: Address, dest: Address) returns (acc: u16)
    ensures acc == OnesSum(src + dest)
  {
    var sum: u32 := Word(src[0], src[1]);
    sum := sum + Word(src[2], src[3]);
    sum := sum + Word(dest[0], dest[1]);
    sum := sum + Word(dest[2], dest[3]);
    ghost var s := src + dest;
    assert s[0..] == s && s[8..] == [];
    ByteSumFour(s, 0);
    ByteSumFour(s, 4);
    OnesSumIsNorm(s);
    FoldTwice(sum);
    sum := Fold(sum);
    acc := Fold(sum);
  }

  /** Protocol and length join the sum after the chain although they precede it in the
      pseudo header. */
  method FinishPseudo(acc: u16, proto: u8, protoLen: u16, ghost src: Address, ghost dest: Address,
                      ghost data: seq<u8>)
    returns (r: u16)
    requires acc == OnesSum(src + dest + data)
    ensures r == Complement(OnesSum(PseudoHeader(src, dest, proto, protoLen) + data))
  {
    var sum: u32 := acc + SwapBytes(proto);
    sum := sum + SwapBytes(protoLen);
    PseudoSum(src, dest, proto, protoLen, data);
    FoldTwice(sum);
    sum := Fold(sum);
    sum := Fold(sum);
    r := Complement(sum);
  }

  /** lwip_htons(v) has the octets of v in network order. */
  lemma SwapIsWord(v: u16)
    ensures SwapBytes(v) == Word(v / 0x100, v % 0x100)
  {
  }

  lemma PseudoSum(src: Address, dest: Address, proto: u8, protoLen: u16, data: seq<u8>)
    ensures Norm(OnesSum(src + dest + data) + SwapBytes(proto) + SwapBytes(protoLen)) ==
            OnesSum(PseudoHeader(src, dest, proto, protoLen) + data)
  {
    hide Norm, SwapBytes, OnesSum;
    SwapIsWord(proto);
    SwapIsWord(protoLen);
    var tail: seq<u8> := [0, proto, protoLen / 0x100, protoLen % 0x100];
    ByteSumFour(tail, 0);
    assert tail[0..] == tail && tail[4..] == [];
    ByteSumConcat(src + dest, data, false);
    ByteSumConcat(src + dest + tail, data, false);
    ByteSumConcat(src + dest, tail, false);
    OnesSumIsNorm(src + dest + data);
    OnesSumIsNorm(PseudoHeader(src, dest, proto, protoLen) + data);
    NormAdd(ByteSum(src + dest + data, false), SwapBytes(proto) + SwapBytes(protoLen));
  }

  // ---- Partial pseudo checksum ---------------------------------------------

  /** inet_chksum_pseudo_partial: only the first chksumLen octets of the chain count.
      The result is that of the truncated chain. `debugAssert` reports whether the
      debugging assertion inside the loop (remaining length below 0x7fff) held
      throughout. */
  method InetChksumPseudoPartial(algorithm: Algorithm, chain: Chain, proto: u8, protoLen: u16,
                                 chksumLen: u16, src: Address, dest: Address)
    returns (r: u16, debugAssert: bool)
    ensures r == Complement(OnesSum(PseudoHeader(src, dest, proto, protoLen) +
                                    Concat(chain)[..Min(chksumLen, |Concat(chain)|)]))
    ensures debugAssert <==> chain == [] || chksumLen < 0x7fff + |chain[0].payload|
  {
    var acc := SumAddresses(src, dest);
    acc, debugAssert := SumPrefix(algorithm, chain, chksumLen, acc, src + dest);
    r := FinishPseudo(acc, proto, protoLen, src, dest, Concat(chain)[..Min(chksumLen, |Concat(chain)|)]);
  }

  /** The partial loop: the swap test reads the full segment length although the last
      segment may be clipped. The number of swaps is even at the end all the same. */
  method SumPrefix(algorithm: Algorithm, chain: Chain, chksumLen: u16, acc: u16, ghost header: seq<u8>)
    returns (r: u16, debugAssert: bool)
    requires !Odd(|header|)
    requires acc == OnesSum(header)
    ensures r == OnesSum(header + Concat(chain)[..Min(chksumLen, |Concat(chain)|)])
    ensures debugAssert <==> chain == [] || chksumLen < 0x7fff + |chain[0].payload|
  {
    hide Norm, SwapBytes, ByteSum, OnesSum, Odd;
    r, debugAssert := acc, true;
    var swapped := false;
    var left: nat := chksumLen;
    var k := 0;
    ghost var kept: seq<u8> := [];
    OnesSumIsNorm(header);
    assert header + kept == header;
    while k < |chain| && left > 0
      invariant k <= |chain| && (k == 0 ==> kept == [])
      invariant |kept| + left == chksumLen
      invariant left > 0 ==> kept == Concat(chain[..k]) && swapped == Odd(|header + kept|)
      invariant kept <= Concat(chain)
      invariant r == Norm(ByteSum(header + kept, swapped))
      invariant k > 0 ==> left == 0 || left + |chain[0].payload| <= chksumLen
      invariant debugAssert <==> k == 0 || chksumLen < 0x7fff + |chain[0].payload|
    {
      var chklen := Min(|chain[k].payload|, left);
      ghost var part := chain[k].payload[..chklen];
      ConcatStep(chain, k);
      ConcatPrefix(chain, k + 1);
      assert (header + kept) + part == header + (kept + part);
      r, swapped := AddSegment(algorithm, chain[k], chklen, r, swapped, header + kept);
      left, kept := left - chklen, kept + part;
      debugAssert := debugAssert && left < 0x7fff;
      k := k + 1;
    }
    if left > 0 {
      assert chain[..k] == chain;
    }
    assert kept == Concat(chain)[..Min(chksumLen, |Concat(chain)|)];
    if swapped {
      r := SwapBytes(r);
      SwapRepairs(header + kept, true);
    }
    OnesSumIsNorm(header + kept);
  }

  lemma {:induction false} ConcatPrefix(chain: Chain, k: nat)
    requires k <= |chain|
    ensures Concat(chain[..k]) <= Concat(chain)
    decreases |chain|
  {
    if k == |chain| {
      assert chain[..k] == chain;
    } else {
      var shorter := chain[..|chain| - 1];
      assert shorter[..k] == chain[..k];
      ConcatPrefix(shorter, k);
    }
  }

  // ---- Fill, then verify ---------------------------------------------------

  lemma ConcatSnoc(chain: Chain, q: Pbuf)
    ensures Concat(chain + [q]) == Concat(chain) + q.payload
  {
  }

  lemma UpdateParts(a: seq<u8>, b: seq<u8>, i: nat, x: u8)
    requires i < |a| + |b|
    ensures (a + b)[i := x] == if i < |a| then a[i := x] + b else a + b[i - |a| := x]
  {
  }

  /** Write one octet of the chain in place. */
  function StoreOctet(chain: Chain, offset: nat, octet: u8): (r: Chain)
    requires offset < |Concat(chain)|
    ensures |r| == |chain|
    ensures Concat(r) == Concat(chain)[offset := octet]
  {
    var q := chain[|chain| - 1];
    var init := chain[..|chain| - 1];
    var start := |Concat(init)|;
    UpdateParts(Concat(init), q.payload, offset, octet);
    if offset < start then
      var stored := StoreOctet(init, offset, octet);
      ConcatSnoc(stored, q);
      stored + [q]
    else
      var stored := q.(payload := q.payload[offset - start := octet]);
      ConcatSnoc(init, stored);
      init + [stored]
  }

  /** Save a 16-bit checksum the way a little-endian host stores it; the two octets
      may lie in different pbufs. */
  function StoreField(chain: Chain, offset: nat, value: u16): (r: Chain)
    requires offset + 1 < |Concat(chain)|
    ensures Concat(r) == Concat(chain)[offset := value % 0x100][offset + 1 := value / 0x100]
  {
    StoreOctet(StoreOctet(chain, offset, value % 0x100), offset + 1, value / 0x100)
  }

  /** The checksum over a chain whose zero field received `value`: exactly the value
      computed over the zero field makes it vanish, except that all ones may stand
      for a computed zero. */
  lemma VerifiesExactly(header: seq<u8>, data: seq<u8>, offset: nat, value: u16)
    requires !Odd(|header|) && !Odd(offset)
    requires offset + 1 < |data| && data[offset] == 0 && data[offset + 1] == 0
    ensures var filled := data[offset := value % 0x100][offset + 1 := value / 0x100];
            var computed := Complement(OnesSum(header + data));
            Complement(OnesSum(header + filled)) == 0 <==>
            value == computed || (computed == 0 && value == 0xffff)
  {
    hide Norm, ByteSum, OnesSum, Odd;
    var filled := data[offset := value % 0x100][offset + 1 := value / 0x100];
    var x := ByteSum(header + data, false);
    FieldWeight(header, data, offset, value);
    OnesSumIsNorm(header + data);
    OnesSumIsNorm(header + filled);
    NormAdd(x, value);
    AllOnesExactly(Norm(x), value);
  }

  lemma AllOnesExactly(sum: u16, value: u16)
    ensures Norm(sum + value) == 0xffff <==> sum + value == 0xffff || (sum == 0xffff && value == 0xffff)
  {
  }

  lemma FieldWeight(header: seq<u8>, data: seq<u8>, offset: nat, value: u16)
    requires !Odd(|header|) && !Odd(offset)
    requires offset + 1 < |data| && data[offset] == 0 && data[offset + 1] == 0
    ensures var filled := data[offset := value % 0x100][offset + 1 := value / 0x100];
            ByteSum(header + filled, false) == ByteSum(header + data, false) + value
  {
    var filled := data[offset := value % 0x100][offset + 1 := value / 0x100];
    ByteSumConcat(header, data, false);
    ByteSumConcat(header, filled, false);
    ByteSumConcat(data[..offset], data[offset..], false);
    ByteSumConcat(filled[..offset], filled[offset..], false);
    assert data == data[..offset] + data[offset..];
    assert filled == filled[..offset] + filled[offset..];
    assert filled[..offset] == data[..offset];
    assert filled[offset + 2..] == data[offset + 2..];
    ByteSumTwo(data, offset, false);
    ByteSumTwo(filled, offset, false);
  }

  /** A sender fills the checksum field of a chain and a receiver sums it again: the
      second checksum is zero for the filled-in value and for no other stored value
      (all ones counting as the same value as a computed zero). */
  lemma FillThenVerify(chain: Chain, proto: u8, protoLen: u16, src: Address, dest: Address,
                       offset: nat, stored: u16)
    requires !Odd(offset) && offset + 1 < |Concat(chain)|
    requires Concat(chain)[offset] == 0 && Concat(chain)[offset + 1] == 0
    ensures var computed := PseudoChksum(chain, proto, protoLen, src, dest);
            && PseudoChksum(StoreField(chain, offset, computed), proto, protoLen, src, dest) == 0
            && (PseudoChksum(StoreField(chain, offset, stored), proto, protoLen, src, dest) == 0 <==>
                stored == computed || (computed == 0 && stored == 0xffff))
  {
    var header := PseudoHeader(src, dest, proto, protoLen);
    VerifiesExactly(header, Concat(chain), offset, PseudoChksum(chain, proto, protoLen, src, dest));
    VerifiesExactly(header, Concat(chain), offset, stored);
  }
}

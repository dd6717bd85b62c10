/** The wildcard word of an OpenFlow 1.0 match: one bit for each field and, for the two IPv4 addresses, a six-bit
    count of wildcarded low bits (section 5.2.3 of the OpenFlow Switch Specification 1.0.0). A 32-bit integer is
    the list of its bits here, the least significant first. */
module Wildcards {

  type Word = w: seq<bool> | |w| == 32 witness seq(32, _ => false)

  predicate IsZero(x: seq<bool>) {
    forall i :: 0 <= i < |x| ==> !x[i]
  }

  function Not(x: seq<bool>): (r: seq<bool>)
    ensures |r| == |x| && forall i :: 0 <= i < |x| ==> r[i] == !x[i]
  {
    seq(|x|, i requires 0 <= i < |x| => !x[i])
  }

  function And(x: seq<bool>, y: seq<bool>): (r: seq<bool>)
    requires |x| == |y|
    ensures |r| == |x| && forall i :: 0 <= i < |x| ==> r[i] == (x[i] && y[i])
  {
    seq(|x|, i requires 0 <= i < |x| => x[i] && y[i])
  }

  /** Addition of one, the carry out of the top bit being lost. */
  function Increment(x: seq<bool>): (r: seq<bool>)
    ensures |r| == |x|
  {
    if x == [] then [] else if x[0] then [false] + Increment(x[1..]) else [true] + x[1..]
  }

  function ShiftRight(x: Word): (r: Word)
    ensures r[31] == false && forall i :: 0 <= i < 31 ==> r[i] == x[i + 1]
  {
    x[1..] + [false]
  }

  // --- the IPv4 mask and its wildcard count ---------------------------------------------------------------

  /** `of_ip_index_to_mask`: all ones shifted left by the index, and zero from 32 on. */
  function IndexToMask(index: nat): (mask: Word)
    ensures forall i :: 0 <= i < 32 ==> mask[i] == (index <= i)
  {
    seq(32, i => index <= i)
  }

  ghost predicate Contiguous(mask: Word) {
    exists w: nat :: w <= 32 && mask == IndexToMask(w)
  }

  /** `count` is what OpenFlow 1.0 uses for `mask`: the number of its low zero bits if these are followed by
      ones only and are not all there is, else 63, which wildcards the whole address. */
  ghost predicate Counts(mask: Word, count: nat) {
    if count < 32 then mask == IndexToMask(count) else count == 63 && forall w: nat :: w < 32 ==> mask != IndexToMask(w)
  }

  ghost predicate LowOnes(x: seq<bool>, w: nat) {
    forall i :: 0 <= i < |x| ==> x[i] == (i < w)
  }

  lemma CarryStep(x: seq<bool>)
    requires x != []
    ensures And(Increment(x), x) == [false] + if x[0] then And(Increment(x[1..]), x[1..]) else x[1..]
  {}

  lemma ZeroStep(x: seq<bool>)
    ensures IsZero([false] + x) <==> IsZero(x)
  {
    assert forall i :: 0 <= i < |x| ==> ([false] + x)[i + 1] == x[i];
    assert forall i :: 0 < i < |[false] + x| ==> ([false] + x)[i] == x[i - 1];
  }

  lemma LowOnesStep(x: seq<bool>, v: nat)
    requires x != [] && x[0]
    ensures LowOnes(x, v) <==> v > 0 && LowOnes(x[1..], v - 1)
  {
    assert forall i :: 0 <= i < |x| - 1 ==> x[1..][i] == x[i + 1];
    assert forall i :: 0 < i < |x| ==> x[i] == x[1..][i - 1];
  }

  lemma NoLowOnes(x: seq<bool>)
    requires x != [] && !x[0]
    ensures IsZero(x[1..]) ==> LowOnes(x, 0)
    ensures !IsZero(x[1..]) ==> forall v: nat :: !LowOnes(x, v)
  {
    assert forall i :: 0 < i < |x| ==> x[i] == x[1..][i - 1];
    forall v: nat | LowOnes(x, v) ensures IsZero(x[1..]) {
      assert v == 0;
    }
  }

  /** `(x + 1) & x` is zero for exactly the numbers that are one less than a power of two. */
  lemma {:induction false} LowOnesTest(x: seq<bool>) returns (w: nat)
    ensures w <= |x|
    ensures IsZero(And(Increment(x), x)) ==> LowOnes(x, w)
    ensures !IsZero(And(Increment(x), x)) ==> forall v: nat :: !LowOnes(x, v)
  {
    w := 0;
    if x != [] {
      hide And, Increment, IsZero, LowOnes;
      CarryStep(x);
      if x[0] {
        var rest := LowOnesTest(x[1..]);
        ZeroStep(And(Increment(x[1..]), x[1..]));
        w := rest + 1;
        forall v: nat ensures LowOnes(x, v) <==> v > 0 && LowOnes(x[1..], v - 1) {
          LowOnesStep(x, v);
        }
      } else {
        ZeroStep(x[1..]);
        NoLowOnes(x);
      }
    }
  }

  /** `of_ip_mask_to_index`. */
  method MaskToIndex(mask: Word) returns (index: nat)
    ensures index <= 63 && Counts(mask, index)
  {
    if IsZero(mask) {
      assert forall w: nat :: w < 32 ==> IndexToMask(w)[31];
      return 63;
    }
    if IsZero(Not(mask)) {
      return 0;
    }
    ghost var w := LowOnesTest(Not(mask));
    if !IsZero(And(Increment(Not(mask)), Not(mask))) {
      forall v: nat | v < 32 ensures mask != IndexToMask(v) {
        if mask == IndexToMask(v) { assert LowOnes(Not(mask), v); }
      }
      return 63;
    }
    index := 0;
    var cmask: Word := Not(mask);
    while !IsZero(cmask)
      invariant index <= w < 32 && LowOnes(cmask, w - index)
      decreases w - index
    {
      assert index < w;
      cmask := ShiftRight(cmask);
      index := index + 1;
    }
    assert cmask[0] == (0 < w - index);
    assert forall i :: 0 <= i < 32 ==> mask[i] == !Not(mask)[i];
  }

  /** Every mask has one count, and reading a count back gives it, all counts from 32 on being the same. */
  lemma MaskOfIndexCounts(index: nat, mask: Word, count: nat, count': nat)
    ensures Counts(IndexToMask(index), if index < 32 then index else 63)
    ensures Counts(mask, count) && Counts(mask, count') ==> count == count'
    ensures Counts(mask, count) && Contiguous(mask) ==> IndexToMask(count) == mask
  {
    if index >= 32 {
      assert forall w: nat :: w < 32 ==> IndexToMask(w)[31];
      assert !IndexToMask(index)[31];
    }
    if Counts(mask, count) && Counts(mask, count') && count < 32 && count' < 32 {
      assert mask[count] && mask[count'] && (count > 0 ==> !mask[count - 1]) && (count' > 0 ==> !mask[count' - 1]);
    }
    if Counts(mask, count) && Contiguous(mask) && count == 63 {
      var w: nat :| w <= 32 && mask == IndexToMask(w);
      assert w == 32;
      assert IndexToMask(32) == IndexToMask(63);
    }
  }

  // --- match keys and the wildcard word --------------------------------------------------------------------

  datatype PlainKey =
    EthDst | EthSrc | EthType | InPort | IpDscp | IpProto | TcpDst | TcpSrc | VlanPcp | VlanVid

  datatype AddrKey = Ipv4Dst | Ipv4Src

  datatype Key = Plain(plain: PlainKey) | Addr(addr: AddrKey)

  /** `v1_wc_shifts`. */
  function Shift(key: Key): (s: nat)
    ensures s < 26
  {
    match key
    case Plain(InPort) => 0
    case Plain(VlanVid) => 1
    case Plain(EthSrc) => 2
    case Plain(EthDst) => 3
    case Plain(EthType) => 4
    case Plain(IpProto) => 5
    case Plain(TcpSrc) => 6
    case Plain(TcpDst) => 7
    case Addr(Ipv4Src) => 8
    case Addr(Ipv4Dst) => 14
    case Plain(VlanPcp) => 20
    case Plain(IpDscp) => 21
  }

  /** How many bits of the wildcard word belong to a key. */
  function WildcardBits(key: Key): nat {
    if key.Addr? then 6 else 1
  }

  /** The bits of different keys do not overlap. */
  lemma ShiftsApart(a: Key, b: Key)
    requires a != b
    ensures Shift(a) + WildcardBits(a) <= Shift(b) || Shift(b) + WildcardBits(b) <= Shift(a)
  {}

  /** Bytes of the key's member in the unified structure. */
  function Width(key: PlainKey): nat {
    match key
    case EthDst => 6
    case EthSrc => 6
    case InPort => 4
    case EthType => 2
    case TcpDst => 2
    case TcpSrc => 2
    case VlanVid => 2
    case IpDscp => 1
    case IpProto => 1
    case VlanPcp => 1
  }

  /** Bytes of the key's member on the wire: port numbers are 16 bits wide in OpenFlow 1.0. */
  function WireWidth(key: PlainKey): (n: nat)
    ensures 0 < n <= Width(key)
  {
    if key == InPort then 2 else Width(key)
  }

  /** With the word, the two addresses and three bytes of padding, the match is 40 bytes long on the wire. */
  lemma WireMatchIs40Bytes()
    ensures 4 + WireWidth(InPort) + WireWidth(EthSrc) + WireWidth(EthDst) + WireWidth(VlanVid) + WireWidth(VlanPcp) + 1 +
            WireWidth(EthType) + WireWidth(IpDscp) + WireWidth(IpProto) + 2 + 4 + 4 + WireWidth(TcpSrc) + WireWidth(TcpDst) == 40
    ensures Width(InPort) == 4 && forall k: PlainKey :: k != InPort ==> Width(k) == WireWidth(k)
  {}

  function Bits(n: nat, width: nat): (bits: seq<bool>)
    ensures |bits| == width
    decreases width
  {
    if width == 0 then [] else [n % 2 == 1] + Bits(n / 2, width - 1)
  }

  function Value(bits: seq<bool>): nat {
    if bits == [] then 0 else (if bits[0] then 1 else 0) + 2 * Value(bits[1..])
  }

  lemma {:induction false} ValueOfBits(n: nat, width: nat)
    requires n < Power2(width)
    ensures Value(Bits(n, width)) == n
    decreases width
  {
    if width > 0 {
      ValueOfBits(n / 2, width - 1);
      assert Bits(n, width)[1..] == Bits(n / 2, width - 1);
    }
  }

  function Power2(k: nat): nat {
    if k == 0 then 1 else 2 * Power2(k - 1)
  }

  /** Whether the word ignores an ordinary field, by the positions of section 5.2.3. */
  predicate Ignores(wc: Word, key: PlainKey) {
    match key
    case InPort => wc[0]
    case VlanVid => wc[1]
    case EthSrc => wc[2]
    case EthDst => wc[3]
    case EthType => wc[4]
    case IpProto => wc[5]
    case TcpSrc => wc[6]
    case TcpDst => wc[7]
    case VlanPcp => wc[20]
    case IpDscp => wc[21]
  }

  /** How many low bits of an address the word ignores, by the positions of section 5.2.3: six bits each, the lowest
      first. */
  function IgnoredBits(wc: Word, key: AddrKey): nat {
    match key
    case Ipv4Src => LowFirst(wc[8], wc[9], wc[10], wc[11], wc[12], wc[13])
    case Ipv4Dst => LowFirst(wc[14], wc[15], wc[16], wc[17], wc[18], wc[19])
  }

  function LowFirst(b0: bool, b1: bool, b2: bool, b3: bool, b4: bool, b5: bool): nat {
    (if b0 then 1 else 0) + (if b1 then 2 else 0) + (if b2 then 4 else 0) +
    (if b3 then 8 else 0) + (if b4 then 16 else 0) + (if b5 then 32 else 0)
  }

  lemma ValueOfSix(bits: seq<bool>)
    requires |bits| == 6
    ensures Value(bits) == LowFirst(bits[0], bits[1], bits[2], bits[3], bits[4], bits[5])
  {
    assert bits[1..][1..] == bits[2..] && bits[2..][1..] == bits[3..] && bits[3..][1..] == bits[4..];
    assert bits[4..][1..] == bits[5..] && bits[5..][1..] == [];
    assert Value(bits[4..]) == (if bits[4] then 1 else 0) + 2 * Value(bits[5..]);
    assert Value(bits[2..]) == (if bits[2] then 1 else 0) + 2 * Value(bits[3..]);
  }

  /** The test macro of a key reads the bit of its field. */
  predicate TestBit(wc: Word, key: PlainKey)
    ensures TestBit(wc, key) == Ignores(wc, key)
  {
    wc[Shift(Plain(key))]
  }

  function SetBit(wc: Word, key: PlainKey): Word {
    wc[Shift(Plain(key)) := true]
  }

  /** So does the macro that gets a count. */
  function GetCount(wc: Word, key: AddrKey): (n: nat)
    ensures n == IgnoredBits(wc, key)
  {
    ValueOfSix(wc[Shift(Addr(key))..Shift(Addr(key)) + 6]);
    Value(wc[Shift(Addr(key))..Shift(Addr(key)) + 6])
  }

  function SetCount(wc: Word, key: AddrKey, count: nat): (r: Word)
    requires count <= 63
    ensures IgnoredBits(r, key) == count
  {
    var s := Shift(Addr(key));
    var r: Word := wc[..s] + Bits(count, 6) + wc[s + 6..];
    assert Power2(6) == 64;
    ValueOfBits(count, 6);
    assert r[s..s + 6] == Bits(count, 6);
    assert GetCount(r, key) == count;
    r
  }

  /** The bits above those of the fields. */
  function Unused(wc: Word): seq<bool> {
    wc[22..]
  }

  /** The two words agree on every bit but those of `key`. */
  ghost predicate SameWildcardsBut(x: Word, y: Word, key: Key) {
    && (forall k: PlainKey :: Plain(k) != key ==> Ignores(x, k) == Ignores(y, k))
    && (forall k: AddrKey :: Addr(k) != key ==> IgnoredBits(x, k) == IgnoredBits(y, k))
    && Unused(x) == Unused(y)
  }

  /** Writing one wildcard bit shows, and leaves every other bit and every count alone. */
  lemma SetBitApart(wc: Word, plain: PlainKey)
    ensures Ignores(SetBit(wc, plain), plain) && SameWildcardsBut(wc, SetBit(wc, plain), Plain(plain))
  {
    forall k: AddrKey
      ensures IgnoredBits(SetBit(wc, plain), k) == IgnoredBits(wc, k)
    {
      var s := Shift(Addr(k));
      assert SetBit(wc, plain)[s..s + 6] == wc[s..s + 6];
    }
  }

  lemma SetCountKeepsCount(wc: Word, addr: AddrKey, count: nat, k: AddrKey)
    requires count <= 63 && k != addr
    ensures IgnoredBits(wc, k) == IgnoredBits(SetCount(wc, addr, count), k)
  {
    SpliceApart(wc, Shift(Addr(addr)), Bits(count, 6), Shift(Addr(k)));
  }

  lemma SpliceApart(wc: Word, s: nat, bits: seq<bool>, t: nat)
    requires |bits| == 6 && s + 6 <= 32 && t + 6 <= 32 && (t + 6 <= s || s + 6 <= t)
    ensures (wc[..s] + bits + wc[s + 6..])[t..t + 6] == wc[t..t + 6]
  {
    var r := wc[..s] + bits + wc[s + 6..];
    if t + 6 <= s {
      assert r[..s] == wc[..s];
      assert r[t..t + 6] == r[..s][t..t + 6] && wc[t..t + 6] == wc[..s][t..t + 6];
    } else {
      var u := s + 6;
      assert r[u..] == wc[u..];
      assert r[t..t + 6] == r[u..][t - u..t - u + 6] && wc[t..t + 6] == wc[u..][t - u..t - u + 6];
    }
  }

  /** Writing one count leaves every bit and the other count alone. */
  lemma SetCountApart(wc: Word, addr: AddrKey, count: nat)
    requires count <= 63
    ensures SameWildcardsBut(wc, SetCount(wc, addr, count), Addr(addr))
  {
    forall k: PlainKey ensures Ignores(wc, k) == Ignores(SetCount(wc, addr, count), k) {}
    forall k: AddrKey | k != addr ensures IgnoredBits(wc, k) == IgnoredBits(SetCount(wc, addr, count), k) {
      SetCountKeepsCount(wc, addr, count, k);
    }
  }
}

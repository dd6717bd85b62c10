/** Conversion of a unified match to the OpenFlow 1.0 wire match and back. */
module MatchV1 {
  import opened Bytes
  import opened Wildcards
  import FlowSpace

  // --- the two match structures ------------------------------------------------------------------------------

  /** The fields structure, used for values and for masks, ordinary members as bytes in network order. `others`
      holds the keys OpenFlow 1.0 lacks. */
  datatype Fields = Fields(plain: map<PlainKey, seq<bv8>>, addr: map<AddrKey, Word>, others: map<string, seq<bv8>>) {
    ghost predicate Shaped(shape: map<string, nat>) {
      && (forall k: PlainKey :: k in plain && |plain[k]| == Width(k))
      && (forall k: AddrKey :: k in addr)
      && others.Keys == shape.Keys
      && forall k :: k in shape ==> |others[k]| == shape[k]
    }
  }

  class UnifiedMatch {
    const shape: map<string, nat>
    var version: nat
    var fields: Fields
    var masks: Fields

    ghost predicate Valid()
      reads this
    {
      fields.Shaped(shape) && masks.Shaped(shape)
    }

    constructor (shape: map<string, nat>, version: nat, fields: Fields, masks: Fields)
      requires fields.Shaped(shape) && masks.Shaped(shape)
      ensures Valid() && this.shape == shape && this.version == version
      ensures this.fields == fields && this.masks == masks
    {
      this.shape, this.version, this.fields, this.masks := shape, version, fields, masks;
    }
  }

  /** The fields of the OpenFlow 1.0 wire match. */
  datatype Wire = Wire(wildcards: Word, plain: map<PlainKey, seq<bv8>>, addr: map<AddrKey, Word>) {
    ghost predicate Shaped() {
      (forall k: PlainKey :: k in plain && |plain[k]| == WireWidth(k)) && forall k: AddrKey :: k in addr
    }
  }

  class WireMatch {
    var isV1: bool
    var version: nat
    var wire: Wire

    ghost predicate Valid()
      reads this
    {
      wire.Shaped()
    }

    constructor (wire: Wire)
      requires wire.Shaped()
      ensures Valid() && this.wire == wire && isV1 && version == 1
    {
      this.wire, isV1, version := wire, true, 1;
    }
  }

  datatype Status = None | ParamError | CompatError

  /** A listing of the OpenFlow 1.0 keys, as the generator walks them; nothing depends on its order. */
  ghost predicate Lists(keys: seq<Key>) {
    (forall key: Key :: key in keys) && forall i, j :: 0 <= i < j < |keys| ==> keys[i] != keys[j]
  }

  // --- unified to wire -----------------------------------------------------------------------------------------

  ghost predicate OnlyV1Keys(masks: Fields) {
    forall k :: k in masks.others ==> AllZero(masks.others[k])
  }

  /** `of_match_v1_compat_check` over the keys that OpenFlow 1.0 lacks, in any listing of them. */
  method CompatCheck(masks: Fields, others: seq<string>) returns (ok: bool)
    requires forall k :: k in others <==> k in masks.others
    ensures ok <==> OnlyV1Keys(masks)
  {
    for i := 0 to |others|
      invariant forall j :: 0 <= j < i ==> AllZero(masks.others[others[j]])
    {
      assert others[i] in others;
      if !AllZero(masks.others[others[i]]) {
        return false;
      }
    }
    return true;
  }

  /** Storing a unified value in the wire member keeps its low bytes. */
  function Narrow(key: PlainKey, value: seq<bv8>): (r: seq<bv8>)
    requires |value| == Width(key)
    ensures |r| == WireWidth(key) && r == if key == InPort then value[2..] else value
  {
    value[Width(key) - WireWidth(key)..]
  }

  /** One key of the wire match: an ordinary one is wildcarded exactly when inactive and otherwise carries the
      value cut to the wire width; an address carries the count that stands for its mask. */
  ghost predicate KeyEncoded(key: Key, f: Fields, m: Fields, w: Wire, shape: map<string, nat>)
    requires f.Shaped(shape) && m.Shaped(shape) && w.Shaped()
  {
    match key
    case Plain(k) =>
      && (Ignores(w.wildcards, k) <==> AllZero(m.plain[k]))
      && (!AllZero(m.plain[k]) ==> w.plain[k] == Narrow(k, f.plain[k]))
    case Addr(k) =>
      && Counts(m.addr[k], IgnoredBits(w.wildcards, k))
      && (!IsZero(m.addr[k]) ==> w.addr[k] == f.addr[k])
  }

  /** What `of_match_to_wire_match_v1` leaves in the wire match. */
  ghost predicate Encodes(f: Fields, m: Fields, w: Wire, shape: map<string, nat>)
    requires f.Shaped(shape) && m.Shaped(shape) && w.Shaped()
  {
    (forall key: Key :: KeyEncoded(key, f, m, w, shape)) && IsZero(Unused(w.wildcards))
  }

  ghost predicate SameWireBut(w: Wire, v: Wire, key: Key)
    requires w.Shaped() && v.Shaped()
  {
    && SameWildcardsBut(w.wildcards, v.wildcards, key)
    && (forall k: PlainKey :: Plain(k) != key ==> w.plain[k] == v.plain[k])
    && forall k: AddrKey :: Addr(k) != key ==> w.addr[k] == v.addr[k]
  }

  /** The statements generated for one key; the wildcard bit of an ordinary key is still clear. */
  method PutKey(w: Wire, key: Key, f: Fields, m: Fields, shape: map<string, nat>) returns (v: Wire)
    requires f.Shaped(shape) && m.Shaped(shape) && w.Shaped()
    requires key.Plain? ==> !Ignores(w.wildcards, key.plain)
    ensures v.Shaped() && KeyEncoded(key, f, m, v, shape) && SameWireBut(w, v, key)
  {
    v := w;
    match key {
      case Plain(k) =>
        if !AllZero(m.plain[k]) {
          v := v.(plain := v.plain[k := Narrow(k, f.plain[k])]);
        } else {
          SetBitApart(v.wildcards, k);
          v := v.(wildcards := SetBit(v.wildcards, k));
        }
      case Addr(k) =>
        var count;
        if !IsZero(m.addr[k]) {
          count := MaskToIndex(m.addr[k]);
          v := v.(addr := v.addr[k := f.addr[k]]);
        } else {
          count := MaskToIndex(seq(32, _ => false));
          assert m.addr[k] == seq(32, _ => false);
        }
        SetCountApart(v.wildcards, k, count);
        v := v.(wildcards := SetCount(v.wildcards, k, count));
    }
  }

  /** `of_match_to_wire_match_v1`. Fields of inactive keys keep whatever the wire match held before. */
  method ToWire(src: UnifiedMatch?, dst: WireMatch?, keys: seq<Key>, others: seq<string>) returns (rv: Status)
    requires src != null ==> src.Valid() && forall k :: k in others <==> k in src.masks.others
    requires dst != null ==> dst.Valid()
    requires Lists(keys)
    modifies dst
    ensures rv == ParamError <==> src == null || dst == null
    ensures src != null && dst != null ==> (rv == CompatError <==> !OnlyV1Keys(src.masks))
    ensures rv == CompatError ==> unchanged(dst)
    ensures rv == None ==> dst.Valid() && dst.isV1 && Encodes(src.fields, src.masks, dst.wire, src.shape)
    ensures rv == None ==> dst.version == if old(dst.isV1) then old(dst.version) else 1
  {
    hide PutSoFar, Lists, Encodes;
    if src == null || dst == null {
      return ParamError;
    }
    var compatible := CompatCheck(src.masks, others);
    if !compatible {
      return CompatError;
    }
    if !dst.isV1 {
      dst.isV1, dst.version := true, 1;
    }
    var w := dst.wire.(wildcards := seq(32, _ => false));
    NothingPut(src.fields, src.masks, w, keys, src.shape);
    for i := 0 to |keys|
      invariant dst.isV1 && dst.version == if old(dst.isV1) then old(dst.version) else 1
      invariant w.Shaped() && PutSoFar(src.fields, src.masks, w, keys, i, src.shape)
    {
      StillClear(src.fields, src.masks, w, keys, i, src.shape);
      var v := PutKey(w, keys[i], src.fields, src.masks, src.shape);
      OneMoreKeyPut(src.fields, src.masks, w, v, keys, i, src.shape);
      w := v;
    }
    AllKeysPut(src.fields, src.masks, w, keys, src.shape);
    dst.wire := w;
    return None;
  }

  /** The first `n` keys are encoded, and the wildcard bits of the other ordinary keys are clear. */
  ghost predicate PutSoFar(f: Fields, m: Fields, w: Wire, keys: seq<Key>, n: nat, shape: map<string, nat>)
    requires f.Shaped(shape) && m.Shaped(shape) && w.Shaped() && n <= |keys|
  {
    && (forall j :: 0 <= j < n ==> KeyEncoded(keys[j], f, m, w, shape))
    && (forall j :: n <= j < |keys| && keys[j].Plain? ==> !Ignores(w.wildcards, keys[j].plain))
    && IsZero(Unused(w.wildcards))
  }

  lemma NothingPut(f: Fields, m: Fields, w: Wire, keys: seq<Key>, shape: map<string, nat>)
    requires f.Shaped(shape) && m.Shaped(shape) && w.Shaped() && w.wildcards == seq(32, _ => false)
    ensures PutSoFar(f, m, w, keys, 0, shape)
  {
    hide KeyEncoded;
  }

  lemma StillClear(f: Fields, m: Fields, w: Wire, keys: seq<Key>, n: nat, shape: map<string, nat>)
    requires f.Shaped(shape) && m.Shaped(shape) && w.Shaped() && n < |keys| && PutSoFar(f, m, w, keys, n, shape)
    ensures keys[n].Plain? ==> !Ignores(w.wildcards, keys[n].plain)
  {
    hide KeyEncoded;
  }

  lemma OneMoreKeyPut(f: Fields, m: Fields, w: Wire, v: Wire, keys: seq<Key>, n: nat, shape: map<string, nat>)
    requires f.Shaped(shape) && m.Shaped(shape) && w.Shaped() && v.Shaped() && n < |keys| && Lists(keys)
    requires PutSoFar(f, m, w, keys, n, shape) && KeyEncoded(keys[n], f, m, v, shape) && SameWireBut(w, v, keys[n])
    ensures PutSoFar(f, m, v, keys, n + 1, shape)
  {
    hide Ignores, IgnoredBits, Counts, AllZero, IsZero, Narrow;
    forall j | 0 <= j < n + 1 ensures KeyEncoded(keys[j], f, m, v, shape) {
      if j < n {
        assert KeyEncoded(keys[j], f, m, w, shape) && keys[j] != keys[n];
      }
    }
  }

  lemma AllKeysPut(f: Fields, m: Fields, w: Wire, keys: seq<Key>, shape: map<string, nat>)
    requires f.Shaped(shape) && m.Shaped(shape) && w.Shaped() && Lists(keys) && PutSoFar(f, m, w, keys, |keys|, shape)
    ensures Encodes(f, m, w, shape)
  {
    hide KeyEncoded;
    forall key: Key ensures KeyEncoded(key, f, m, w, shape) {
      assert key in keys;
    }
  }

  // --- wire to unified -------------------------------------------------------------------------------------------

  function Widen(key: PlainKey, value: seq<bv8>): (r: seq<bv8>)
    requires |value| == WireWidth(key)
    ensures |r| == Width(key) && r == if key == InPort then [0, 0] + value else value
  {
    Filled(Width(key) - WireWidth(key), 0) + value
  }

  /** One key of the decoded match: an ordinary one is absent or exact, an address is cut to its prefix. */
  ghost predicate KeyDecoded(key: Key, w: Wire, f: Fields, m: Fields, shape: map<string, nat>)
    requires f.Shaped(shape) && m.Shaped(shape) && w.Shaped()
  {
    match key
    case Plain(k) =>
      if Ignores(w.wildcards, k) then
        AllZero(f.plain[k]) && AllZero(m.plain[k])
      else
        f.plain[k] == Widen(k, w.plain[k]) && AllOnes(m.plain[k])
    case Addr(k) =>
      m.addr[k] == IndexToMask(IgnoredBits(w.wildcards, k)) && f.addr[k] == And(w.addr[k], m.addr[k])
  }

  /** What `of_match_v1_to_match` leaves in the unified match. */
  ghost predicate Decodes(w: Wire, f: Fields, m: Fields, shape: map<string, nat>)
    requires f.Shaped(shape) && m.Shaped(shape) && w.Shaped()
  {
    (forall key: Key :: KeyDecoded(key, w, f, m, shape)) && OnlyV1Keys(f) && OnlyV1Keys(m)
  }

  function NoBits(key: AddrKey): Word {
    seq(32, _ => false)
  }

  function Cleared(shape: map<string, nat>): (f: Fields)
    ensures f.Shaped(shape) && OnlyV1Keys(f) && forall k: PlainKey :: AllZero(f.plain[k])
  {
    Fields(map k: PlainKey | true :: Filled(Width(k), 0), map k: AddrKey | true :: NoBits(k), map k | k in shape :: Filled(shape[k], 0))
  }

  ghost predicate SameFieldsBut(f: Fields, g: Fields, key: Key, shape: map<string, nat>)
    requires f.Shaped(shape) && g.Shaped(shape)
  {
    && (forall k: PlainKey :: Plain(k) != key ==> f.plain[k] == g.plain[k])
    && (forall k: AddrKey :: Addr(k) != key ==> f.addr[k] == g.addr[k])
    && f.others == g.others
  }

  /** The statement generated for an ordinary key, whose destination member is still clear. */
  method TakePlain(w: Wire, k: PlainKey, f: Fields, m: Fields, shape: map<string, nat>) returns (g: Fields, n: Fields)
    requires w.Shaped() && f.Shaped(shape) && m.Shaped(shape) && AllZero(f.plain[k]) && AllZero(m.plain[k])
    ensures g.Shaped(shape) && n.Shaped(shape) && KeyDecoded(Plain(k), w, g, n, shape)
    ensures SameFieldsBut(f, g, Plain(k), shape) && SameFieldsBut(m, n, Plain(k), shape)
  {
    g, n := f, m;
    if !TestBit(w.wildcards, k) {
      g := g.(plain := g.plain[k := Widen(k, w.plain[k])]);
      n := n.(plain := n.plain[k := Filled(Width(k), 0xff)]);
    }
  }

  /** The statements generated for an IPv4 address. */
  method TakeAddr(w: Wire, k: AddrKey, f: Fields, m: Fields, shape: map<string, nat>) returns (g: Fields, n: Fields)
    requires w.Shaped() && f.Shaped(shape) && m.Shaped(shape)
    ensures g.Shaped(shape) && n.Shaped(shape) && KeyDecoded(Addr(k), w, g, n, shape)
    ensures SameFieldsBut(f, g, Addr(k), shape) && SameFieldsBut(m, n, Addr(k), shape)
  {
    n := m.(addr := m.addr[k := IndexToMask(GetCount(w.wildcards, k))]);
    g := f.(addr := f.addr[k := w.addr[k]]);
    g := g.(addr := g.addr[k := And(g.addr[k], n.addr[k])]);
  }

  /** `of_match_v1_to_match`. */
  method FromWire(src: WireMatch, dst: UnifiedMatch, keys: seq<Key>)
    requires src.Valid() && Lists(keys)
    modifies dst
    ensures dst.Valid() && dst.version == src.version
    ensures Decodes(src.wire, dst.fields, dst.masks, dst.shape)
  {
    dst.fields, dst.masks := Cleared(dst.shape), Cleared(dst.shape);
    dst.version := src.version;
    var w := src.wire;
    for i := 0 to |keys|
      invariant dst.Valid() && dst.version == src.version && OnlyV1Keys(dst.fields) && OnlyV1Keys(dst.masks)
      invariant forall j :: 0 <= j < i ==> KeyDecoded(keys[j], w, dst.fields, dst.masks, dst.shape)
      invariant forall k: PlainKey :: Plain(k) !in keys[..i] ==> AllZero(dst.fields.plain[k]) && AllZero(dst.masks.plain[k])
    {
      var f, m;
      match keys[i] {
        case Plain(k) => f, m := TakePlain(w, k, dst.fields, dst.masks, dst.shape);
        case Addr(k) => f, m := TakeAddr(w, k, dst.fields, dst.masks, dst.shape);
      }
      forall j | 0 <= j < i
        ensures KeyDecoded(keys[j], w, f, m, dst.shape)
      {
        assert KeyDecoded(keys[j], w, dst.fields, dst.masks, dst.shape) && keys[j] != keys[i];
      }
      dst.fields, dst.masks := f, m;
    }
    forall key: Key ensures KeyDecoded(key, w, dst.fields, dst.masks, dst.shape) {
      assert key in keys;
    }
  }

  // --- what the conversions preserve -------------------------------------------------------------------------------

  /** The packets a unified match accepts; a packet is given by its header fields. */
  ghost predicate Accepts(f: Fields, m: Fields, p: Fields, shape: map<string, nat>)
    requires f.Shaped(shape) && m.Shaped(shape) && p.Shaped(shape)
  {
    && (forall k: PlainKey :: BytesAccept(f.plain[k], m.plain[k], p.plain[k]))
    && (forall k: AddrKey :: And(p.addr[k], m.addr[k]) == And(f.addr[k], m.addr[k]))
    && forall k :: k in shape ==> BytesAccept(f.others[k], m.others[k], p.others[k])
  }

  ghost predicate BytesAccept(field: seq<bv8>, mask: seq<bv8>, packet: seq<bv8>)
    requires |field| == |mask| == |packet|
  {
    FlowSpace.Match(field, mask).Accepts(packet)
  }

  /** The packets an OpenFlow 1.0 match accepts: a field is ignored when its bit is set, and of an IPv4 address the
      counted low bits are ignored, all of them from 32 on. */
  ghost predicate WireAccepts(w: Wire, p: Fields, shape: map<string, nat>)
    requires w.Shaped() && p.Shaped(shape)
  {
    && (forall k: PlainKey :: Ignores(w.wildcards, k) || p.plain[k] == Widen(k, w.plain[k]))
    && forall k: AddrKey :: PrefixAgrees(IgnoredBits(w.wildcards, k), w.addr[k], p.addr[k])
  }

  ghost predicate PrefixAgrees(count: nat, a: Word, b: Word) {
    forall i :: count <= i < 32 ==> a[i] == b[i]
  }

  lemma BytesUnderUniformMask(field: seq<bv8>, mask: seq<bv8>, packet: seq<bv8>)
    requires |field| == |mask| == |packet|
    ensures AllZero(mask) ==> BytesAccept(field, mask, packet)
    ensures AllOnes(mask) ==> (BytesAccept(field, mask, packet) <==> packet == field)
  {
    forall i | 0 <= i < |packet|
      ensures mask[i] == 0 ==> FlowSpace.AcceptsByte(field[i], mask[i], packet[i])
      ensures mask[i] == 0xff ==> (FlowSpace.AcceptsByte(field[i], mask[i], packet[i]) <==> packet[i] == field[i])
    {
      ByteUnderUniformMask(field[i], packet[i]);
    }
  }

  lemma ByteUnderUniformMask(f: bv8, p: bv8)
    ensures FlowSpace.AcceptsByte(f, 0, p)
    ensures FlowSpace.AcceptsByte(f, 0xff, p) <==> p == f
  {}

  lemma InactiveAccept(f: Fields, m: Fields, p: Fields, shape: map<string, nat>)
    requires f.Shaped(shape) && m.Shaped(shape) && p.Shaped(shape) && OnlyV1Keys(m)
    ensures forall k :: k in shape ==> BytesAccept(f.others[k], m.others[k], p.others[k])
  {
    forall k | k in shape
      ensures BytesAccept(f.others[k], m.others[k], p.others[k])
    {
      BytesUnderUniformMask(f.others[k], m.others[k], p.others[k]);
    }
  }

  lemma PrefixAgreesIsMasked(count: nat, a: Word, b: Word)
    ensures PrefixAgrees(count, a, b) <==> And(b, IndexToMask(count)) == And(a, IndexToMask(count))
  {
    if And(b, IndexToMask(count)) == And(a, IndexToMask(count)) {
      forall i | count <= i < 32 ensures a[i] == b[i] {
        assert And(b, IndexToMask(count))[i] == And(a, IndexToMask(count))[i];
      }
    }
  }

  /** Decoding is faithful to the wire format: both matches accept the same packets. */
  lemma DecodedMeaning(w: Wire, f: Fields, m: Fields, p: Fields, shape: map<string, nat>)
    requires w.Shaped() && f.Shaped(shape) && m.Shaped(shape) && p.Shaped(shape)
    requires Decodes(w, f, m, shape)
    ensures Accepts(f, m, p, shape) <==> WireAccepts(w, p, shape)
  {
    hide Ignores, IgnoredBits, Widen, PrefixAgrees, BytesAccept, AllZero, AllOnes, And, IndexToMask, OnlyV1Keys;
    InactiveAccept(f, m, p, shape);
    forall k: PlainKey
      ensures BytesAccept(f.plain[k], m.plain[k], p.plain[k]) <==>
              Ignores(w.wildcards, k) || p.plain[k] == Widen(k, w.plain[k])
    {
      assert KeyDecoded(Plain(k), w, f, m, shape);
      BytesUnderUniformMask(f.plain[k], m.plain[k], p.plain[k]);
    }
    forall k: AddrKey
      ensures And(p.addr[k], m.addr[k]) == And(f.addr[k], m.addr[k]) <==>
              PrefixAgrees(IgnoredBits(w.wildcards, k), w.addr[k], p.addr[k])
    {
      assert KeyDecoded(Addr(k), w, f, m, shape);
      assert And(And(w.addr[k], m.addr[k]), m.addr[k]) == And(w.addr[k], m.addr[k]);
      PrefixAgreesIsMasked(IgnoredBits(w.wildcards, k), w.addr[k], p.addr[k]);
    }
  }

  /** Every mask other than the IPv4 ones is all zero or all ones. */
  ghost predicate PlainMasksExact(m: Fields, shape: map<string, nat>)
    requires m.Shaped(shape)
  {
    forall k: PlainKey :: AllZero(m.plain[k]) || AllOnes(m.plain[k])
  }

  /** The value survives being stored in the narrower wire member. */
  ghost predicate Fits(k: PlainKey, value: seq<bv8>)
    requires |value| == Width(k)
    ensures Fits(k, value) <==> Widen(k, Narrow(k, value)) == value
  {
    var n := Width(k) - WireWidth(k);
    assert value == value[..n] + value[n..];
    assert AllZero(value[..n]) <==> value[..n] == Filled(n, 0);
    assert Widen(k, Narrow(k, value))[..n] == Filled(n, 0);
    AllZero(value[..n])
  }

  ghost predicate ActiveFit(f: Fields, m: Fields, shape: map<string, nat>)
    requires f.Shaped(shape) && m.Shaped(shape)
  {
    forall k: PlainKey :: !AllZero(m.plain[k]) ==> Fits(k, f.plain[k])
  }

  lemma EncodedAddr(count: nat, onWire: Word, field: Word, mask: Word, packet: Word)
    requires Counts(mask, count) && (!IsZero(mask) ==> onWire == field)
    ensures And(packet, mask) == And(field, mask) ==> PrefixAgrees(count, onWire, packet)
    ensures Contiguous(mask) && PrefixAgrees(count, onWire, packet) ==> And(packet, mask) == And(field, mask)
  {
    PrefixAgreesIsMasked(count, onWire, packet);
    assert count < 32 ==> mask[31];
    if count >= 32 && Contiguous(mask) {
      assert mask == IndexToMask(32);
    }
  }

  /** Encoding never loses a packet, whatever the IPv4 masks; it gains none when they are contiguous. */
  lemma EncodedMeaning(f: Fields, m: Fields, w: Wire, p: Fields, shape: map<string, nat>)
    requires w.Shaped() && f.Shaped(shape) && m.Shaped(shape) && p.Shaped(shape)
    requires Encodes(f, m, w, shape) && OnlyV1Keys(m) && PlainMasksExact(m, shape) && ActiveFit(f, m, shape)
    ensures Accepts(f, m, p, shape) ==> WireAccepts(w, p, shape)
    ensures (forall k: AddrKey :: Contiguous(m.addr[k])) && WireAccepts(w, p, shape) ==> Accepts(f, m, p, shape)
  {
    InactiveAccept(f, m, p, shape);
    forall k: PlainKey
      ensures BytesAccept(f.plain[k], m.plain[k], p.plain[k]) <==>
              Ignores(w.wildcards, k) || p.plain[k] == Widen(k, w.plain[k])
    {
      assert KeyEncoded(Plain(k), f, m, w, shape);
      BytesUnderUniformMask(f.plain[k], m.plain[k], p.plain[k]);
    }
    forall k: AddrKey
      ensures And(p.addr[k], m.addr[k]) == And(f.addr[k], m.addr[k]) ==>
              PrefixAgrees(IgnoredBits(w.wildcards, k), w.addr[k], p.addr[k])
      ensures Contiguous(m.addr[k]) && PrefixAgrees(IgnoredBits(w.wildcards, k), w.addr[k], p.addr[k]) ==>
              And(p.addr[k], m.addr[k]) == And(f.addr[k], m.addr[k])
    {
      assert KeyEncoded(Addr(k), f, m, w, shape);
      EncodedAddr(IgnoredBits(w.wildcards, k), w.addr[k], f.addr[k], m.addr[k], p.addr[k]);
    }
  }

  /** A match on the destination port alone: its bit 7 is clear, bit 6 of the source port and the bits of all other
      fields are set, both counts are 63, and the unused bits are clear. */
  lemma TcpDstAlone(f: Fields, m: Fields, w: Wire, shape: map<string, nat>)
    requires w.Shaped() && f.Shaped(shape) && m.Shaped(shape) && Encodes(f, m, w, shape)
    requires AllOnes(m.plain[TcpDst]) && forall k: PlainKey :: k != TcpDst ==> AllZero(m.plain[k])
    requires forall k: AddrKey :: IsZero(m.addr[k])
    ensures w.plain[TcpDst] == f.plain[TcpDst]
    ensures forall i :: 0 <= i < 32 ==> w.wildcards[i] == (i < 22 && i != 7)
  {
    forall k: PlainKey ensures Ignores(w.wildcards, k) <==> k != TcpDst {
      assert KeyEncoded(Plain(k), f, m, w, shape);
      assert AllOnes(m.plain[k]) ==> m.plain[k][0] == 0xff;
    }
    assert KeyEncoded(Plain(TcpDst), f, m, w, shape);
    forall k: AddrKey ensures IgnoredBits(w.wildcards, k) == 63 {
      assert KeyEncoded(Addr(k), f, m, w, shape);
      CountOfNone(m.addr[k], IgnoredBits(w.wildcards, k));
    }
    ClearAtOne(w.wildcards);
  }

  lemma CountOfNone(mask: Word, count: nat)
    requires IsZero(mask) && Counts(mask, count)
    ensures count == 63
  {
    assert forall c: nat :: c < 32 ==> IndexToMask(c)[31];
  }

  lemma ClearAtOne(wc: Word)
    requires forall k: PlainKey :: Ignores(wc, k) <==> k != TcpDst
    requires forall k: AddrKey :: IgnoredBits(wc, k) == 63
    requires IsZero(Unused(wc))
    ensures forall i :: 0 <= i < 32 ==> wc[i] == (i < 22 && i != 7)
  {
    assert Ignores(wc, InPort) && Ignores(wc, VlanVid) && Ignores(wc, EthSrc) && Ignores(wc, EthDst) && Ignores(wc, EthType);
    assert Ignores(wc, IpProto) && Ignores(wc, TcpSrc) && !Ignores(wc, TcpDst);
    assert Ignores(wc, VlanPcp) && Ignores(wc, IpDscp);
    assert IgnoredBits(wc, Ipv4Src) == 63 && IgnoredBits(wc, Ipv4Dst) == 63;
    forall i | 22 <= i < 32 ensures !wc[i] {
      assert !Unused(wc)[i - 22];
    }
  }

  /** The round trip through the wire never rejects a packet the original accepted, for any IPv4 masks, and
      accepts the same packets when those masks are contiguous. */
  lemma RoundTripNeverRejects(f: Fields, m: Fields, w: Wire, f': Fields, m': Fields, p: Fields, shape: map<string, nat>)
    requires w.Shaped() && f.Shaped(shape) && m.Shaped(shape) && f'.Shaped(shape) && m'.Shaped(shape) && p.Shaped(shape)
    requires Encodes(f, m, w, shape) && Decodes(w, f', m', shape)
    requires OnlyV1Keys(m) && PlainMasksExact(m, shape) && ActiveFit(f, m, shape)
    ensures Accepts(f, m, p, shape) ==> Accepts(f', m', p, shape)
    ensures (forall k: AddrKey :: Contiguous(m.addr[k])) ==> (Accepts(f, m, p, shape) <==> Accepts(f', m', p, shape))
  {
    EncodedMeaning(f, m, w, p, shape);
    DecodedMeaning(w, f', m', p, shape);
  }

  /** The match keeps exactly its set of packets on the wire when all IPv4 masks are contiguous, and only then. */
  lemma EncodedKeepsExactly(f: Fields, m: Fields, w: Wire, shape: map<string, nat>)
    requires w.Shaped() && f.Shaped(shape) && m.Shaped(shape)
    requires Encodes(f, m, w, shape) && OnlyV1Keys(m) && PlainMasksExact(m, shape) && ActiveFit(f, m, shape)
    ensures (forall p: Fields :: p.Shaped(shape) ==> (Accepts(f, m, p, shape) <==> WireAccepts(w, p, shape)))
            <==> (forall k: AddrKey :: Contiguous(m.addr[k]))
  {
    hide Accepts, WireAccepts, Encodes, OnlyV1Keys, PlainMasksExact, ActiveFit, Contiguous;
    forall p: Fields | p.Shaped(shape) && forall k: AddrKey :: Contiguous(m.addr[k])
      ensures Accepts(f, m, p, shape) <==> WireAccepts(w, p, shape)
    {
      EncodedMeaning(f, m, w, p, shape);
    }
    if k: AddrKey :| !Contiguous(m.addr[k]) {
      var p := PacketGained(f, m, w, shape, k);
    }
  }

  /** A packet that only the wire match accepts: the field itself, but for one bit under the mask. */
  lemma PacketGained(f: Fields, m: Fields, w: Wire, shape: map<string, nat>, k: AddrKey) returns (p: Fields)
    requires w.Shaped() && f.Shaped(shape) && m.Shaped(shape) && !Contiguous(m.addr[k])
    requires Encodes(f, m, w, shape) && OnlyV1Keys(m) && PlainMasksExact(m, shape) && ActiveFit(f, m, shape)
    ensures p.Shaped(shape) && WireAccepts(w, p, shape) && !Accepts(f, m, p, shape)
  {
    hide BytesAccept, PlainMasksExact, ActiveFit, Fits, Ignores, IgnoredBits, Widen, Contiguous;
    AcceptsItself(f, m, shape);
    EncodedMeaning(f, m, w, f, shape);
    var i := MaskedBit(m.addr[k]);
    p := f.(addr := f.addr[k := f.addr[k][i := !f.addr[k][i]]]);
    assert KeyEncoded(Addr(k), f, m, w, shape);
    NoCount(m.addr[k], IgnoredBits(w.wildcards, k));
    assert And(p.addr[k], m.addr[k])[i] != And(f.addr[k], m.addr[k])[i];
  }

  lemma AcceptsItself(f: Fields, m: Fields, shape: map<string, nat>)
    requires f.Shaped(shape) && m.Shaped(shape)
    ensures Accepts(f, m, f, shape)
  {}

  lemma MaskedBit(mask: Word) returns (i: nat)
    requires !Contiguous(mask)
    ensures i < 32 && mask[i]
  {
    assert IsZero(mask) ==> mask == IndexToMask(32);
    i :| i < 32 && mask[i];
  }

  lemma NoCount(mask: Word, count: nat)
    requires Counts(mask, count) && !Contiguous(mask)
    ensures count == 63
  {}

  /** So does the round trip. */
  lemma RoundTripKeepsExactly(f: Fields, m: Fields, w: Wire, f': Fields, m': Fields, shape: map<string, nat>)
    requires w.Shaped() && f.Shaped(shape) && m.Shaped(shape) && f'.Shaped(shape) && m'.Shaped(shape)
    requires Encodes(f, m, w, shape) && Decodes(w, f', m', shape)
    requires OnlyV1Keys(m) && PlainMasksExact(m, shape) && ActiveFit(f, m, shape)
    ensures (forall p: Fields :: p.Shaped(shape) ==> (Accepts(f, m, p, shape) <==> Accepts(f', m', p, shape)))
            <==> (forall k: AddrKey :: Contiguous(m.addr[k]))
  {
    hide Accepts, WireAccepts, Encodes, Decodes, OnlyV1Keys, PlainMasksExact, ActiveFit, Contiguous;
    EncodedKeepsExactly(f, m, w, shape);
    forall p: Fields | p.Shaped(shape) ensures Accepts(f', m', p, shape) <==> WireAccepts(w, p, shape) {
      DecodedMeaning(w, f', m', p, shape);
    }
  }

  // --- identity ------------------------------------------------------------------------------------------------------

  /** An ordinary key survives: its mask is all zero over a zero value, or all ones over a value that fits. */
  ghost predicate PlainSurvives(k: PlainKey, field: seq<bv8>, mask: seq<bv8>)
    requires |field| == |mask| == Width(k)
  {
    if AllZero(mask) then AllZero(field) else AllOnes(mask) && Fits(k, field)
  }

  ghost predicate AddrSurvives(field: Word, mask: Word) {
    Contiguous(mask) && And(field, mask) == field
  }

  /** What a match must satisfy to survive the round trip: exact masks except for contiguous IPv4 masks, no
      value bit outside its mask, and values that fit the wire. */
  ghost predicate Representable(f: Fields, m: Fields, shape: map<string, nat>)
    requires f.Shaped(shape) && m.Shaped(shape)
  {
    && (forall k: PlainKey :: PlainSurvives(k, f.plain[k], m.plain[k]))
    && (forall k: AddrKey :: AddrSurvives(f.addr[k], m.addr[k]))
    && OnlyV1Keys(f)
  }

  lemma PlainRoundTrip(k: PlainKey, f: Fields, m: Fields, w: Wire, f': Fields, m': Fields, shape: map<string, nat>)
    requires w.Shaped() && f.Shaped(shape) && m.Shaped(shape) && f'.Shaped(shape) && m'.Shaped(shape)
    requires KeyEncoded(Plain(k), f, m, w, shape) && KeyDecoded(Plain(k), w, f', m', shape)
    ensures f'.plain[k] == f.plain[k] && m'.plain[k] == m.plain[k] <==> PlainSurvives(k, f.plain[k], m.plain[k])
  {
    UniformBytesEqual(f'.plain[k], f.plain[k]);
    UniformBytesEqual(m'.plain[k], m.plain[k]);
  }

  lemma AddrRoundTrip(k: AddrKey, f: Fields, m: Fields, w: Wire, f': Fields, m': Fields, shape: map<string, nat>)
    requires w.Shaped() && f.Shaped(shape) && m.Shaped(shape) && f'.Shaped(shape) && m'.Shaped(shape)
    requires KeyEncoded(Addr(k), f, m, w, shape) && KeyDecoded(Addr(k), w, f', m', shape)
    ensures f'.addr[k] == f.addr[k] && m'.addr[k] == m.addr[k] <==> AddrSurvives(f.addr[k], m.addr[k])
  {
    var count, mask := IgnoredBits(w.wildcards, k), m.addr[k];
    assert count < 32 ==> mask[31];
    if count >= 32 {
      assert IndexToMask(count) == IndexToMask(32);
      if Contiguous(mask) {
        assert mask == IndexToMask(32);
        assert IsZero(f'.addr[k]);
        assert IsZero(And(f.addr[k], mask));
        assert f'.addr[k] == And(f.addr[k], mask);
      }
    }
  }

  lemma ClearedOthers(f: Fields, f': Fields, shape: map<string, nat>)
    requires f.Shaped(shape) && f'.Shaped(shape) && OnlyV1Keys(f')
    ensures f'.others == f.others <==> OnlyV1Keys(f)
  {
    if OnlyV1Keys(f) {
      forall k | k in shape
        ensures f'.others[k] == f.others[k]
      {
        UniformBytesEqual(f'.others[k], f.others[k]);
      }
    }
  }

  lemma SameFields(f: Fields, g: Fields, shape: map<string, nat>)
    requires f.Shaped(shape) && g.Shaped(shape)
    ensures f == g <==>
            (forall k: PlainKey :: f.plain[k] == g.plain[k]) && (forall k: AddrKey :: f.addr[k] == g.addr[k]) && f.others == g.others
  {
    assert f.plain == g.plain <==> forall k: PlainKey :: f.plain[k] == g.plain[k];
    assert f.addr == g.addr <==> forall k: AddrKey :: f.addr[k] == g.addr[k];
  }

  /** The round trip is the identity for exactly the representable matches. */
  lemma RoundTripIsIdentity(f: Fields, m: Fields, w: Wire, f': Fields, m': Fields, shape: map<string, nat>)
    requires w.Shaped() && f.Shaped(shape) && m.Shaped(shape) && f'.Shaped(shape) && m'.Shaped(shape)
    requires Encodes(f, m, w, shape) && Decodes(w, f', m', shape) && OnlyV1Keys(m)
    ensures f' == f && m' == m <==> Representable(f, m, shape)
  {
    ClearedOthers(f, f', shape);
    ClearedOthers(m, m', shape);
    SameFields(f', f, shape);
    SameFields(m', m, shape);
    forall k: PlainKey
      ensures f'.plain[k] == f.plain[k] && m'.plain[k] == m.plain[k] <==> PlainSurvives(k, f.plain[k], m.plain[k])
    {
      assert KeyEncoded(Plain(k), f, m, w, shape) && KeyDecoded(Plain(k), w, f', m', shape);
      PlainRoundTrip(k, f, m, w, f', m', shape);
    }
    forall k: AddrKey
      ensures f'.addr[k] == f.addr[k] && m'.addr[k] == m.addr[k] <==> AddrSurvives(f.addr[k], m.addr[k])
    {
      assert KeyEncoded(Addr(k), f, m, w, shape) && KeyDecoded(Addr(k), w, f', m', shape);
      AddrRoundTrip(k, f, m, w, f', m', shape);
    }
  }

  /** Both conversions one after the other: identity for exactly the representable matches. */
  method RoundTrip(src: UnifiedMatch, wire: WireMatch, dst: UnifiedMatch, keys: seq<Key>, others: seq<string>) returns (rv: Status)
    requires src.Valid() && wire.Valid() && src != dst && src.shape == dst.shape && Lists(keys)
    requires forall k :: k in others <==> k in src.masks.others
    modifies wire, dst
    ensures rv == None <==> OnlyV1Keys(src.masks)
    ensures rv == None ==> dst.Valid()
    ensures rv == None ==>
      (dst.fields == src.fields && dst.masks == src.masks <==> Representable(src.fields, src.masks, src.shape))
  {
    rv := ToWire(src, wire, keys, others);
    if rv == None {
      FromWire(wire, dst, keys);
      RoundTripIsIdentity(src.fields, src.masks, wire.wire, dst.fields, dst.masks, src.shape);
    }
  }
}

/** Flow-space comparison of two unified matches, as the generated C decides it byte by byte.

    The reference meaning of a match is the set of packets it accepts: a packet is the byte image of
    the same fields structure, and it is accepted when it agrees with the match on every masked bit. */
module FlowSpace {

  type Byte = bv8

  /** The fields and masks structures of a match, seen as the byte arrays the comparison code reads. */
  datatype Match = Match(fields: seq<Byte>, masks: seq<Byte>) {
    ghost predicate Sized(n: nat) {
      |fields| == n && |masks| == n
    }

    ghost predicate Accepts(packet: seq<Byte>)
      requires |fields| == |masks| == |packet|
    {
      forall i :: 0 <= i < |packet| ==> AcceptsByte(fields[i], masks[i], packet[i])
    }
  }

  predicate AcceptsByte(field: Byte, mask: Byte, packet: Byte) {
    packet & mask == field & mask
  }

  /** Every packet accepted by `entry` is accepted by `query`. */
  ghost predicate Within(n: nat, entry: Match, query: Match)
    requires entry.Sized(n) && query.Sized(n)
  {
    forall p: seq<Byte> :: |p| == n && entry.Accepts(p) ==> query.Accepts(p)
  }

  /** Some packet is accepted by both. */
  ghost predicate Meet(n: nat, a: Match, b: Match)
    requires a.Sized(n) && b.Sized(n)
  {
    exists p: seq<Byte> :: |p| == n && a.Accepts(p) && b.Accepts(p)
  }

  /** The two tests of `of_match_more_specific` at one byte position, both passed. */
  predicate ByteWithin(ef: Byte, em: Byte, qf: Byte, qm: Byte) {
    qm & !em == 0 && (qf ^ ef) & qm == 0
  }

  /** The test of `of_match_overlap` at one byte position, passed. */
  predicate ByteMeets(f1: Byte, m1: Byte, f2: Byte, m2: Byte) {
    (f1 ^ f2) & (m1 & m2) == 0
  }

  /** A packet byte accepted by (ef, em) and, when the two bytes are not ordered, refused by (qf, qm). */
  function Separator(ef: Byte, em: Byte, qf: Byte): Byte {
    (ef & em) | (!qf & !em)
  }

  /** A packet byte accepted by both when they agree where both masks are set. */
  function Join(af: Byte, am: Byte, bf: Byte, bm: Byte): Byte {
    (af & am) | (bf & bm)
  }

  lemma SeparatorSplits(ef: Byte, em: Byte, qf: Byte, qm: Byte)
    ensures AcceptsByte(ef, em, Separator(ef, em, qf))
    ensures !ByteWithin(ef, em, qf, qm) ==> !AcceptsByte(qf, qm, Separator(ef, em, qf))
  {}

  lemma OrderedBytes(ef: Byte, em: Byte, qf: Byte, qm: Byte, p: Byte)
    requires ByteWithin(ef, em, qf, qm) && AcceptsByte(ef, em, p)
    ensures AcceptsByte(qf, qm, p)
  {}

  lemma JoinAccepted(af: Byte, am: Byte, bf: Byte, bm: Byte)
    requires ByteMeets(af, am, bf, bm)
    ensures AcceptsByte(af, am, Join(af, am, bf, bm)) && AcceptsByte(bf, bm, Join(af, am, bf, bm))
  {}

  lemma DisagreeingBytes(af: Byte, am: Byte, bf: Byte, bm: Byte, p: Byte)
    requires !ByteMeets(af, am, bf, bm) && AcceptsByte(af, am, p)
    ensures !AcceptsByte(bf, bm, p)
  {}

  /** Inclusion of flow spaces is decided by the bytes: one unordered position lets a packet escape. */
  lemma WithinIsBytewise(n: nat, entry: Match, query: Match)
    requires entry.Sized(n) && query.Sized(n)
    ensures Within(n, entry, query) <==>
            forall i :: 0 <= i < n ==> ByteWithin(entry.fields[i], entry.masks[i], query.fields[i], query.masks[i])
  {
    if i :| 0 <= i < n && !ByteWithin(entry.fields[i], entry.masks[i], query.fields[i], query.masks[i]) {
      var p := entry.fields[i := Separator(entry.fields[i], entry.masks[i], query.fields[i])];
      SeparatorSplits(entry.fields[i], entry.masks[i], query.fields[i], query.masks[i]);
      assert entry.Accepts(p);
      assert !AcceptsByte(query.fields[i], query.masks[i], p[i]);
    } else {
      forall p: seq<Byte>, i | |p| == n && entry.Accepts(p) && 0 <= i < n
        ensures AcceptsByte(query.fields[i], query.masks[i], p[i])
      {
        OrderedBytes(entry.fields[i], entry.masks[i], query.fields[i], query.masks[i], p[i]);
      }
    }
  }

  /** Intersection of flow spaces is decided by the bytes. */
  lemma MeetIsBytewise(n: nat, a: Match, b: Match)
    requires a.Sized(n) && b.Sized(n)
    ensures Meet(n, a, b) <==>
            forall i :: 0 <= i < n ==> ByteMeets(a.fields[i], a.masks[i], b.fields[i], b.masks[i])
  {
    if i :| 0 <= i < n && !ByteMeets(a.fields[i], a.masks[i], b.fields[i], b.masks[i]) {
      forall p: seq<Byte> | |p| == n && a.Accepts(p)
        ensures !b.Accepts(p)
      {
        assert AcceptsByte(a.fields[i], a.masks[i], p[i]);
        DisagreeingBytes(a.fields[i], a.masks[i], b.fields[i], b.masks[i], p[i]);
      }
    } else {
      var p := seq(n, i requires 0 <= i < n => Join(a.fields[i], a.masks[i], b.fields[i], b.masks[i]));
      forall i | 0 <= i < n
        ensures AcceptsByte(a.fields[i], a.masks[i], p[i]) && AcceptsByte(b.fields[i], b.masks[i], p[i])
      {
        JoinAccepted(a.fields[i], a.masks[i], b.fields[i], b.masks[i]);
      }
      assert a.Accepts(p) && b.Accepts(p);
    }
  }

  /** `of_match_more_specific`: byte scan with early return. It decides inclusion of flow spaces. */
  method MoreSpecific(ef: array<Byte>, em: array<Byte>, qf: array<Byte>, qm: array<Byte>) returns (r: bool)
    requires ef.Length == em.Length == qf.Length == qm.Length
    ensures r <==> Within(ef.Length, Match(ef[..], em[..]), Match(qf[..], qm[..]))
  {
    WithinIsBytewise(ef.Length, Match(ef[..], em[..]), Match(qf[..], qm[..]));
    for i := 0 to ef.Length
      invariant forall k :: 0 <= k < i ==> ByteWithin(ef[..][k], em[..][k], qf[..][k], qm[..][k])
    {
      if qm[i] & !em[i] != 0 {
        assert !ByteWithin(ef[..][i], em[..][i], qf[..][i], qm[..][i]);
        return false;
      }
      if (qf[i] ^ ef[i]) & qm[i] != 0 {
        assert !ByteWithin(ef[..][i], em[..][i], qf[..][i], qm[..][i]);
        return false;
      }
    }
    return true;
  }

  /** `of_match_overlap`: byte scan with early return. It decides whether the flow spaces intersect. */
  method Overlap(f1: array<Byte>, m1: array<Byte>, f2: array<Byte>, m2: array<Byte>) returns (r: bool)
    requires f1.Length == m1.Length == f2.Length == m2.Length
    ensures r <==> Meet(f1.Length, Match(f1[..], m1[..]), Match(f2[..], m2[..]))
  {
    MeetIsBytewise(f1.Length, Match(f1[..], m1[..]), Match(f2[..], m2[..]));
    for i := 0 to f1.Length
      invariant forall k :: 0 <= k < i ==> ByteMeets(f1[..][k], m1[..][k], f2[..][k], m2[..][k])
    {
      if (f1[i] ^ f2[i]) & (m1[i] & m2[i]) != 0 {
        assert !ByteMeets(f1[..][i], m1[..][i], f2[..][i], m2[..][i]);
        return false;
      }
    }
    return true;
  }

  /** Flow-space algebra: inclusion is a preorder, it implies overlap, and overlap survives widening. */
  lemma WithinIsAPreorderBelowOverlap(n: nat, a: Match, b: Match, c: Match)
    requires a.Sized(n) && b.Sized(n) && c.Sized(n)
    ensures Within(n, a, a)
    ensures Within(n, a, b) && Within(n, b, c) ==> Within(n, a, c)
    ensures Within(n, a, b) ==> Meet(n, a, b)
    ensures Meet(n, a, c) && Within(n, a, b) ==> Meet(n, b, c)
    ensures Meet(n, a, b) <==> Meet(n, b, a)
  {}

  /** Mutual inclusion is agreement of the masks and of the masked bits: no two flow spaces coincide
      for matches that differ on what they look at. */
  lemma SameSpaceIsSameMaskedBits(n: nat, a: Match, b: Match)
    requires a.Sized(n) && b.Sized(n)
    ensures Within(n, a, b) && Within(n, b, a) <==>
            a.masks == b.masks && forall i :: 0 <= i < n ==> a.fields[i] & a.masks[i] == b.fields[i] & b.masks[i]
  {
    WithinIsBytewise(n, a, b);
    WithinIsBytewise(n, b, a);
    forall i | 0 <= i < n
      ensures ByteWithin(a.fields[i], a.masks[i], b.fields[i], b.masks[i]) &&
              ByteWithin(b.fields[i], b.masks[i], a.fields[i], a.masks[i]) <==>
              a.masks[i] == b.masks[i] && a.fields[i] & a.masks[i] == b.fields[i] & b.masks[i]
    {
      EqualBytes(a.fields[i], a.masks[i], b.fields[i], b.masks[i]);
    }
  }

  lemma EqualBytes(af: Byte, am: Byte, bf: Byte, bm: Byte)
    ensures ByteWithin(af, am, bf, bm) && ByteWithin(bf, bm, af, am) <==> am == bm && af & am == bf & bm
  {}
}

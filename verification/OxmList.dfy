/** Conversion of a unified match to an OXM list and back, and the key order the encoder relies on.

    An OXM entry carries a value, with or without a mask (section A.2.3 of the OpenFlow Switch Specification
    1.2). Values and masks are byte strings of the key's width. */
module OxmList {
  import opened Bytes

  // --- the key table -------------------------------------------------------------------------------------

  /** What the table builder reads of a unified class: whether it is an OXM class, its type_len value, the width of its
      value member and the wire versions it is in. */
  datatype UnifiedClass = UnifiedClass(name: string, isOxm: bool, typeLen: nat, width: nat, versions: seq<nat>)

  /** A key: the name of its class without the prefix. */
  datatype OxmClass = OxmClass(name: string, typeLen: nat, width: nat)

  predicate EndsWith(s: string, tail: string) {
    |tail| <= |s| && s[|s| - |tail|..] == tail
  }

  /** The unmasked OXM classes, but for their common superclass. */
  predicate IsKey(c: UnifiedClass) {
    c.isOxm && c.name != "of_oxm" && !EndsWith(c.name, "_masked")
  }

  function KeyOf(c: UnifiedClass): OxmClass {
    OxmClass(if |c.name| < 7 then "" else c.name[7..], c.typeLen, c.width)
  }

  /** A class named `of_oxm_x` is the key `x`, unless its name ends as those of masked classes do. */
  lemma KeyNames(c: UnifiedClass, x: string)
    ensures c.name == "of_oxm_" + x ==> KeyOf(c).name == x
    ensures c.name == "of_oxm_" + x ==> (IsKey(c) <==> c.isOxm && (|c.name| < 7 || c.name[|c.name| - 7..] != "_masked"))
    ensures c.name == "of_oxm" || c.name == "of_oxm_" + x + "_masked" || !c.isOxm ==> !IsKey(c)
    ensures KeyOf(c).typeLen == c.typeLen && KeyOf(c).width == c.width
  {
    if c.name == "of_oxm_" + x {
      assert c.name[7..] == x;
    }
    if c.name == "of_oxm_" + x + "_masked" {
      assert c.name[|c.name| - 7..] == "_masked";
    }
  }

  function Keys(classes: seq<UnifiedClass>): (keys: seq<OxmClass>)
    ensures forall k :: k in keys <==> exists c :: c in classes && IsKey(c) && KeyOf(c) == k
  {
    if classes == [] then
      []
    else
      var front, last := Keys(classes[..|classes| - 1]), classes[|classes| - 1];
      if IsKey(last) then front + [KeyOf(last)] else front
  }

  /** OpenFlow Basic keys are ordered by the low half of type_len, all others by the whole of it. */
  function Order(typeLen: nat): nat {
    if typeLen / 0x1_0000 == 0x8000 then typeLen % 0x1_0000 else typeLen
  }

  ghost predicate Ordered(keys: seq<OxmClass>) {
    forall i, j :: 0 <= i < j < |keys| ==> Order(keys[i].typeLen) <= Order(keys[j].typeLen)
  }

  /** Insertion of one more key before the keys that must not come before it. */
  function Insert(key: OxmClass, sorted: seq<OxmClass>): seq<OxmClass> {
    if sorted == [] || Order(key.typeLen) <= Order(sorted[0].typeLen) then
      [key] + sorted
    else
      [sorted[0]] + Insert(key, sorted[1..])
  }

  lemma {:induction false} InsertAdds(key: OxmClass, sorted: seq<OxmClass>)
    ensures multiset(Insert(key, sorted)) == multiset(sorted) + multiset{key}
  {
    if sorted != [] && Order(key.typeLen) > Order(sorted[0].typeLen) {
      assert sorted == [sorted[0]] + sorted[1..];
      InsertAdds(key, sorted[1..]);
    }
  }

  lemma {:induction false} InsertKeepsOrder(key: OxmClass, sorted: seq<OxmClass>)
    requires Ordered(sorted)
    ensures Ordered(Insert(key, sorted))
  {
    if sorted != [] && Order(key.typeLen) > Order(sorted[0].typeLen) {
      var rest := Insert(key, sorted[1..]);
      InsertKeepsOrder(key, sorted[1..]);
      InsertAdds(key, sorted[1..]);
      forall j | 0 <= j < |rest| ensures Order(sorted[0].typeLen) <= Order(rest[j].typeLen) {
        assert rest[j] in multiset(rest);
        assert rest[j] == key || rest[j] in sorted[1..];
      }
    }
  }

  /** The keys sorted by their order, equal orders staying in insertion order. */
  function Sort(keys: seq<OxmClass>): (r: seq<OxmClass>)
    ensures multiset(r) == multiset(keys) && Ordered(r)
  {
    if keys == [] then
      []
    else
      assert keys == [keys[0]] + keys[1..];
      InsertAdds(keys[0], Sort(keys[1..]));
      InsertKeepsOrder(keys[0], Sort(keys[1..]));
      Insert(keys[0], Sort(keys[1..]))
  }

  /** The keys of one order, in the order of the list. */
  function OfOrder(keys: seq<OxmClass>, order: nat): seq<OxmClass> {
    if keys == [] then []
    else if Order(keys[0].typeLen) == order then [keys[0]] + OfOrder(keys[1..], order)
    else OfOrder(keys[1..], order)
  }

  lemma {:induction false} InsertIsStable(key: OxmClass, sorted: seq<OxmClass>, order: nat)
    ensures OfOrder(Insert(key, sorted), order) == OfOrder([key] + sorted, order)
  {
    if sorted != [] && Order(key.typeLen) > Order(sorted[0].typeLen) {
      InsertIsStable(key, sorted[1..], order);
      assert Insert(key, sorted)[1..] == Insert(key, sorted[1..]);
      assert ([key] + sorted)[1..] == sorted && ([key] + sorted[1..])[1..] == sorted[1..];
    }
  }

  /** The sort is stable: keys of equal order stay in their order. */
  lemma {:induction false} SortIsStable(keys: seq<OxmClass>, order: nat)
    ensures OfOrder(Sort(keys), order) == OfOrder(keys, order)
  {
    if keys != [] {
      SortIsStable(keys[1..], order);
      InsertIsStable(keys[0], Sort(keys[1..]), order);
      assert ([keys[0]] + Sort(keys[1..]))[1..] == Sort(keys[1..]);
    }
  }

  ghost predicate DistinctNames(keys: seq<OxmClass>) {
    forall i, j :: 0 <= i < j < |keys| ==> keys[i].name != keys[j].name
  }

  /** The names of the keys that are in a version, in order. */
  function NamesIn(classes: seq<UnifiedClass>, v: nat): (names: seq<string>)
    ensures forall x :: x in names <==> exists c :: c in classes && IsKey(c) && v in c.versions && KeyOf(c).name == x
  {
    if classes == [] then
      []
    else
      var front, last := NamesIn(classes[..|classes| - 1], v), classes[|classes| - 1];
      if IsKey(last) && v in last.versions then front + [KeyOf(last).name] else front
  }

  /** The table has a list for each of the versions, and the name is in none of these. */
  ghost predicate IsFree(table: map<nat, seq<string>>, name: string, versions: seq<nat>) {
    forall v :: v in versions ==> v in table && name !in table[v]
  }

  ghost predicate AllFree(table: map<nat, seq<string>>, classes: seq<UnifiedClass>) {
    forall c :: c in classes && IsKey(c) ==> IsFree(table, KeyOf(c).name, c.versions)
  }

  ghost predicate DistinctVersions(classes: seq<UnifiedClass>) {
    forall c :: c in classes ==> forall i, j :: 0 <= i < j < |c.versions| ==> c.versions[i] != c.versions[j]
  }

  /** The tables that `build` fills: the members in insertion order and in the standard order, and the names of the keys of
      each wire version. */
  class MatchKeys {
    var members: seq<OxmClass>
    var byVersion: map<nat, seq<string>>
    var sorted: seq<OxmClass>

    ghost predicate Valid()
      reads this
    {
      DistinctNames(members) && multiset(sorted) == multiset(members) && Ordered(sorted)
    }

    constructor (byVersion: map<nat, seq<string>>)
      ensures Valid() && members == [] && this.byVersion == byVersion
    {
      members, sorted := [], [];
      this.byVersion := byVersion;
    }

    /** A name is listed for each of its versions. It fails when it is listed already, or a version has no list. */
    method List(name: string, versions: seq<nat>) returns (ok: bool)
      requires forall i, j :: 0 <= i < j < |versions| ==> versions[i] != versions[j]
      modifies this`byVersion
      ensures ok <==> IsFree(old(byVersion), name, versions)
      ensures ok ==> byVersion.Keys == old(byVersion).Keys
      ensures ok ==> forall v :: v in byVersion ==> byVersion[v] == old(byVersion)[v] + if v in versions then [name] else []
    {
      for i := 0 to |versions|
        invariant byVersion.Keys == old(byVersion).Keys && IsFree(old(byVersion), name, versions[..i])
        invariant forall v :: v in byVersion ==> byVersion[v] == old(byVersion)[v] + if v in versions[..i] then [name] else []
      {
        var v := versions[i];
        assert versions[..i + 1] == versions[..i] + [v] && v !in versions[..i];
        if v !in byVersion || name in byVersion[v] {
          assert v in versions;
          return false;
        }
        byVersion := byVersion[v := byVersion[v] + [name]];
      }
      assert versions[..|versions|] == versions;
      return true;
    }

    /** `build`; in a unified protocol the names of the keys differ. It fails when a name is in the list of one of its
        versions from the start, or a version has no list. */
    method Build(classes: seq<UnifiedClass>) returns (ok: bool)
      requires Valid() && members == [] && DistinctNames(Keys(classes)) && DistinctVersions(classes)
      modifies this
      ensures ok <==> AllFree(old(byVersion), classes)
      ensures ok ==> Valid() && members == Keys(classes) && sorted == Sort(members) && DistinctNames(sorted)
      ensures ok ==> byVersion.Keys == old(byVersion).Keys
      ensures ok ==> forall v :: v in byVersion ==> byVersion[v] == old(byVersion)[v] + NamesIn(classes, v)
    {
      hide Keys, NamesIn, AllFree, IsFree, IsKey, KeyOf, Sort, Ordered, DistinctNames;
      NoClassYet(old(byVersion));
      for i := 0 to |classes|
        invariant members == Keys(classes[..i]) && AllFree(old(byVersion), classes[..i])
        invariant byVersion.Keys == old(byVersion).Keys
        invariant forall v :: v in byVersion ==> byVersion[v] == old(byVersion)[v] + NamesIn(classes[..i], v)
      {
        var c := classes[i];
        assert c in classes;
        OneMoreClass(old(byVersion), classes, i);
        if IsKey(c) {
          NewName(classes, i);
          FreeStill(old(byVersion), byVersion, classes, i);
          var listed := List(KeyOf(c).name, c.versions);
          if !listed {
            return false;
          }
          members := members + [KeyOf(c)];
        }
      }
      assert classes[..|classes|] == classes;
      sorted := Sort(members);
      SortedDistinct(members);
      return true;
    }
  }

  lemma NoClassYet(table: map<nat, seq<string>>)
    ensures Keys([]) == [] && AllFree(table, []) && forall v :: NamesIn([], v) == []
  {}

  lemma OneMoreClass(table: map<nat, seq<string>>, classes: seq<UnifiedClass>, i: nat)
    requires i < |classes| && AllFree(table, classes[..i])
    ensures var c, before, after := classes[i], classes[..i], classes[..i + 1];
            && Keys(after) == Keys(before) + (if IsKey(c) then [KeyOf(c)] else [])
            && (forall v :: NamesIn(after, v) == NamesIn(before, v) + if IsKey(c) && v in c.versions then [KeyOf(c).name] else [])
            && (AllFree(table, after) <==> IsKey(c) ==> IsFree(table, KeyOf(c).name, c.versions))
            && (AllFree(table, classes) && IsKey(c) ==> IsFree(table, KeyOf(c).name, c.versions))
  {
    hide IsKey, KeyOf, IsFree;
    assert classes[..i + 1] == classes[..i] + [classes[i]] && classes[..i + 1][..i] == classes[..i];
  }

  /** What was listed since makes no difference. */
  lemma FreeStill(before: map<nat, seq<string>>, after: map<nat, seq<string>>, classes: seq<UnifiedClass>, i: nat)
    requires i < |classes| && after.Keys == before.Keys
    requires forall v :: v in after ==> after[v] == before[v] + NamesIn(classes[..i], v)
    requires forall v :: KeyOf(classes[i]).name !in NamesIn(classes[..i], v)
    ensures IsFree(after, KeyOf(classes[i]).name, classes[i].versions) <==> IsFree(before, KeyOf(classes[i]).name, classes[i].versions)
  {
    hide NamesIn, KeyOf;
  }

  /** The name of a key is not among those before it. */
  lemma NewName(classes: seq<UnifiedClass>, i: nat)
    requires i < |classes| && IsKey(classes[i]) && DistinctNames(Keys(classes))
    ensures forall v :: KeyOf(classes[i]).name !in NamesIn(classes[..i], v)
  {
    KeysPrefix(classes, i + 1);
    assert classes[..i + 1][..i] == classes[..i];
    var before := Keys(classes[..i]);
    assert Keys(classes[..i + 1]) == before + [KeyOf(classes[i])];
    forall k | k in before ensures k.name != KeyOf(classes[i]).name {
      var j :| 0 <= j < |before| && before[j] == k;
      assert Keys(classes)[j] == k && Keys(classes)[|before|] == KeyOf(classes[i]);
    }
    assert forall c :: c in classes[..i] && IsKey(c) ==> KeyOf(c) in before;
  }

  lemma {:induction false} KeysPrefix(classes: seq<UnifiedClass>, i: nat)
    requires i <= |classes|
    ensures Keys(classes[..i]) <= Keys(classes)
    decreases |classes| - i
  {
    if i < |classes| {
      KeysPrefix(classes, i + 1);
      assert classes[..i + 1][..i] == classes[..i];
    } else {
      assert classes[..i] == classes;
    }
  }

  lemma SortedDistinct(keys: seq<OxmClass>)
    requires DistinctNames(keys)
    ensures multiset(Sort(keys)) == multiset(keys) && Ordered(Sort(keys)) && DistinctNames(Sort(keys))
  {
    var sorted := Sort(keys);
    SameElements(sorted, keys);
    DistinctStaysDistinct(keys, sorted);
    forall i, j | 0 <= i < j < |sorted| ensures sorted[i].name != sorted[j].name {
      assert sorted[i] in keys && sorted[j] in keys && sorted[i] != sorted[j];
    }
  }

  lemma SameElements<T>(a: seq<T>, b: seq<T>)
    requires multiset(a) == multiset(b)
    ensures forall x :: x in a <==> x in b
  {
    assert forall x :: x in a <==> x in multiset(a);
    assert forall x :: x in b <==> x in multiset(b);
  }

  lemma DistinctStaysDistinct<T>(a: seq<T>, b: seq<T>)
    requires multiset(a) == multiset(b)
    requires forall i, j :: 0 <= i < j < |a| ==> a[i] != a[j]
    ensures forall i, j :: 0 <= i < j < |b| ==> b[i] != b[j]
  {
    forall i, j | 0 <= i < j < |b| ensures b[i] != b[j] {
      if b[i] == b[j] {
        assert b == b[..i] + [b[i]] + b[i + 1..j] + [b[j]] + b[j + 1..];
        assert multiset(b)[b[i]] >= 2;
        OccursOnce(a, b[i]);
      }
    }
  }

  lemma {:induction false} OccursOnce<T>(a: seq<T>, x: T)
    requires forall i, j :: 0 <= i < j < |a| ==> a[i] != a[j]
    ensures multiset(a)[x] <= 1
  {
    if a != [] {
      OccursOnce(a[1..], x);
      assert a == [a[0]] + a[1..];
      if a[0] == x { assert x !in a[1..]; }
    }
  }

  /** When no class other than Basic has a number below 0x10000, the Basic keys come first. */
  lemma BasicKeysFirst(keys: seq<OxmClass>, i: nat, j: nat)
    requires Ordered(keys) && i < |keys| && j < |keys|
    requires keys[j].typeLen >= 0x1_0000
    requires keys[i].typeLen / 0x1_0000 == 0x8000 && keys[j].typeLen / 0x1_0000 != 0x8000
    ensures i < j
  {}

  /** Keys of the class Basic stand in the order of their numbers, and so do all others. */
  lemma KindsInOrder(keys: seq<OxmClass>, i: nat, j: nat)
    requires Ordered(keys) && i < j < |keys|
    requires keys[i].typeLen / 0x1_0000 == 0x8000 <==> keys[j].typeLen / 0x1_0000 == 0x8000
    ensures keys[i].typeLen <= keys[j].typeLen
  {}

  // --- matches and entries -----------------------------------------------------------------------------------

  datatype Entry = Exact(key: string, value: seq<bv8>) | Masked(key: string, value: seq<bv8>, mask: seq<bv8>)

  /** The fields and masks structures, by key name; `shape` gives the width of each key. */
  datatype Match = Match(fields: map<string, seq<bv8>>, masks: map<string, seq<bv8>>) {
    ghost predicate Shaped(shape: map<string, nat>) {
      fields.Keys == masks.Keys == shape.Keys && forall k :: k in shape ==> |fields[k]| == |masks[k]| == shape[k]
    }
  }

  /** A listing of the match keys, as the generator walks them. */
  ghost predicate Lists(keys: seq<string>, shape: map<string, nat>) {
    (forall k :: k in keys <==> k in shape) && forall i, j :: 0 <= i < j < |keys| ==> keys[i] != keys[j]
  }

  /** `of_memmask`. */
  function Under(value: seq<bv8>, mask: seq<bv8>): (r: seq<bv8>)
    requires |value| == |mask|
    ensures |r| == |value| && forall i :: 0 <= i < |r| ==> r[i] == value[i] & mask[i]
  {
    seq(|value|, i requires 0 <= i < |value| => value[i] & mask[i])
  }

  lemma UnderUniform(value: seq<bv8>, mask: seq<bv8>)
    requires |value| == |mask|
    ensures AllZero(mask) ==> AllZero(Under(value, mask))
    ensures AllOnes(mask) ==> Under(value, mask) == value
  {}

  // --- unified to OXM ------------------------------------------------------------------------------------------

  predicate Active(m: Match, key: string)
    requires key in m.masks
  {
    !AllZero(m.masks[key])
  }

  function EntryFor(m: Match, key: string): Entry
    requires key in m.fields && key in m.masks
  {
    if AllOnes(m.masks[key]) then Exact(key, m.fields[key]) else Masked(key, m.fields[key], m.masks[key])
  }

  /** The entries of the active keys among `keys`, in their order. */
  function Entries(m: Match, keys: seq<string>): seq<Entry>
    requires forall k :: k in keys ==> k in m.fields && k in m.masks
  {
    if keys == [] then
      []
    else
      var key := keys[|keys| - 1];
      Entries(m, keys[..|keys| - 1]) + if Active(m, key) then [EntryFor(m, key)] else []
  }

  /** `populate_oxm_list`. */
  method Populate(m: Match, keys: seq<string>) returns (list: seq<Entry>)
    requires forall k :: k in keys ==> k in m.fields && k in m.masks
    ensures list == Entries(m, keys)
  {
    list := [];
    for n := 0 to |keys|
      invariant list == Entries(m, keys[..n])
    {
      assert keys[..n + 1][..n] == keys[..n];
      var key := keys[n];
      if !AllZero(m.masks[key]) {
        if !AllOnes(m.masks[key]) {
          list := list + [Masked(key, m.fields[key], m.masks[key])];
        } else {
          list := list + [Exact(key, m.fields[key])];
        }
      }
    }
    assert keys[..|keys|] == keys;
  }

  /** Some bit of the mask is set. */
  ghost predicate HasBit(mask: seq<bv8>) {
    exists b :: 0 <= b < |mask| && mask[b] != 0
  }

  /** The entry carries key and value as they are; it has no mask if and only if all bits of the mask are set, and else
      has that mask. */
  ghost predicate Carries(e: Entry, key: string, value: seq<bv8>, mask: seq<bv8>) {
    && e.key == key && e.value == value
    && (e.Exact? <==> forall b :: 0 <= b < |mask| ==> mask[b] == 0xff)
    && (e.Masked? ==> e.mask == mask)
  }

  /** Exactly one entry for each key with a mask bit set, with that key's value and mask, in the order of the keys: `at`
      tells at which key each entry stands. */
  lemma {:induction false} EntryPerKey(m: Match, keys: seq<string>) returns (at: seq<nat>)
    requires forall k :: k in keys ==> k in m.fields && k in m.masks
    ensures |at| == |Entries(m, keys)| && forall i :: 0 <= i < |at| ==> at[i] < |keys|
    ensures forall n :: n in at <==> 0 <= n < |keys| && HasBit(m.masks[keys[n]])
    ensures forall i, j :: 0 <= i < j < |at| ==> at[i] < at[j]
    ensures forall i :: 0 <= i < |at| ==> Carries(Entries(m, keys)[i], keys[at[i]], m.fields[keys[at[i]]], m.masks[keys[at[i]]])
  {
    hide EntryFor, AllZero, HasBit, Carries;
    at := OneEntryPerActiveKey(m, keys);
    forall n | 0 <= n < |keys|
      ensures Active(m, keys[n]) <==> HasBit(m.masks[keys[n]])
      ensures Carries(EntryFor(m, keys[n]), keys[n], m.fields[keys[n]], m.masks[keys[n]])
    {
      EntryCarries(m, keys[n]);
    }
  }

  lemma EntryCarries(m: Match, k: string)
    requires k in m.fields && k in m.masks
    ensures Active(m, k) <==> HasBit(m.masks[k])
    ensures Carries(EntryFor(m, k), k, m.fields[k], m.masks[k])
  {}

  lemma {:induction false} OneEntryPerActiveKey(m: Match, keys: seq<string>) returns (at: seq<nat>)
    requires forall k :: k in keys ==> k in m.fields && k in m.masks
    ensures |at| == |Entries(m, keys)|
    ensures forall i :: 0 <= i < |at| ==> at[i] < |keys| && Active(m, keys[at[i]])
    ensures forall i :: 0 <= i < |at| ==> Entries(m, keys)[i] == EntryFor(m, keys[at[i]])
    ensures forall i, j :: 0 <= i < j < |at| ==> at[i] < at[j]
    ensures forall n :: 0 <= n < |keys| && Active(m, keys[n]) ==> n in at
  {
    hide Active, EntryFor;
    at := [];
    if keys != [] {
      var n := |keys| - 1;
      at := OneEntryPerActiveKey(m, keys[..n]);
      if Active(m, keys[n]) {
        var before := at;
        at := at + [n];
        assert forall k :: k in before ==> k in at;
        assert at[|before|] == n;
      }
    }
  }

  // --- OXM to unified --------------------------------------------------------------------------------------------

  ghost predicate WellSized(e: Entry, shape: map<string, nat>) {
    e.key in shape ==> |e.value| == shape[e.key] && (e.Masked? ==> |e.mask| == shape[e.key])
  }

  function MaskOf(e: Entry): seq<bv8> {
    if e.Masked? then e.mask else Filled(|e.value|, 0xff)
  }

  function FieldOf(e: Entry): seq<bv8> {
    if e.Masked? && |e.mask| == |e.value| then Under(e.value, e.mask) else e.value
  }

  ghost predicate DistinctEntryKeys(list: seq<Entry>) {
    forall i, j :: 0 <= i < j < |list| ==> list[i].key != list[j].key
  }

  /** The unified match that a list of entries with distinct keys stands for. */
  ghost predicate StandsFor(list: seq<Entry>, shape: map<string, nat>, m: Match)
    requires m.Shaped(shape) && AllKnown(list, shape)
  {
    && (forall e :: e in list ==> m.fields[e.key] == FieldOf(e) && m.masks[e.key] == MaskOf(e))
    && (forall k :: k in shape && NoEntry(list, k) ==> AllZero(m.fields[k]) && AllZero(m.masks[k]))
  }

  ghost predicate AllKnown(list: seq<Entry>, shape: map<string, nat>) {
    forall e :: e in list ==> e.key in shape
  }

  ghost predicate NoEntry(list: seq<Entry>, key: string) {
    forall e :: e in list ==> e.key != key
  }

  class UnifiedMatch {
    const shape: map<string, nat>
    var version: nat
    var m: Match

    ghost predicate Valid()
      reads this
    {
      m.Shaped(shape)
    }

    constructor (shape: map<string, nat>, version: nat, m: Match)
      requires m.Shaped(shape)
      ensures Valid() && this.shape == shape && this.version == version && this.m == m
    {
      this.shape, this.version, this.m := shape, version, m;
    }

    /** The case of the generated switch for one known entry. */
    method Take(e: Entry)
      requires Valid() && e.key in shape && WellSized(e, shape)
      modifies this`m
      ensures Valid() && m == Match(old(m.fields)[e.key := FieldOf(e)], old(m.masks)[e.key := MaskOf(e)])
    {
      match e {
        case Masked(key, value, mask) =>
          m := m.(masks := m.masks[key := mask]);
          m := m.(fields := m.fields[key := value]);
          m := m.(fields := m.fields[key := Under(m.fields[key], m.masks[key])]);
        case Exact(key, value) =>
          m := m.(masks := m.masks[key := Filled(shape[key], 0xff)]);
          m := m.(fields := m.fields[key := value]);
      }
    }
  }

  datatype Status = None | ParseError

  function Cleared(shape: map<string, nat>): (zero: map<string, seq<bv8>>)
    ensures zero.Keys == shape.Keys && forall k :: k in shape ==> |zero[k]| == shape[k] && AllZero(zero[k])
  {
    map k | k in shape :: Filled(shape[k], 0)
  }

  /** `of_match_v3_to_match`: an unknown key stops the conversion. */
  method FromList(version: nat, list: seq<Entry>, dst: UnifiedMatch) returns (rv: Status)
    requires forall e :: e in list ==> WellSized(e, dst.shape)
    modifies dst
    ensures dst.Valid() && dst.version == version
    ensures rv == None <==> AllKnown(list, dst.shape)
    ensures rv == None && DistinctEntryKeys(list) ==> StandsFor(list, dst.shape, dst.m)
  {
    dst.m := Match(Cleared(dst.shape), Cleared(dst.shape));
    dst.version := version;
    for i := 0 to |list|
      invariant dst.Valid() && dst.version == version
      invariant AllKnown(list[..i], dst.shape)
      invariant DistinctEntryKeys(list) ==> StandsFor(list[..i], dst.shape, dst.m)
    {
      var e := list[i];
      assert e in list;
      if e.key !in dst.shape {
        return ParseError;
      }
      ghost var before := dst.m;
      dst.Take(e);
      assert list[..i + 1] == list[..i] + [e];
      if DistinctEntryKeys(list) {
        OneMore(list[..i], e, dst.shape, before, dst.m);
      }
    }
    assert list[..|list|] == list;
    return None;
  }

  lemma OneMore(done: seq<Entry>, e: Entry, shape: map<string, nat>, m: Match, n: Match)
    requires m.Shaped(shape) && n.Shaped(shape) && AllKnown(done + [e], shape) && AllKnown(done, shape)
    requires StandsFor(done, shape, m) && NoEntry(done, e.key)
    requires n == Match(m.fields[e.key := FieldOf(e)], m.masks[e.key := MaskOf(e)])
    ensures StandsFor(done + [e], shape, n)
  {
    forall k | k in shape && NoEntry(done + [e], k)
      ensures AllZero(n.fields[k]) && AllZero(n.masks[k])
    {
      assert e in done + [e];
      assert NoEntry(done, k) by { assert forall x :: x in done ==> x in done + [e]; }
    }
  }

  // --- theorems ----------------------------------------------------------------------------------------------------

  /** A list of entries with distinct keys stands for one match only. */
  lemma StandsForOne(list: seq<Entry>, shape: map<string, nat>, m: Match, n: Match)
    requires m.Shaped(shape) && n.Shaped(shape) && AllKnown(list, shape)
    requires StandsFor(list, shape, m) && StandsFor(list, shape, n)
    ensures m == n
  {
    forall k | k in shape
      ensures m.fields[k] == n.fields[k] && m.masks[k] == n.masks[k]
    {
      if e :| e in list && e.key == k {
        assert m.fields[e.key] == FieldOf(e);
      } else {
        assert NoEntry(list, k);
      }
    }
  }

  /** What a list stands for does not depend on the order of the entries. */
  lemma StandsForAnyOrder(list: seq<Entry>, other: seq<Entry>, shape: map<string, nat>, m: Match)
    requires multiset(list) == multiset(other) && m.Shaped(shape)
    requires AllKnown(list, shape) && StandsFor(list, shape, m)
    ensures AllKnown(other, shape) && StandsFor(other, shape, m)
  {
    SameElements(list, other);
    forall k | k in shape && NoEntry(other, k)
      ensures AllZero(m.fields[k]) && AllZero(m.masks[k])
    {
      assert NoEntry(list, k);
    }
  }

  /** Decoding does not depend on the order of the entries. */
  lemma DecodingIsOrderFree(list: seq<Entry>, other: seq<Entry>, shape: map<string, nat>, m: Match, n: Match)
    requires multiset(list) == multiset(other) && AllKnown(list, shape) && AllKnown(other, shape)
    requires m.Shaped(shape) && n.Shaped(shape) && StandsFor(list, shape, m) && StandsFor(other, shape, n)
    ensures m == n
  {
    StandsForAnyOrder(list, other, shape, m);
    StandsForOne(other, shape, m, n);
  }

  lemma {:induction false} EntriesAreOfActiveKeys(m: Match, keys: seq<string>)
    requires forall k :: k in keys ==> k in m.fields && k in m.masks
    ensures forall e :: e in Entries(m, keys) ==> e.key in keys && Active(m, e.key) && e == EntryFor(m, e.key)
    ensures forall k :: k in keys && Active(m, k) ==> !NoEntry(Entries(m, keys), k)
  {
    if keys != [] {
      var n := |keys| - 1;
      EntriesAreOfActiveKeys(m, keys[..n]);
      assert keys == keys[..n] + [keys[n]];
      forall k | k in keys && Active(m, k)
        ensures !NoEntry(Entries(m, keys), k)
      {
        if k in keys[..n] {
          var e :| e in Entries(m, keys[..n]) && e.key == k;
          assert e in Entries(m, keys);
        } else {
          assert EntryFor(m, k) in Entries(m, keys);
        }
      }
    }
  }

  /** The list written for a match is well formed: known keys, right sizes, no key twice. */
  lemma EntriesWellFormed(m: Match, keys: seq<string>, shape: map<string, nat>)
    requires m.Shaped(shape) && Lists(keys, shape)
    ensures AllKnown(Entries(m, keys), shape) && DistinctEntryKeys(Entries(m, keys))
    ensures forall e :: e in Entries(m, keys) ==> WellSized(e, shape)
  {
    EntriesAreOfActiveKeys(m, keys);
    var at := OneEntryPerActiveKey(m, keys);
    var list := Entries(m, keys);
    forall i, j | 0 <= i < j < |list|
      ensures list[i].key != list[j].key
    {
      assert at[i] < at[j] && list[i] == EntryFor(m, keys[at[i]]) && list[j] == EntryFor(m, keys[at[j]]);
    }
  }

  /** No field bit is set outside its mask. */
  ghost predicate MaskedFields(m: Match, shape: map<string, nat>)
    requires m.Shaped(shape)
  {
    forall k :: k in shape ==> Under(m.fields[k], m.masks[k]) == m.fields[k]
  }

  lemma EntryBack(m: Match, k: string, shape: map<string, nat>)
    requires m.Shaped(shape) && k in shape && Active(m, k)
    ensures FieldOf(EntryFor(m, k)) == Under(m.fields[k], m.masks[k]) && MaskOf(EntryFor(m, k)) == m.masks[k]
  {}

  /** Decoding what was encoded gives every key its own mask and its masked value. */
  lemma DecodedEncoding(m: Match, keys: seq<string>, shape: map<string, nat>, n: Match)
    requires m.Shaped(shape) && n.Shaped(shape) && Lists(keys, shape)
    requires AllKnown(Entries(m, keys), shape) && StandsFor(Entries(m, keys), shape, n)
    ensures forall k :: k in shape ==> n.masks[k] == m.masks[k] && n.fields[k] == Under(m.fields[k], m.masks[k])
  {
    EntriesAreOfActiveKeys(m, keys);
    forall k | k in shape
      ensures n.masks[k] == m.masks[k] && n.fields[k] == Under(m.fields[k], m.masks[k])
    {
      if Active(m, k) {
        var e :| e in Entries(m, keys) && e.key == k;
        EntryBack(m, k, shape);
      } else {
        UnderUniform(m.fields[k], m.masks[k]);
        UniformBytesEqual(n.masks[k], m.masks[k]);
        UniformBytesEqual(n.fields[k], Under(m.fields[k], m.masks[k]));
      }
    }
  }

  /** The round trip through an OXM list is the identity for exactly the matches whose fields are zero outside
      their masks, whatever order the list arrives in. */
  lemma RoundTripIsIdentity(m: Match, keys: seq<string>, shape: map<string, nat>, list: seq<Entry>, n: Match)
    requires m.Shaped(shape) && n.Shaped(shape) && Lists(keys, shape)
    requires multiset(list) == multiset(Entries(m, keys))
    requires AllKnown(list, shape) && StandsFor(list, shape, n)
    ensures n == m <==> MaskedFields(m, shape)
  {
    hide Entries, StandsFor, Under, AllKnown;
    StandsForAnyOrder(list, Entries(m, keys), shape, n);
    DecodedEncoding(m, keys, shape, n);
  }

  /** Encoding and decoding as objects: the decoder accepts every encoded list, and gives the same match back
      exactly when no field bit is set outside its mask. */
  method RoundTrip(src: Match, keys: seq<string>, version: nat, dst: UnifiedMatch) returns (rv: Status)
    requires src.Shaped(dst.shape) && Lists(keys, dst.shape)
    modifies dst
    ensures rv == None && dst.Valid() && dst.version == version
    ensures dst.m == src <==> MaskedFields(src, dst.shape)
  {
    EntriesWellFormed(src, keys, dst.shape);
    var list := Populate(src, keys);
    rv := FromList(version, list, dst);
    RoundTripIsIdentity(src, keys, dst.shape, list, dst.m);
  }

  /** The encoder walks the sorted table, so its entries come in the standard order. */
  lemma EntriesAreOrdered(m: Match, sorted: seq<OxmClass>, shape: map<string, nat>, i: nat, j: nat)
    requires Ordered(sorted) && DistinctNames(sorted) && m.Shaped(shape)
    requires Lists(Names(sorted), shape) && i < j < |Entries(m, Names(sorted))|
    ensures exists a: nat, b: nat :: a < b < |sorted| && sorted[a].name == Entries(m, Names(sorted))[i].key &&
              sorted[b].name == Entries(m, Names(sorted))[j].key && Order(sorted[a].typeLen) <= Order(sorted[b].typeLen)
  {
    var at := OneEntryPerActiveKey(m, Names(sorted));
    assert at[i] < at[j];
    assert sorted[at[i]].name == Entries(m, Names(sorted))[i].key;
  }

  function Names(keys: seq<OxmClass>): seq<string> {
    seq(|keys|, i requires 0 <= i < |keys| => keys[i].name)
  }
}

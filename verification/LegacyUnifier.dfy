/** The legacy unifier: versions whose members have equal signature strings share one member list. */
module LegacyUnifier {
  import opened Options
  import InputLexer

  datatype Member = Member(mtype: string, name: string, offset: int)

  // --- signatures ----------------------------------------------------------------------------------------------------

  /** Python's `str` on an integer. */
  function Str(n: int): string {
    if n < 0 then "-" + InputLexer.Dec(-n) else InputLexer.Dec(n)
  }

  function MemberSignature(m: Member): string {
    m.mtype + "," + m.name + "," + Str(m.offset)
  }

  /** `class_signature`. */
  function Signature(ms: seq<Member>): string {
    if ms == [] then ""
    else if |ms| == 1 then MemberSignature(ms[0])
    else MemberSignature(ms[0]) + ";" + Signature(ms[1..])
  }

  /** Neither types nor names contain the separators. */
  predicate Clean(ms: seq<Member>) {
    forall i :: 0 <= i < |ms| ==> CleanMember(ms[i])
  }

  predicate CleanMember(m: Member) {
    && ',' !in m.mtype && ';' !in m.mtype && ',' !in m.name && ';' !in m.name
  }

  lemma {:induction false} SplitFirst(a: string, x: string, b: string, y: string, mark: char)
    requires mark !in a && mark !in b && a + [mark] + x == b + [mark] + y
    ensures a == b && x == y
  {
    var s := a + [mark] + x;
    assert s[|a|] == mark && s[|b|] == mark;
    assert forall i :: 0 <= i < |a| ==> s[i] == a[i] && s[i] != mark;
    assert forall i :: 0 <= i < |b| ==> s[i] == b[i] && s[i] != mark;
    assert a == s[..|a|] == b && x == s[|a| + 1..] == y;
  }

  lemma StrInjective(m: int, n: int)
    requires Str(m) == Str(n)
    ensures m == n
  {
    var a, b := if m < 0 then -m else m, if n < 0 then -n else n;
    InputLexer.DecValue(a);
    InputLexer.DecValue(b);
    assert InputLexer.IsDigit(InputLexer.Dec(a)[0]) && InputLexer.IsDigit(InputLexer.Dec(b)[0]);
    if m < 0 {
      assert Str(m)[0] == '-' && Str(m)[1..] == InputLexer.Dec(a);
    }
    if n < 0 {
      assert Str(n)[0] == '-' && Str(n)[1..] == InputLexer.Dec(b);
    }
  }

  lemma MemberSignatureInjective(m: Member, n: Member)
    requires CleanMember(m) && CleanMember(n) && MemberSignature(m) == MemberSignature(n)
    ensures m == n
  {
    var x, y := m.name + "," + Str(m.offset), n.name + "," + Str(n.offset);
    assert MemberSignature(m) == m.mtype + [','] + x && MemberSignature(n) == n.mtype + [','] + y;
    SplitFirst(m.mtype, x, n.mtype, y, ',');
    assert x == m.name + [','] + Str(m.offset) && y == n.name + [','] + Str(n.offset);
    SplitFirst(m.name, Str(m.offset), n.name, Str(n.offset), ',');
    StrInjective(m.offset, n.offset);
  }

  lemma MemberSignaturePlain(m: Member)
    requires CleanMember(m)
    ensures ';' !in MemberSignature(m) && MemberSignature(m) != ""
  {}

  /** Equal signature strings mean equal member lists when no type or name contains a separator. */
  lemma {:induction false} SignatureInjective(ms: seq<Member>, ns: seq<Member>)
    requires Clean(ms) && Clean(ns) && Signature(ms) == Signature(ns)
    ensures ms == ns
  {
    hide MemberSignature, CleanMember;
    if ms != [] { MemberSignaturePlain(ms[0]); }
    if ns != [] { MemberSignaturePlain(ns[0]); }
    if |ms| > 1 && |ns| > 1 {
      assert Signature(ms) == MemberSignature(ms[0]) + [';'] + Signature(ms[1..]);
      assert Signature(ns) == MemberSignature(ns[0]) + [';'] + Signature(ns[1..]);
      SplitFirst(MemberSignature(ms[0]), Signature(ms[1..]), MemberSignature(ns[0]), Signature(ns[1..]), ';');
      MemberSignatureInjective(ms[0], ns[0]);
      SignatureInjective(ms[1..], ns[1..]);
      assert ms == [ms[0]] + ms[1..] && ns == [ns[0]] + ns[1..];
    } else if |ms| == 1 && |ns| == 1 {
      MemberSignatureInjective(ms[0], ns[0]);
    }
  }

  /** With a separator in a name, two different member lists have the same signature. */
  lemma SignatureClash()
    ensures Signature([Member("a,b", "c", 0)]) == Signature([Member("a", "b,c", 0)])
    ensures [Member("a,b", "c", 0)] != [Member("a", "b,c", 0)]
  {}

  // --- unification -----------------------------------------------------------------------------------------------------

  datatype Slot = Own(members: seq<Member>) | Shared(version: int)

  /** The versions of a class in the order in which they were added, and the types of its members by name. */
  datatype Unified = Unified(versions: seq<int>, slots: map<int, Slot>, union: map<string, string>)

  /** The version has members of its own, with the signature. */
  predicate Owns(u: Unified, sig: string, v: int) {
    v in u.slots && u.slots[v].Own? && Signature(u.slots[v].members) == sig
  }

  /** The version at `k` has its own members with the signature, and none from `i` to there does. */
  predicate IsFirstAt(u: Unified, sig: string, i: nat, k: nat) {
    k < |u.versions| && Owns(u, sig, u.versions[k]) && forall j :: i <= j < k ==> !Owns(u, sig, u.versions[j])
  }

  /** The first version from `i` on that has its own members with the signature. */
  function FirstOwn(u: Unified, sig: string, i: nat): (w: Option<int>)
    requires i <= |u.versions|
    ensures w.None? ==> forall k :: i <= k < |u.versions| ==> !Owns(u, sig, u.versions[k])
    ensures w.Some? ==> Owns(u, sig, w.value) && exists k :: i <= k && IsFirstAt(u, sig, i, k) && u.versions[k] == w.value
    decreases |u.versions| - i
  {
    if i == |u.versions| then None
    else if Owns(u, sig, u.versions[i]) then Some(u.versions[i])
    else FirstOwn(u, sig, i + 1)
  }

  /** No sharing chains; whoever shares has the signature of its target. */
  ghost predicate Faithful(u: Unified, given: map<int, seq<Member>>) {
    && (forall v :: v in u.versions <==> v in u.slots) && u.slots.Keys == given.Keys
    && (forall i, j :: 0 <= i < j < |u.versions| ==> u.versions[i] != u.versions[j])
    && forall v :: v in u.slots ==> SlotOk(u, given, v)
  }

  ghost predicate SlotOk(u: Unified, given: map<int, seq<Member>>, v: int)
    requires v in u.slots && v in given
  {
    match u.slots[v]
    case Own(ms) => ms == given[v]
    case Shared(w) => w in u.slots && u.slots[w].Own? && Signature(u.slots[w].members) == Signature(given[v])
  }

  /** The members that a lookup of a version finds. */
  function Found(u: Unified, v: int): seq<Member> {
    if v !in u.slots then []
    else match u.slots[v]
      case Own(ms) => ms
      case Shared(w) => if w in u.slots && u.slots[w].Own? then u.slots[w].members else []
  }

  predicate IsPad(name: string) {
    |name| >= 3 && name[..3] == "pad"
  }

  /** The types agree with those known by name. */
  ghost predicate TypesFit(ms: seq<Member>, union: map<string, string>) {
    forall i :: 0 <= i < |ms| && !IsPad(ms[i].name) ==> ms[i].name in union && union[ms[i].name] == ms[i].mtype
  }

  function Added(u: Unified, version: int, slot: Slot, union: map<string, string>): Unified {
    Unified(u.versions + [version], u.slots[version := slot], union)
  }

  /** The types by name are those of every version's own members. */
  ghost predicate TypesKnown(u: Unified) {
    forall v :: v in u.slots && u.slots[v].Own? ==> TypesFit(u.slots[v].members, u.union)
  }

  lemma AddedTypesKnown(u: Unified, version: int, members: seq<Member>)
    requires TypesKnown(u) && Mergeable(u.union, members)
    ensures TypesKnown(Added(u, version, Own(members), Merged(u.union, members)))
  {
    hide Mergeable, Merged;
    MergedFits(u.union, members);
  }

  lemma AddedFaithful(u: Unified, given: map<int, seq<Member>>, version: int, slot: Slot, ms: seq<Member>, union: map<string, string>)
    requires Faithful(u, given) && version !in u.slots
    requires slot == Own(ms) || (slot.Shared? && FirstOwn(u, Signature(ms), 0) == Some(slot.version))
    ensures Faithful(Added(u, version, slot, union), given[version := ms])
  {}

  datatype Input = Input(version: int, cls: string, members: seq<Member>)

  ghost predicate IsGiven(given: map<string, map<int, seq<Member>>>, input: Input) {
    input.cls in given && input.version in given[input.cls] && given[input.cls][input.version] == input.members
  }

  class Unifier {
    var unified: map<string, Unified>
    var orderedMembers: map<string, seq<string>>
    /** The member lists as they were given, by class and version. */
    ghost var given: map<string, map<int, seq<Member>>>

    ghost predicate Valid()
      reads this
    {
      unified.Keys == given.Keys && forall cls :: cls in unified ==> Faithful(unified[cls], given[cls]) && TypesKnown(unified[cls])
    }

    constructor ()
      ensures Valid() && unified == map[] && given == map[]
    {
      unified, orderedMembers, given := map[], map[], map[];
    }

    /** What is known of a class. */
    function Known(cls: string): Unified
      reads this
    {
      if cls in unified then unified[cls] else Unified([], map[], map[])
    }

    /** `add_class`: a version that exists, or a member whose type differs from another version's, ends the run. */
    method AddClass(version: int, cls: string, members: seq<Member>) returns (ok: bool)
      requires Valid()
      modifies this
      ensures !ok <==> version in old(Known(cls)).slots
                       || (FirstOwn(old(Known(cls)), Signature(members), 0).None? && !Mergeable(old(Known(cls)).union, members))
      ensures ok ==> !(cls in old(given) && version in old(given)[cls])
      ensures ok ==> Valid() && given == old(given)[cls := (if cls in old(given) then old(given)[cls] else map[])[version := members]]
      ensures ok ==> var u := old(Known(cls)); unified == old(unified)[cls := match FirstOwn(u, Signature(members), 0)
          case Some(w) => Added(u, version, Shared(w), u.union)
          case None => Added(u, version, Own(members), Merged(u.union, members))]
      ensures ok ==> orderedMembers == if FirstOwn(old(Known(cls)), Signature(members), 0).Some? then old(orderedMembers)
          else old(orderedMembers)[cls := Names(old(if cls in orderedMembers then orderedMembers[cls] else []), members)]
    {
      hide Signature, Faithful, FirstOwn, Mergeable, Merged, TypesFit;
      var u := Known(cls);
      ghost var before: map<int, seq<Member>> := if cls in given then given[cls] else map[];
      KnownFaithful(u, before, cls in unified);
      if version in u.slots {
        return false;
      }
      var match_ := FirstOwn(u, Signature(members), 0);
      if match_.Some? {
        AddedFaithful(u, before, version, Shared(match_.value), members, u.union);
        unified := unified[cls := Added(u, version, Shared(match_.value), u.union)];
        given := given[cls := before[version := members]];
        return true;
      }
      var union, fits := MergeMembers(u.union, members, cls);
      if !fits {
        return false;
      }
      AddedFaithful(u, before, version, Own(members), members, union);
      AddedTypesKnown(u, version, members);
      unified := unified[cls := Added(u, version, Own(members), union)];
      given := given[cls := before[version := members]];
      return true;
    }

    /** `unify_input`: all classes of all versions. */
    method UnifyInput(inputs: seq<Input>) returns (ok: bool)
      requires Valid() && unified == map[]
      modifies this
      ensures ok ==> Valid() && forall i :: 0 <= i < |inputs| ==> IsGiven(given, inputs[i])
    {
      hide Faithful, Known, FirstOwn, Mergeable, Merged, Added;
      for i := 0 to |inputs|
        invariant Valid() && forall j :: 0 <= j < i ==> IsGiven(given, inputs[j])
      {
        ok := AddClass(inputs[i].version, inputs[i].cls, inputs[i].members);
        if !ok {
          return;
        }
      }
      ok := true;
    }

    /** The loop over the members: their types by name, and their names in the order of first appearance. */
    method MergeMembers(union: map<string, string>, members: seq<Member>, cls: string) returns (now: map<string, string>, fits: bool)
      modifies this`orderedMembers
      ensures fits <==> Mergeable(union, members)
      ensures fits ==> now == Merged(union, members)
      ensures fits ==> orderedMembers == old(orderedMembers)[cls := Names(old(if cls in orderedMembers then orderedMembers[cls] else []), members)]
    {
      hide Mergeable, Merged, Names;
      now, fits := union, true;
      var names: seq<string> := if cls in orderedMembers then orderedMembers[cls] else [];
      ghost var start := names;
      NothingMerged(union, names);
      for i := 0 to |members|
        invariant Mergeable(union, members[..i]) && now == Merged(union, members[..i]) && names == Names(start, members[..i])
        invariant orderedMembers == old(orderedMembers)
      {
        var m := members[i];
        assert members[..i + 1] == members[..i] + [m];
        MergeStep(union, members[..i], m);
        NameStep(start, members[..i], m);
        if !IsPad(m.name) {
          if m.name in now {
            if m.mtype != now[m.name] {
              NotMergeable(union, members, i);
              return now, false;
            }
          } else {
            now := now[m.name := m.mtype];
          }
          if m.name !in names {
            names := names + [m.name];
          }
        }
      }
      assert members[..|members|] == members;
      orderedMembers := orderedMembers[cls := names];
    }
  }

  lemma KnownFaithful(u: Unified, given: map<int, seq<Member>>, known: bool)
    requires if known then Faithful(u, given) else u == Unified([], map[], map[]) && given == map[]
    ensures Faithful(u, given) && u.slots.Keys == given.Keys
  {}

  // --- the merged types ------------------------------------------------------------------------------------------------------

  /** The types by name after a list of members. */
  function Merged(union: map<string, string>, ms: seq<Member>): map<string, string> {
    if ms == [] then union
    else
      var before, m := Merged(union, ms[..|ms| - 1]), ms[|ms| - 1];
      if IsPad(m.name) || m.name in before then before else before[m.name := m.mtype]
  }

  /** No member has another type than one of its name before it. */
  predicate Mergeable(union: map<string, string>, ms: seq<Member>) {
    ms == [] ||
      var before, m := Merged(union, ms[..|ms| - 1]), ms[|ms| - 1];
      Mergeable(union, ms[..|ms| - 1]) && (IsPad(m.name) || m.name !in before || before[m.name] == m.mtype)
  }

  function Names(names: seq<string>, ms: seq<Member>): seq<string> {
    if ms == [] then names
    else
      var before, m := Names(names, ms[..|ms| - 1]), ms[|ms| - 1];
      if IsPad(m.name) || m.name in before then before else before + [m.name]
  }

  lemma NothingMerged(union: map<string, string>, names: seq<string>)
    ensures Merged(union, []) == union && Mergeable(union, []) && Names(names, []) == names
  {}

  lemma MergeStep(union: map<string, string>, ms: seq<Member>, m: Member)
    ensures var before := Merged(union, ms);
            && Merged(union, ms + [m]) == (if IsPad(m.name) || m.name in before then before else before[m.name := m.mtype])
            && (Mergeable(union, ms + [m]) <==> Mergeable(union, ms) && (IsPad(m.name) || m.name !in before || before[m.name] == m.mtype))
  {}

  lemma NameStep(names: seq<string>, ms: seq<Member>, m: Member)
    ensures Names(names, ms + [m]) ==
      (if IsPad(m.name) || m.name in Names(names, ms) then Names(names, ms) else Names(names, ms) + [m.name])
  {}

  /** A name is listed when it was, or when a member has it and it does not begin with `pad`; what was listed stays first. */
  lemma {:induction false} NamesListed(names: seq<string>, ms: seq<Member>, n: string)
    ensures |names| <= |Names(names, ms)| && Names(names, ms)[..|names|] == names
    ensures n in Names(names, ms) <==>
            n in names || exists i :: 0 <= i < |ms| && ms[i].name == n && !(|n| >= 3 && n[0] == 'p' && n[1] == 'a' && n[2] == 'd')
  {
    if ms != [] {
      NamesListed(names, ms[..|ms| - 1], n);
      PadNames(ms[|ms| - 1].name);
    }
  }

  lemma PadNames(n: string)
    ensures IsPad(n) <==> |n| >= 3 && n[0] == 'p' && n[1] == 'a' && n[2] == 'd'
  {}

  lemma {:induction false} NotMergeable(union: map<string, string>, ms: seq<Member>, i: nat)
    requires i < |ms| && !Mergeable(union, ms[..i + 1])
    ensures !Mergeable(union, ms)
  {
    hide Merged;
    if i < |ms| - 1 {
      assert ms[..|ms| - 1][..i + 1] == ms[..i + 1];
      NotMergeable(union, ms[..|ms| - 1], i);
    } else {
      assert ms[..i + 1] == ms;
    }
  }

  /** Merged types are those of all members that are no padding. */
  lemma {:induction false} MergedFits(union: map<string, string>, ms: seq<Member>)
    requires Mergeable(union, ms)
    ensures TypesFit(ms, Merged(union, ms)) && forall n :: n in union ==> n in Merged(union, ms) && Merged(union, ms)[n] == union[n]
  {
    if ms != [] {
      var front := ms[..|ms| - 1];
      MergedFits(union, front);
      assert forall i :: 0 <= i < |front| ==> ms[i] == front[i];
    }
  }

  // --- lookups -----------------------------------------------------------------------------------------------------------

  /** `member_to_index`, with the length of the list for a miss. */
  function IndexOf(name: string, ms: seq<Member>): (i: nat)
    ensures i <= |ms| && (i < |ms| ==> ms[i].name == name) && forall k :: 0 <= k < i ==> ms[k].name != name
  {
    if ms == [] || ms[0].name == name then 0 else 1 + IndexOf(name, ms[1..])
  }

  /** Type and offset of a member in a version, when types that differ between versions are resolved. */
  function FieldIn(mixed: map<string, map<int, string>>, name: string, ms: seq<Member>, v: int): Option<(string, int)> {
    var i := IndexOf(name, ms);
    if i == |ms| then None
    else
      var t := ms[i].mtype;
      Some((if t in mixed && v in mixed[t] then mixed[t][v] else t, ms[i].offset))
  }

  /** The first member of the list with that name is at `i`. */
  ghost predicate FirstAt(ms: seq<Member>, name: string, i: nat) {
    i < |ms| && ms[i].name == name && forall k :: 0 <= k < i ==> ms[k].name != name
  }

  /** The field has the offset of the member, and the type that `mixed` has for it in the version if there is one, else
      the member's. */
  ghost predicate IsField(mixed: map<string, map<int, string>>, m: Member, v: int, field: (string, int)) {
    && field.1 == m.offset
    && (m.mtype in mixed && v in mixed[m.mtype] ==> field.0 == mixed[m.mtype][v])
    && (m.mtype !in mixed || v !in mixed[m.mtype] ==> field.0 == m.mtype)
  }

  /** The lookup gives the field of the first member with that name, and nothing when there is no such member. */
  lemma FieldInIs(mixed: map<string, map<int, string>>, name: string, ms: seq<Member>, v: int)
    ensures forall i: nat :: FirstAt(ms, name, i) ==>
      FieldIn(mixed, name, ms, v).Some? && IsField(mixed, ms[i], v, FieldIn(mixed, name, ms, v).value)
    ensures (forall i :: 0 <= i < |ms| ==> ms[i].name != name) ==> FieldIn(mixed, name, ms, v).None?
  {
    forall i: nat | FirstAt(ms, name, i) ensures i == IndexOf(name, ms) {}
  }

  /** `field_ver_get`: through the sharing, for every version of the class. */
  method FieldVerGet(u: Unified, ghost given: map<int, seq<Member>>, mixed: map<string, map<int, string>>, name: string) returns (result: map<int, (string, int)>)
    requires Faithful(u, given)
    ensures forall v :: v in result <==> v in u.slots && FieldIn(mixed, name, Found(u, v), v).Some?
    ensures forall v :: v in result ==> Some(result[v]) == FieldIn(mixed, name, Found(u, v), v)
    ensures (forall v :: v in given ==> Clean(given[v])) ==>
      && (forall v, i: nat :: v in given && FirstAt(given[v], name, i) ==>
            v in result && IsField(mixed, given[v][i], v, result[v]))
      && (forall v :: v in given && (forall i :: 0 <= i < |given[v]| ==> given[v][i].name != name) ==> v !in result)
      && (forall v :: v in result ==> v in given)
  {
    hide Signature, FieldIn, Clean, IsField;
    result := map[];
    for k := 0 to |u.versions|
      invariant forall v :: v in result <==> v in u.versions[..k] && FieldIn(mixed, name, Found(u, v), v).Some?
      invariant forall v :: v in result ==> Some(result[v]) == FieldIn(mixed, name, Found(u, v), v)
    {
      var ver := u.versions[k];
      assert u.versions[..k + 1] == u.versions[..k] + [ver];
      assert SlotOk(u, given, ver);
      var members := if u.slots[ver].Shared? then u.slots[u.slots[ver].version].members else u.slots[ver].members;
      assert members == Found(u, ver);
      var field := FieldIn(mixed, name, members, ver);
      if field.Some? {
        result := result[ver := field.value];
      }
    }
    if forall v :: v in given ==> Clean(given[v]) {
      assert forall v :: v in result ==> v in given by { assert forall v :: v in u.slots ==> SlotOk(u, given, v); }
      forall v, i: nat | v in given && FirstAt(given[v], name, i)
        ensures v in result && IsField(mixed, given[v][i], v, result[v])
      {
        SharingUnnoticed(u, given, v);
        FieldInIs(mixed, name, given[v], v);
      }
      forall v | v in given && forall i :: 0 <= i < |given[v]| ==> given[v][i].name != name
        ensures v !in result
      {
        SharingUnnoticed(u, given, v);
        FieldInIs(mixed, name, given[v], v);
      }
    }
  }

  /** A lookup through the sharing finds a list with the signature of the version's own; without separators in names
      and types, it finds that very list. */
  lemma SharingUnnoticed(u: Unified, given: map<int, seq<Member>>, v: int)
    requires Faithful(u, given) && v in given
    ensures v in u.slots && (u.slots[v].Shared? ==> u.slots[v].version in u.slots && u.slots[u.slots[v].version].Own?)
    ensures Signature(Found(u, v)) == Signature(given[v])
    ensures (forall w :: w in given ==> Clean(given[w])) ==> Found(u, v) == given[v]
  {
    hide Signature, Clean;
    assert SlotOk(u, given, v);
    if u.slots[v].Shared? {
      assert SlotOk(u, given, u.slots[v].version);
      if forall w :: w in given ==> Clean(given[w]) {
        SignatureInjective(Found(u, v), given[v]);
      }
    }
  }
}

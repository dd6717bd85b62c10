/** The classes of all protocol versions merged into one class per name. */
module Unified {
  import opened Options
  import opened Results
  import opened IrInput
  import opened IrBuilder

  /** A class with the version whose protocol has it. */
  datatype Entry = Entry(version: nat, class_: IrClass)

  datatype UClass = UClass(name: string, superclass: Option<UClass>, members: seq<IrMember>, isVirtual: bool,
                           params: map<string, string>, fixed: bool, bytes: nat, versions: map<nat, IrClass>)
  {
    predicate IsInstanceOf(ancestor: string) {
      name == ancestor || (superclass.Some? && superclass.value.IsInstanceOf(ancestor))
    }
  }

  datatype UnifyError = KindMismatch(member: string) | ParamMismatch(param: string) | NoSuperclass(name: string, superclass: string)

  function SuperName(c: IrClass): Option<string> {
    match c.superclass
    case None => None
    case Some(s) => Some(s.name)
  }

  // --- members, merged by name ----------------------------------------------------------------------------------

  /** The name of a member, if its kind has one. */
  function NameOf(m: IrMember): Option<string> {
    if m.decl.Pad? then None else Some(m.decl.name)
  }

  /** Whether two members are of the same kind, whatever their properties. */
  predicate SameKind(a: IrMember, b: IrMember) {
    && (a.decl.Data? <==> b.decl.Data?) && (a.decl.TypeValue? <==> b.decl.TypeValue?)
    && (a.decl.Discriminator? <==> b.decl.Discriminator?) && (a.decl.Length? <==> b.decl.Length?)
    && (a.decl.FieldLength? <==> b.decl.FieldLength?) && (a.decl.Version? <==> b.decl.Version?)
    && (a.decl.Pad? <==> b.decl.Pad?)
  }

  /** All members but padding are named. */
  ghost predicate Named(m: IrMember, name: string) {
    !m.decl.Pad? && m.decl.name == name
  }

  ghost predicate OneKind(a: Member, b: Member) {
    match a
    case Pad(_) => b.Pad?
    case Data(_, _) => b.Data?
    case TypeValue(_, _, _) => b.TypeValue?
    case Discriminator(_, _) => b.Discriminator?
    case Length(_, _) => b.Length?
    case FieldLength(_, _, _) => b.FieldLength?
    case Version(_, _) => b.Version?
  }

  /** An ordered dictionary of members, by name. */
  ghost predicate ByName(members: seq<IrMember>) {
    && (forall i :: 0 <= i < |members| ==> !members[i].decl.Pad?)
    && (forall i, j :: 0 <= i < j < |members| ==> members[i].decl.name != members[j].decl.name)
  }

  ghost predicate HasEntry(members: seq<IrMember>, m: IrMember)
    requires !m.decl.Pad?
  {
    exists e :: e in members && Named(e, m.decl.name) && OneKind(e.decl, m.decl)
  }

  /** Every named member of a class has an entry of its kind. */
  ghost predicate Covers(members: seq<IrMember>, c: seq<IrMember>) {
    forall m :: m in c && !m.decl.Pad? ==> HasEntry(members, m)
  }

  ghost predicate Uses(c: IrClass, name: string) {
    exists m :: m in c.members && Named(m, name)
  }

  /** The entry is a member of the class at position `k`, and no class before uses its name. */
  ghost predicate FirstAt(e: IrMember, history: seq<Entry>, k: nat) {
    k < |history| && e in history[k].class_.members && !e.decl.Pad? && forall j :: 0 <= j < k ==> !Uses(history[j].class_, e.decl.name)
  }

  ghost predicate AllFirst(members: seq<IrMember>, history: seq<Entry>) {
    forall e :: e in members ==> exists k :: FirstAt(e, history, k)
  }

  // --- what the merged class says of the classes it was made from ---------------------------------------------------

  ghost predicate LengthOf(history: seq<Entry>, bytes: Option<nat>, fixed: bool) {
    && (bytes.None? <==> history == [])
    && (bytes.Some? ==> exists k :: 0 <= k < |history| && history[k].class_.bytes == bytes.value)
    && (forall k :: 0 <= k < |history| ==> bytes.value <= history[k].class_.bytes)
    && (fixed <==> forall k :: 0 <= k < |history| ==> history[k].class_.fixed && history[k].class_.bytes == history[0].class_.bytes)
  }

  ghost predicate ParamsOf(history: seq<Entry>, params: map<string, string>) {
    && (forall k, p :: 0 <= k < |history| && p in history[k].class_.params ==> p in params && params[p] == history[k].class_.params[p])
    && (forall p :: p in params ==> exists k :: 0 <= k < |history| && p in history[k].class_.params)
  }

  ghost predicate VirtualOf(history: seq<Entry>, isVirtual: bool) {
    isVirtual <==> exists k :: 0 <= k < |history| && history[k].class_.isVirtual
  }

  ghost predicate VersionsOf(history: seq<Entry>, versions: map<nat, IrClass>) {
    && (forall v :: v in versions <==> exists k :: 0 <= k < |history| && history[k].version == v)
    && (forall k :: 0 <= k < |history| && (forall j :: k < j < |history| ==> history[j].version != history[k].version) ==>
          history[k].version in versions && versions[history[k].version] == history[k].class_)
  }

  /** The members of all classes, class after class. */
  function AllMembers(history: seq<Entry>): seq<IrMember> {
    if history == [] then [] else AllMembers(history[..|history| - 1]) + history[|history| - 1].class_.members
  }

  /** An ordered dictionary after it has been offered more members: those with new names come last. */
  function Extended(members: seq<IrMember>, more: seq<IrMember>): seq<IrMember> {
    if more == [] then members
    else
      var before, m := Extended(members, more[..|more| - 1]), more[|more| - 1];
      if NameOf(m).None? || Lookup(before, NameOf(m)) < |before| then before else before + [m]
  }

  /** One entry for each name, in the order in which the names first appear over all classes. */
  ghost predicate MembersOf(history: seq<Entry>, members: seq<IrMember>) {
    && members == Extended([], AllMembers(history))
    && ByName(members) && AllFirst(members, history) && forall k :: 0 <= k < |history| ==> Covers(members, history[k].class_.members)
  }

  /** The member stands at `p`, and none with its name before. */
  ghost predicate AppearsAt(e: IrMember, all: seq<IrMember>, p: nat) {
    p < |all| && all[p] == e && !e.decl.Pad? && forall q :: 0 <= q < p ==> !Named(all[q], e.decl.name)
  }

  /** The place in the list where the member at `i` of the dictionary made of it appears first. */
  lemma {:induction false} Appearance(all: seq<IrMember>, i: nat) returns (p: nat)
    requires i < |Extended([], all)|
    ensures AppearsAt(Extended([], all)[i], all, p)
    ensures Extended([], all[..p]) == Extended([], all)[..i]
  {
    var front := all[..|all| - 1];
    if i < |Extended([], front)| {
      p := Appearance(front, i);
      assert front[..p] == all[..p];
      assert Extended([], all)[..i] == Extended([], front)[..i];
    } else {
      p := |all| - 1;
      assert Extended([], all)[..i] == Extended([], front);
      forall q | 0 <= q < p && NameOf(all[q]).Some? ensures Lookup(Extended([], front), NameOf(all[q])) < |Extended([], front)| {
        NamedIsThere(front, q);
      }
    }
  }

  lemma {:induction false} NamedIsThere(all: seq<IrMember>, q: nat)
    requires q < |all| && NameOf(all[q]).Some?
    ensures Lookup(Extended([], all), NameOf(all[q])) < |Extended([], all)|
  {
    var front := all[..|all| - 1];
    var before := Extended([], front);
    if q < |front| {
      NamedIsThere(front, q);
      assert front[q] == all[q];
      var at := Lookup(before, NameOf(all[q]));
      assert Extended([], all)[at] == before[at];
    } else if Lookup(before, NameOf(all[q])) == |before| {
      assert Extended([], all)[|before|] == all[q];
    }
  }

  /** Members of a merged class stand in the order in which their names first appear: by class, then by position. */
  lemma MembersInOrder(history: seq<Entry>, members: seq<IrMember>, i: nat, j: nat) returns (p: nat, q: nat)
    requires MembersOf(history, members) && i < j < |members|
    ensures p < q && AppearsAt(members[i], AllMembers(history), p) && AppearsAt(members[j], AllMembers(history), q)
  {
    p := Appearance(AllMembers(history), i);
    q := Appearance(AllMembers(history), j);
    if q <= p {
      PrefixShorter(AllMembers(history), q, p);
    }
  }

  lemma {:induction false} PrefixShorter(all: seq<IrMember>, q: nat, p: nat)
    requires q <= p <= |all|
    ensures |Extended([], all[..q])| <= |Extended([], all[..p])|
    decreases p
  {
    if q < p {
      PrefixShorter(all, q, p - 1);
      assert all[..p][..p - 1] == all[..p - 1];
    }
  }

  lemma {:induction false} ExtendedTwice(members: seq<IrMember>, a: seq<IrMember>, b: seq<IrMember>)
    ensures Extended(Extended(members, a), b) == Extended(members, a + b)
  {
    if b == [] {
      assert a + b == a;
    } else {
      ExtendedTwice(members, a, b[..|b| - 1]);
      assert (a + b)[..|a + b| - 1] == a + b[..|b| - 1];
    }
  }

  function LastSuper(history: seq<Entry>): Option<string> {
    if history == [] then None else SuperName(history[|history| - 1].class_)
  }

  class UnifiedClassSpec {
    const name: string
    var members: seq<IrMember>
    var superclassName: Option<string>
    var params: map<string, string>
    var versionClass: map<nat, IrClass>
    var isVirtual: bool
    var bytes: Option<nat>
    var fixed: bool
    /** The classes merged so far. */
    ghost var history: seq<Entry>

    ghost predicate Valid()
      reads this
    {
      && MembersOf(history, members) && superclassName == LastSuper(history) && ParamsOf(history, params)
      && VersionsOf(history, versionClass) && LengthOf(history, bytes, fixed)
      && VirtualOf(history, isVirtual)
    }

    constructor (name: string)
      ensures Valid() && history == [] && this.name == name
    {
      this.name := name;
      members, superclassName, params, versionClass := [], None, map[], map[];
      isVirtual, bytes, fixed, history := false, None, true, [];
    }

    /** `add_class`. The superclass of the last class added is the one that stays. */
    method AddClass(version: nat, c: IrClass) returns (failed: Option<UnifyError>)
      requires Valid()
      modifies this
      ensures failed.None? ==> Valid() && history == old(history) + [Entry(version, c)]
      ensures failed.Some? ==> Clashes(old(history), c) && !failed.value.NoSuperclass?
    {
      hide MembersOf, ParamsOf, VersionsOf, VirtualOf, LengthOf, LastSuper, ByName, Covers, MergedFrom, Clashes, KindsClash;
      MembersByName(history, members);
      ghost var before, entry := history, Entry(version, c);
      var merged := MergeMembers(members, c.members);
      if merged.Err? {
        MembersClash(before, members, c);
        return Some(merged.error);
      }
      members := merged.value;
      OneMoreClass(before, old(members), members, entry);
      superclassName := SuperName(c);
      OneMoreSuper(before, entry);
      var clash := MergeParams(c.params);
      if clash.Some? {
        ParamsClash(before, old(params), c, clash.value);
        return Some(ParamMismatch(clash.value));
      }
      OneMoreParams(before, old(params), entry);
      if c.isVirtual {
        isVirtual := true;
      }
      OneMoreVirtual(before, old(isVirtual), entry);
      MergeLength(entry, c);
      versionClass := versionClass[version := c];
      OneMoreVersion(before, old(versionClass), entry);
      history := history + [entry];
      return None;
    }

    /** The length: the least, and fixed only while all classes are fixed and equally long. */
    method MergeLength(ghost entry: Entry, c: IrClass)
      requires LengthOf(history, bytes, fixed) && entry.class_ == c
      modifies this`bytes, this`fixed
      ensures LengthOf(history + [entry], bytes, fixed)
    {
      hide LengthOf;
      OneMoreLength(history, bytes, fixed, entry);
      if !c.fixed {
        fixed := false;
      }
      if bytes == None {
        bytes := Some(c.bytes);
      } else if bytes.value != c.bytes {
        fixed := false;
        if bytes.value > c.bytes {
          bytes := Some(c.bytes);
        }
      }
    }

    /** The loop over the parameters, in the order of the dictionary; the first that differs is reported. */
    method MergeParams(more: map<string, string>) returns (clash: Option<string>)
      modifies this`params
      ensures clash.None? ==> params == old(params) + more && forall p :: p in more && p in old(params) ==> more[p] == old(params)[p]
      ensures clash.Some? ==> clash.value in more && clash.value in old(params) && more[clash.value] != old(params)[clash.value]
    {
      var left := more.Keys;
      while left != {}
        invariant left <= more.Keys
        invariant params.Keys == old(params).Keys + (more.Keys - left)
        invariant forall p :: p in params ==> params[p] == if p in more && p !in left then more[p] else old(params)[p]
        invariant forall p :: p in more && p !in left && p in old(params) ==> more[p] == old(params)[p]
        decreases |left|
      {
        var p :| p in left;
        if p !in params {
          params := params[p := more[p]];
        } else if params[p] != more[p] {
          return Some(p);
        }
        left := left - {p};
      }
      return None;
    }
  }

  ghost predicate KindsClash(a: IrMember, b: IrMember) {
    !a.decl.Pad? && Named(b, a.decl.name) && !OneKind(a.decl, b.decl)
  }

  /** A class that cannot be merged: a member of another kind, or a parameter with another value, than some earlier class. */
  ghost predicate Clashes(history: seq<Entry>, c: IrClass) {
    || (exists k, a, b :: 0 <= k < |history| && a in history[k].class_.members && b in c.members && KindsClash(a, b))
    || (exists a, b :: a in c.members && b in c.members && KindsClash(a, b))
    || (exists k, p :: 0 <= k < |history| && p in history[k].class_.params && p in c.params && c.params[p] != history[k].class_.params[p])
  }

  /** Position of the member with a name in an ordered dictionary. */
  function Lookup(members: seq<IrMember>, name: Option<string>): (i: nat)
    ensures i <= |members| && (i < |members| ==> NameOf(members[i]) == name)
    ensures i == |members| ==> forall k :: 0 <= k < |members| ==> NameOf(members[k]) != name
  {
    if members == [] then 0 else if NameOf(members[0]) == name then 0 else 1 + Lookup(members[1..], name)
  }

  /** The entries of a dictionary come from earlier classes or from the class being added. */
  ghost predicate MergedFrom(members: seq<IrMember>, old_: seq<IrMember>, more: seq<IrMember>) {
    && |old_| <= |members| && members[..|old_|] == old_
    && (forall i :: |old_| <= i < |members| ==> members[i] in more)
  }

  /** The loop over the members of a class. */
  method MergeMembers(members: seq<IrMember>, more: seq<IrMember>) returns (r: Result<seq<IrMember>, UnifyError>)
    requires ByName(members)
    ensures r.Ok? ==> r.value == Extended(members, more)
    ensures r.Ok? ==> ByName(r.value) && Covers(r.value, more) && MergedFrom(r.value, members, more)
    ensures r.Err? ==> r.error.KindMismatch? && exists a, b :: (a in members || a in more) && b in more && KindsClash(a, b)
  {
    hide SameKind, Extended, HasEntry, Covers;
    var merged := members;
    NothingOffered(members);
    for i := 0 to |more|
      invariant merged == Extended(members, more[..i])
      invariant ByName(merged) && Covers(merged, more[..i]) && MergedFrom(merged, members, more)
    {
      var m := more[i];
      assert more[..i + 1] == more[..i] + [m];
      OneMoreOffered(members, more[..i], m);
      if NameOf(m).None? {
        UnnamedCovered(merged, more[..i], m);
      } else {
        var at := Lookup(merged, NameOf(m));
        if at == |merged| {
          OneMoreEntry(merged, more[..i], m);
          merged := merged + [m];
        } else if !SameKind(merged[at], m) {
          if at < |members| {
            assert merged[..|members|][at] == merged[at];
          }
          KindsTold(merged[at], m);
          assert KindsClash(merged[at], m);
          return Err(KindMismatch(m.decl.name));
        } else {
          KnownCovered(merged, more[..i], m, at);
        }
      }
    }
    assert more[..|more|] == more;
    return Ok(merged);
  }

  lemma KindsTold(a: IrMember, b: IrMember)
    ensures SameKind(a, b) <==> OneKind(a.decl, b.decl)
  {}

  lemma OneMoreEntry(members: seq<IrMember>, c: seq<IrMember>, m: IrMember)
    requires Covers(members, c)
    ensures Covers(members + [m], c + [m])
  {}

  lemma UnnamedCovered(members: seq<IrMember>, c: seq<IrMember>, m: IrMember)
    requires Covers(members, c) && NameOf(m).None?
    ensures Covers(members, c + [m])
  {}

  lemma KnownCovered(members: seq<IrMember>, c: seq<IrMember>, m: IrMember, at: nat)
    requires Covers(members, c) && at < |members| && NameOf(members[at]) == NameOf(m) && SameKind(members[at], m)
    ensures Covers(members, c + [m])
  {}

  lemma NothingOffered(members: seq<IrMember>)
    ensures Extended(members, []) == members && Covers(members, [])
  {}

  lemma OneMoreOffered(members: seq<IrMember>, more: seq<IrMember>, m: IrMember)
    ensures var before := Extended(members, more);
            Extended(members, more + [m]) == if NameOf(m).None? || Lookup(before, NameOf(m)) < |before| then before else before + [m]
  {
    assert (more + [m])[..|more|] == more;
  }

  // --- one more class ---------------------------------------------------------------------------------------------------

  lemma MembersByName(history: seq<Entry>, members: seq<IrMember>)
    requires MembersOf(history, members)
    ensures ByName(members)
  {}

  lemma MembersClash(history: seq<Entry>, members: seq<IrMember>, c: IrClass)
    requires MembersOf(history, members)
    requires exists a, b :: (a in members || a in c.members) && b in c.members && KindsClash(a, b)
    ensures Clashes(history, c)
  {}

  lemma ParamsClash(history: seq<Entry>, params: map<string, string>, c: IrClass, p: string)
    requires ParamsOf(history, params) && p in c.params && p in params && c.params[p] != params[p]
    ensures Clashes(history, c)
  {}

  lemma OneMoreClass(history: seq<Entry>, old_: seq<IrMember>, members: seq<IrMember>, entry: Entry)
    requires MembersOf(history, old_) && ByName(members) && members == Extended(old_, entry.class_.members)
    requires MergedFrom(members, old_, entry.class_.members) && Covers(members, entry.class_.members)
    ensures MembersOf(history + [entry], members)
  {
    hide FirstAt, HasEntry, ByName, NameOf, Extended;
    ExtendedTwice([], AllMembers(history), entry.class_.members);
    assert (history + [entry])[..|history|] == history;
    var longer := history + [entry];
    forall k | 0 <= k < |longer| ensures Covers(members, longer[k].class_.members) {
      if k < |history| {
        StillCovers(members, old_, history[k].class_.members);
      }
    }
    forall e | e in members
      ensures exists k :: FirstAt(e, longer, k)
    {
      var i :| 0 <= i < |members| && members[i] == e;
      if i < |old_| {
        assert e == members[..|old_|][i] && e in old_;
        var k :| FirstAt(e, history, k);
        StillFirst(e, history, k, entry);
      } else {
        NewIsFirst(history, old_, members, i, entry);
      }
    }
  }

  lemma StillCovers(members: seq<IrMember>, old_: seq<IrMember>, c: seq<IrMember>)
    requires |old_| <= |members| && members[..|old_|] == old_ && Covers(old_, c)
    ensures Covers(members, c)
  {}

  lemma StillFirst(e: IrMember, history: seq<Entry>, k: nat, entry: Entry)
    requires FirstAt(e, history, k)
    ensures FirstAt(e, history + [entry], k)
  {}

  lemma NewIsFirst(history: seq<Entry>, old_: seq<IrMember>, members: seq<IrMember>, i: nat, entry: Entry)
    requires MembersOf(history, old_) && ByName(members) && MergedFrom(members, old_, entry.class_.members)
    requires |old_| <= i < |members|
    ensures FirstAt(members[i], history + [entry], |history|)
  {}

  lemma OneMoreParams(history: seq<Entry>, params: map<string, string>, entry: Entry)
    requires ParamsOf(history, params)
    requires forall p :: p in entry.class_.params && p in params ==> entry.class_.params[p] == params[p]
    ensures ParamsOf(history + [entry], params + entry.class_.params)
  {
    var longer, more := history + [entry], params + entry.class_.params;
    assert longer[|history|] == entry;
    forall p | p in more ensures exists k :: 0 <= k < |longer| && p in longer[k].class_.params {
      if p in entry.class_.params {
        assert p in longer[|history|].class_.params;
      } else {
        var k :| 0 <= k < |history| && p in history[k].class_.params;
        assert p in longer[k].class_.params;
      }
    }
  }

  lemma OneMoreSuper(history: seq<Entry>, entry: Entry)
    ensures LastSuper(history + [entry]) == SuperName(entry.class_)
  {}

  lemma OneMoreVirtual(history: seq<Entry>, isVirtual: bool, entry: Entry)
    requires VirtualOf(history, isVirtual)
    ensures VirtualOf(history + [entry], isVirtual || entry.class_.isVirtual)
  {
    assert (history + [entry])[|history|] == entry;
    assert forall k :: 0 <= k < |history| ==> (history + [entry])[k] == history[k];
  }

  lemma OneMoreLength(history: seq<Entry>, bytes: Option<nat>, fixed: bool, entry: Entry)
    requires LengthOf(history, bytes, fixed)
    ensures var c := entry.class_;
            LengthOf(history + [entry], Some(if bytes == None || bytes.value > c.bytes then c.bytes else bytes.value),
                     fixed && c.fixed && (bytes == None || bytes.value == c.bytes))
  {
    var longer, c := history + [entry], entry.class_;
    assert longer[|history|] == entry;
    assert forall k :: 0 <= k < |history| ==> longer[k] == history[k];
    var least := if bytes == None || bytes.value > c.bytes then c.bytes else bytes.value;
    if least != c.bytes {
      var k :| 0 <= k < |history| && history[k].class_.bytes == bytes.value;
      assert longer[k].class_.bytes == least;
    }
  }

  lemma OneMoreVersion(history: seq<Entry>, versions: map<nat, IrClass>, entry: Entry)
    requires VersionsOf(history, versions)
    ensures VersionsOf(history + [entry], versions[entry.version := entry.class_])
  {
    var longer, now := history + [entry], versions[entry.version := entry.class_];
    assert longer[|history|] == entry;
    forall v | v in now ensures exists k :: 0 <= k < |longer| && longer[k].version == v {
      if v != entry.version {
        var k :| 0 <= k < |history| && history[k].version == v;
        assert longer[k].version == v;
      }
    }
    forall k | 0 <= k < |longer| && (forall j :: k < j < |longer| ==> longer[j].version != longer[k].version)
      ensures longer[k].version in now && now[longer[k].version] == longer[k].class_
    {
      if k < |history| {
        assert longer[|history|].version != longer[k].version;
        assert forall j :: k < j < |history| ==> longer[j] == history[j];
      }
    }
  }
}

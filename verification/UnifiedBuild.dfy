/** The unified protocol: superclass lookups, and instance-of across versions. */
module UnifiedBuild {
  import opened Options
  import opened Results
  import opened IrInput
  import opened IrBuilder
  import opened Unified

  datatype Protocol = Protocol(version: nat, classes: seq<IrClass>)

  function EntriesOf(version: nat, classes: seq<IrClass>): (es: seq<Entry>)
    ensures |es| == |classes| && forall i :: 0 <= i < |classes| ==> es[i] == Entry(version, classes[i])
  {
    seq(|classes|, i requires 0 <= i < |classes| => Entry(version, classes[i]))
  }

  /** All classes of all versions, in the order in which they are merged. */
  function Flat(protocols: seq<Protocol>): seq<Entry> {
    if protocols == [] then
      []
    else
      var last := protocols[|protocols| - 1];
      Flat(protocols[..|protocols| - 1]) + EntriesOf(last.version, last.classes)
  }

  /** The classes of one name. */
  function Of(all: seq<Entry>, n: string): seq<Entry> {
    if all == [] then
      []
    else
      var last := all[|all| - 1];
      Of(all[..|all| - 1], n) + (if last.class_.name == n then [last] else [])
  }

  /** The names in the order of their first appearance. */
  function Names(all: seq<Entry>): seq<string> {
    if all == [] then
      []
    else
      var rest, last := Names(all[..|all| - 1]), all[|all| - 1].class_.name;
      if last in rest then rest else rest + [last]
  }

  lemma OneMoreEntry(all: seq<Entry>, e: Entry, n: string)
    ensures Of(all + [e], n) == Of(all, n) + (if e.class_.name == n then [e] else [])
    ensures Names(all + [e]) == Names(all) + (if e.class_.name in Names(all) then [] else [e.class_.name])
  {}

  lemma {:induction false} OfUnnamed(all: seq<Entry>, n: string)
    ensures n in Names(all) <==> Of(all, n) != []
  {
    if all != [] {
      OfUnnamed(all[..|all| - 1], n);
    }
  }

  // --- merging ---------------------------------------------------------------------------------------------------------

  /** One specification per name, each made of the classes of its name. */
  ghost predicate SpecsOf(specs: map<string, UnifiedClassSpec>, all: seq<Entry>)
    reads specs.Values
  {
    forall n :: n in specs ==> specs[n].name == n && specs[n].Valid() && specs[n].history == Of(all, n)
  }

  ghost predicate SameNames(specs: map<string, UnifiedClassSpec>, names: seq<string>) {
    forall n :: n in specs <==> n in names
  }

  /** The specification of a name, made when there is none. */
  method SpecFor(specs: map<string, UnifiedClassSpec>, names: seq<string>, n: string, ghost all: seq<Entry>)
    returns (specs': map<string, UnifiedClassSpec>, names': seq<string>)
    requires SpecsOf(specs, all) && SameNames(specs, names) && names == Names(all)
    ensures SpecsOf(specs', all) && SameNames(specs', names') && n in specs'
    ensures names' == names + (if n in names then [] else [n])
    ensures forall k :: k in specs' ==> (k in specs && specs'[k] == specs[k]) || fresh(specs'[k])
  {
    hide UnifiedClassSpec.Valid, Names, Of;
    specs', names' := specs, names;
    if n !in specs {
      OfUnnamed(all, n);
      var made := new UnifiedClassSpec(n);
      specs' := specs'[n := made];
      names' := names' + [n];
    }
  }

  /** One class is merged into the specification of its name. */
  method MergeInto(specs: map<string, UnifiedClassSpec>, version: nat, c: IrClass, ghost all: seq<Entry>) returns (failed: Option<UnifyError>)
    requires SpecsOf(specs, all) && c.name in specs
    modifies specs[c.name]
    ensures failed.None? ==> SpecsOf(specs, all + [Entry(version, c)])
    ensures failed.Some? ==> Clashes(Of(all, c.name), c) && !failed.value.NoSuperclass?
  {
    hide UnifiedClassSpec.Valid, Clashes, Of;
    failed := specs[c.name].AddClass(version, c);
    if failed.None? {
      forall n | n in specs ensures specs[n].name == n && specs[n].Valid() && specs[n].history == Of(all + [Entry(version, c)], n) {
        OneMoreEntry(all, Entry(version, c), n);
      }
    }
  }

  // --- the unified classes --------------------------------------------------------------------------------------------------

  /** What the merged class at position `k` is made of; its superclass is an earlier merged class. */
  ghost predicate IsMerged(all: seq<Entry>, us: seq<UClass>, k: nat)
    requires k < |us| <= |Names(all)|
  {
    var u, h := us[k], Of(all, Names(all)[k]);
    && u.name == Names(all)[k] && MembersOf(h, u.members) && ParamsOf(h, u.params) && VersionsOf(h, u.versions)
    && LengthOf(h, Some(u.bytes), u.fixed) && VirtualOf(h, u.isVirtual)
    && (LastSuper(h).None? ==> u.superclass.None?)
    && (LastSuper(h).Some? ==> exists j :: 0 <= j < k && us[j].name == LastSuper(h).value && u.superclass == Some(us[j]))
  }

  ghost predicate IsUnified(all: seq<Entry>, us: seq<UClass>) {
    |us| <= |Names(all)| && forall k :: 0 <= k < |us| ==> IsMerged(all, us, k)
  }

  /** The superclass that the last version gives to a class is not among the classes before it. */
  ghost predicate Misses(all: seq<Entry>, n: string, s: string) {
    exists k :: 0 <= k < |Names(all)| && Names(all)[k] == n && LastSuper(Of(all, n)) == Some(s) && s !in Names(all)[..k]
  }

  /** Some class does not fit those of its name before it. */
  ghost predicate SomeClash(all: seq<Entry>) {
    exists k :: 0 <= k < |all| && Clashes(Of(all[..k], all[k].class_.name), all[k].class_)
  }

  /** The classes of one protocol, after those in `start`. */
  method MergeProtocol(specs: map<string, UnifiedClassSpec>, names: seq<string>, p: Protocol, ghost start: seq<Entry>, ghost flat: seq<Entry>)
    returns (specs': map<string, UnifiedClassSpec>, names': seq<string>, failed: Option<UnifyError>)
    requires SpecsOf(specs, start) && SameNames(specs, names) && names == Names(start)
    requires start + EntriesOf(p.version, p.classes) <= flat
    modifies specs.Values
    ensures failed.None? ==>
      var all := start + EntriesOf(p.version, p.classes); SpecsOf(specs', all) && SameNames(specs', names') && names' == Names(all)
    ensures forall n :: n in specs' ==> (n in specs && specs'[n] == specs[n]) || fresh(specs'[n])
    ensures failed.Some? ==> !failed.value.NoSuperclass? && SomeClash(flat)
  {
    hide UnifiedClassSpec.Valid, Clashes, SomeClash, Of, Names, EntriesOf, SameNames;
    specs', names' := specs, names;
    ghost var all, rest := start, EntriesOf(p.version, p.classes);
    assert rest[..0] == [] && start + [] == start;
    for j := 0 to |p.classes|
      invariant all == start + rest[..j]
      invariant SpecsOf(specs', all) && SameNames(specs', names') && names' == Names(all)
      invariant forall n :: n in specs' ==> (n in specs && specs'[n] == specs[n]) || fresh(specs'[n])
    {
      var c := p.classes[j];
      ghost var e := Entry(p.version, c);
      OneMoreEntry(all, e, c.name);
      specs', names' := SpecFor(specs', names', c.name, all);
      failed := MergeInto(specs', p.version, c, all);
      if failed.Some? {
        ClashAt(flat, all, e);
        return;
      }
      all := all + [e];
    }
    assert rest[..|p.classes|] == rest;
    failed := None;
  }

  /** `build_unified_ir`. */
  method BuildUnified(protocols: seq<Protocol>) returns (r: Result<seq<UClass>, UnifyError>)
    ensures r.Ok? ==> IsUnified(Flat(protocols), r.value) && |r.value| == |Names(Flat(protocols))|
    ensures r.Err? ==> if r.error.NoSuperclass? then Misses(Flat(protocols), r.error.name, r.error.superclass) else SomeClash(Flat(protocols))
  {
    hide UnifiedClassSpec.Valid, SomeClash, Of, Names, Misses, IsUnified, EntriesOf, Flat, SameNames;
    var specs: map<string, UnifiedClassSpec>, names := map[], [];
    NothingMerged(specs);
    assert protocols[..0] == [];
    for i := 0 to |protocols|
      invariant SpecsOf(specs, Flat(protocols[..i])) && SameNames(specs, names) && names == Names(Flat(protocols[..i]))
      invariant forall n :: n in specs ==> fresh(specs[n])
    {
      FlatGrows(protocols, i);
      var failed: Option<UnifyError>;
      specs, names, failed := MergeProtocol(specs, names, protocols[i], Flat(protocols[..i]), Flat(protocols));
      if failed.Some? {
        return Err(failed.value);
      }
    }
    assert protocols[..|protocols|] == protocols;
    r := Link(specs, names, Flat(protocols));
  }

  /** The loop that makes the unified classes, with a lookup of the superclass among those already made. */
  method Link(specs: map<string, UnifiedClassSpec>, names: seq<string>, ghost all: seq<Entry>) returns (r: Result<seq<UClass>, UnifyError>)
    requires SpecsOf(specs, all) && SameNames(specs, names) && names == Names(all)
    ensures r.Ok? ==> IsUnified(all, r.value) && |r.value| == |Names(all)|
    ensures r.Err? ==> r.error.NoSuperclass? && Misses(all, r.error.name, r.error.superclass)
  {
    hide Of, Names, MembersOf, ParamsOf, VersionsOf, LengthOf, VirtualOf;
    var us: seq<UClass> := [];
    for k := 0 to |names|
      invariant |us| == k && IsUnified(all, us)
    {
      var spec := specs[names[k]];
      NamesAppear(all, k);
      var superclass: Option<UClass> := None;
      if spec.superclassName.Some? {
        var at := LookupClass(us, spec.superclassName.value);
        if at == |us| {
          MissesAt(all, us, k);
          return Err(NoSuperclass(spec.name, spec.superclassName.value));
        }
        superclass := Some(us[at]);
        assert forall u :: (us + [u])[at] == us[at];
      }
      BytesKnown(spec.history, spec.bytes, spec.fixed);
      var u := UClass(spec.name, superclass, spec.members, spec.isVirtual, spec.params, spec.fixed, spec.bytes.value, spec.versionClass);
      OneMoreMerged(all, us, u);
      us := us + [u];
    }
    return Ok(us);
  }

  function LookupClass(us: seq<UClass>, name: string): (i: nat)
    ensures i <= |us| && (i < |us| ==> us[i].name == name)
    ensures i == |us| ==> forall k :: 0 <= k < |us| ==> us[k].name != name
  {
    if us == [] then 0 else if us[0].name == name then 0 else 1 + LookupClass(us[1..], name)
  }

  lemma NothingMerged(specs: map<string, UnifiedClassSpec>)
    requires specs == map[]
    ensures Names([]) == [] && Flat([]) == [] && SameNames(specs, [])
  {}

  lemma {:induction false} FlatGrows(protocols: seq<Protocol>, i: nat)
    requires i < |protocols|
    ensures Flat(protocols[..i + 1]) == Flat(protocols[..i]) + EntriesOf(protocols[i].version, protocols[i].classes)
    ensures Flat(protocols[..i + 1]) <= Flat(protocols)
  {
    hide EntriesOf;
    assert protocols[..i + 1][..i] == protocols[..i];
    if i < |protocols| - 1 {
      FlatGrows(protocols[..|protocols| - 1], i);
      assert protocols[..|protocols| - 1][..i + 1] == protocols[..i + 1];
      assert protocols[..|protocols| - 1][..i] == protocols[..i];
    } else {
      assert protocols[..i + 1] == protocols;
    }
  }

  lemma ClashAt(flat: seq<Entry>, all: seq<Entry>, e: Entry)
    requires all + [e] <= flat && Clashes(Of(all, e.class_.name), e.class_)
    ensures SomeClash(flat)
  {
    hide Clashes, Of;
    assert (all + [e])[|all|] == e;
    assert flat[..|all|] == flat[..|all| + 1][..|all|] == all;
    assert flat[|all|] == e;
  }

  lemma {:induction false} NamesAppear(all: seq<Entry>, k: nat)
    requires k < |Names(all)|
    ensures Of(all, Names(all)[k]) != []
  {
    OfUnnamed(all, Names(all)[k]);
  }

  lemma BytesKnown(h: seq<Entry>, bytes: Option<nat>, fixed: bool)
    requires LengthOf(h, bytes, fixed) && h != []
    ensures bytes.Some?
  {}

  lemma OneMoreMerged(all: seq<Entry>, us: seq<UClass>, u: UClass)
    requires IsUnified(all, us) && |us| < |Names(all)| && IsMerged(all, us + [u], |us|)
    ensures IsUnified(all, us + [u])
  {
    hide Of, Names, MembersOf, ParamsOf, VersionsOf, LengthOf, VirtualOf;
    var longer := us + [u];
    forall k | 0 <= k < |us| ensures IsMerged(all, longer, k) {
      assert IsMerged(all, us, k);
      var s := LastSuper(Of(all, Names(all)[k]));
      if s.Some? {
        var j :| 0 <= j < k && us[j].name == s.value && us[k].superclass == Some(us[j]);
        assert longer[j] == us[j];
      }
    }
  }

  lemma MissesAt(all: seq<Entry>, us: seq<UClass>, k: nat)
    requires |us| == k < |Names(all)| && IsUnified(all, us) && LastSuper(Of(all, Names(all)[k])).Some?
    requires forall j :: 0 <= j < |us| ==> us[j].name != LastSuper(Of(all, Names(all)[k])).value
    ensures Misses(all, Names(all)[k], LastSuper(Of(all, Names(all)[k])).value)
  {
    hide Of, Names, MembersOf, ParamsOf, VersionsOf, LengthOf, VirtualOf;
    forall j | 0 <= j < k ensures Names(all)[j] != LastSuper(Of(all, Names(all)[k])).value {
      assert IsMerged(all, us, j);
    }
  }
}

/** When the unified hierarchy answers as each version's own does. */
module UnifiedTheorems {
  import opened Options
  import opened IrInput
  import opened IrBuilder
  import IrIds
  import opened Unified
  import opened UnifiedBuild

  /** A superclass is an earlier class of the same version, with another name: what each version's build gives. */
  ghost predicate Ordered(all: seq<Entry>) {
    forall i :: 0 <= i < |all| && all[i].class_.superclass.Some? ==> SuperBefore(all, i)
  }

  ghost predicate SuperBefore(all: seq<Entry>, i: nat)
    requires i < |all| && all[i].class_.superclass.Some?
  {
    var s := all[i].class_.superclass.value;
    s.name != all[i].class_.name && exists j :: 0 <= j < i && all[j] == Entry(all[i].version, s)
  }

  /** A class has the same superclass name in all versions that have it. */
  ghost predicate SupersAgree(all: seq<Entry>) {
    forall i, j :: 0 <= i < |all| && 0 <= j < |all| && all[i].class_.name == all[j].class_.name ==>
      SuperName(all[i].class_) == SuperName(all[j].class_)
  }

  // --- positions -----------------------------------------------------------------------------------------------------

  lemma {:induction false} NamesDistinct(all: seq<Entry>)
    ensures forall i, j :: 0 <= i < j < |Names(all)| ==> Names(all)[i] != Names(all)[j]
  {
    if all != [] {
      NamesDistinct(all[..|all| - 1]);
    }
  }

  lemma {:induction false} NamedInNames(all: seq<Entry>, i: nat)
    requires i < |all|
    ensures all[i].class_.name in Names(all)
  {
    if i < |all| - 1 {
      NamedInNames(all[..|all| - 1], i);
      assert all[..|all| - 1][i] == all[i];
    }
  }

  /** Where a name appears first, the names before it are those that have appeared. */
  lemma {:induction false} FirstAppearance(all: seq<Entry>, k: nat) returns (f: nat)
    requires k < |Names(all)|
    ensures f < |all| && all[f].class_.name == Names(all)[k] && Names(all[..f]) == Names(all)[..k]
  {
    var front := all[..|all| - 1];
    if k < |Names(front)| {
      f := FirstAppearance(front, k);
      assert front[..f] == all[..f];
      assert Names(all)[..k] == Names(front)[..k];
    } else {
      f := |all| - 1;
      assert Names(all)[..k] == Names(front);
    }
  }

  lemma {:induction false} LastIsEntry(all: seq<Entry>, n: string) returns (i: nat)
    requires n in Names(all)
    ensures i < |all| && all[i].class_.name == n && LastSuper(Of(all, n)) == SuperName(all[i].class_)
  {
    if all[|all| - 1].class_.name == n {
      i := |all| - 1;
    } else {
      i := LastIsEntry(all[..|all| - 1], n);
      assert Of(all, n) == Of(all[..|all| - 1], n);
    }
  }

  // --- lookups -----------------------------------------------------------------------------------------------------------

  /** With agreeing superclass names, the lookup of a superclass never misses. */
  lemma NeverMisses(all: seq<Entry>, n: string, s: string)
    requires Ordered(all) && SupersAgree(all)
    ensures !Misses(all, n, s)
  {
    hide Names, Of;
    if n in Names(all) && LastSuper(Of(all, n)) == Some(s) {
      var last := LastIsEntry(all, n);
      forall k | 0 <= k < |Names(all)| && Names(all)[k] == n
        ensures s in Names(all)[..k]
      {
        var f := FirstAppearance(all, k);
        assert SuperName(all[f].class_) == SuperName(all[last].class_) && SuperBefore(all, f);
        var j :| 0 <= j < f && all[j] == Entry(all[f].version, all[f].class_.superclass.value);
        NamedInNames(all[..f], j);
      }
    }
  }

  // --- instance-of ------------------------------------------------------------------------------------------------------------

  /** For every class, every version that has it and every ancestor name, both hierarchies answer alike. */
  ghost predicate InstancesAgree(all: seq<Entry>, us: seq<UClass>) {
    forall i, k, a :: 0 <= i < |all| && 0 <= k < |us| && us[k].name == all[i].class_.name ==>
      (us[k].IsInstanceOf(a) <==> all[i].class_.IsInstanceOf(a))
  }

  lemma {:induction false} SupersGiveInstances(all: seq<Entry>, us: seq<UClass>, i: nat, k: nat, a: string)
    requires Ordered(all) && SupersAgree(all) && IsUnified(all, us)
    requires i < |all| && k < |us| && us[k].name == all[i].class_.name
    ensures us[k].IsInstanceOf(a) <==> all[i].class_.IsInstanceOf(a)
    decreases k
  {
    hide Names, Of, MembersOf, ParamsOf, VersionsOf, LengthOf, VirtualOf;
    assert IsMerged(all, us, k);
    NamedInNames(all, i);
    var last := LastIsEntry(all, us[k].name);
    assert SuperName(all[last].class_) == SuperName(all[i].class_);
    if all[i].class_.superclass.Some? {
      assert SuperBefore(all, i);
      var p :| 0 <= p < i && all[p] == Entry(all[i].version, all[i].class_.superclass.value);
      var j :| 0 <= j < k && us[j].name == SuperName(all[i].class_).value && us[k].superclass == Some(us[j]);
      SupersGiveInstances(all, us, p, j, a);
    }
  }

  /** The ancestors of a unified class are unified classes at or before its own position. */
  lemma {:induction false} AncestorsBefore(all: seq<Entry>, us: seq<UClass>, k: nat, a: string) returns (p: nat)
    requires IsUnified(all, us) && k < |us| && us[k].IsInstanceOf(a)
    ensures p <= k && us[p].name == a
    decreases k
  {
    hide Names, Of, MembersOf, ParamsOf, VersionsOf, LengthOf, VirtualOf;
    if us[k].name == a {
      p := k;
    } else {
      assert IsMerged(all, us, k);
      var j :| 0 <= j < k && us[j].name == LastSuper(Of(all, Names(all)[k])).value && us[k].superclass == Some(us[j]);
      p := AncestorsBefore(all, us, j, a);
    }
  }

  lemma SamePosition(all: seq<Entry>, us: seq<UClass>, i: nat, j: nat)
    requires IsUnified(all, us) && i < |us| && j < |us| && us[i].name == us[j].name
    ensures i == j
  {
    hide Names, Of, MembersOf, ParamsOf, VersionsOf, LengthOf, VirtualOf;
    assert IsMerged(all, us, i) && IsMerged(all, us, j);
    NamesDistinct(all);
  }

  lemma InstanceOfOwnSuper(c: IrClass)
    ensures c.superclass.Some? ==> c.IsInstanceOf(c.superclass.value.name)
  {}

  /** Any entry of a class has the superclass name that the unified class got from the last one. */
  lemma InstancesGiveSuper(all: seq<Entry>, us: seq<UClass>, i: nat, k: nat)
    requires Ordered(all) && IsUnified(all, us) && |us| == |Names(all)| && InstancesAgree(all, us)
    requires i < |all| && k < |us| && us[k].name == all[i].class_.name
    ensures SuperName(all[i].class_) == LastSuper(Of(all, us[k].name))
  {
    hide Names, Of, MembersOf, ParamsOf, VersionsOf, LengthOf, VirtualOf;
    assert IsMerged(all, us, k);
    var c, u := all[i].class_, us[k];
    var mine, last := SuperName(c), LastSuper(Of(all, u.name));
    InstanceOfOwnSuper(c);
    assert c.superclass.Some? ==> c.superclass.value.name != c.name;
    if last.Some? {
      var j :| 0 <= j < k && us[j].name == last.value && u.superclass == Some(us[j]);
      if us[j].name == u.name {
        SamePosition(all, us, j, k);
      }
      assert us[j].IsInstanceOf(last.value) && u.IsInstanceOf(last.value) && c.IsInstanceOf(last.value);
      assert c.superclass.Some? && SuperBefore(all, i);
      var f :| 0 <= f < i && all[f] == Entry(all[i].version, c.superclass.value);
      assert all[f].class_.IsInstanceOf(last.value);
      assert c.superclass.value.IsInstanceOf(mine.value) && c.IsInstanceOf(mine.value) && u.IsInstanceOf(mine.value);
      assert us[j].IsInstanceOf(mine.value);
      var p := AncestorsBefore(all, us, j, mine.value);
      assert us[p].IsInstanceOf(last.value);
      var q := AncestorsBefore(all, us, p, last.value);
      SamePosition(all, us, q, j);
    }
  }

  /** Instance-of agrees everywhere exactly when every class has one superclass name in all its versions. */
  lemma InstancesAgreeExactly(all: seq<Entry>, us: seq<UClass>)
    requires Ordered(all) && IsUnified(all, us) && |us| == |Names(all)|
    ensures InstancesAgree(all, us) <==> SupersAgree(all)
  {
    hide IsUnified, Names, Of, LastSuper;
    if SupersAgree(all) {
      forall i, k, a | 0 <= i < |all| && 0 <= k < |us| && us[k].name == all[i].class_.name
        ensures us[k].IsInstanceOf(a) <==> all[i].class_.IsInstanceOf(a)
      {
        SupersGiveInstances(all, us, i, k, a);
      }
    }
    if InstancesAgree(all, us) {
      forall i, j | 0 <= i < |all| && 0 <= j < |all| && all[i].class_.name == all[j].class_.name
        ensures SuperName(all[i].class_) == SuperName(all[j].class_)
      {
        var k := UnifiedAt(all, us, i);
        InstancesGiveSuper(all, us, i, k);
        InstancesGiveSuper(all, us, j, k);
      }
    }
  }

  lemma UnifiedAt(all: seq<Entry>, us: seq<UClass>, i: nat) returns (k: nat)
    requires IsUnified(all, us) && |us| == |Names(all)| && i < |all|
    ensures k < |us| && us[k].name == all[i].class_.name
  {
    hide Names, Of, MembersOf, ParamsOf, VersionsOf, LengthOf, VirtualOf;
    NamedInNames(all, i);
    k :| 0 <= k < |Names(all)| && Names(all)[k] == all[i].class_.name;
    assert IsMerged(all, us, k);
  }

  // --- the classes of a build ----------------------------------------------------------------------------------------------------

  /** The protocol that a build makes, with its classes in the order in which they were finished. */
  function ProtocolOf(version: nat, classes: map<string, IrClass>, order: seq<string>): Protocol
    requires forall n :: n in order ==> n in classes
  {
    Protocol(version, seq(|order|, i requires 0 <= i < |order| => classes[order[i]]))
  }

  ghost predicate IsBuilt(p: Protocol) {
    exists inp: Input, classes: map<string, IrClass>, order: seq<string>, ids: map<string, Origin>, trail: seq<string> ::
      Inv(inp, classes, order, ids, trail) && p == ProtocolOf(p.version, classes, order)
  }

  lemma BuiltSuperBefore(p: Protocol, i: nat) returns (j: nat)
    requires IsBuilt(p) && i < |p.classes| && p.classes[i].superclass.Some?
    ensures j < i && p.classes[j] == p.classes[i].superclass.value && p.classes[j].name != p.classes[i].name
  {
    hide Made;
    var inp: Input, classes: map<string, IrClass>, order: seq<string>, ids: map<string, Origin>, trail: seq<string> :|
      Inv(inp, classes, order, ids, trail) && p == ProtocolOf(p.version, classes, order);
    var n := order[i];
    IrIds.SuperclassFirst(inp, classes, order, ids, trail, n);
    var s := classes[n].superclass.value.name;
    j := Position(order, s);
    assert order[Position(order, n)] == n;
  }

  /** Built protocols, merged, are in order. */
  lemma {:induction false} BuiltIsOrdered(protocols: seq<Protocol>)
    requires forall i :: 0 <= i < |protocols| ==> IsBuilt(protocols[i])
    ensures Ordered(Flat(protocols))
  {
    hide IsBuilt;
    if protocols != [] {
      var front, p := protocols[..|protocols| - 1], protocols[|protocols| - 1];
      BuiltIsOrdered(front);
      var all, m := Flat(protocols), |Flat(front)|;
      forall i | 0 <= i < |all| && all[i].class_.superclass.Some? ensures SuperBefore(all, i) {
        if i < m {
          assert all[i] == Flat(front)[i] && SuperBefore(Flat(front), i);
          var j :| 0 <= j < i && Flat(front)[j] == Entry(all[i].version, all[i].class_.superclass.value);
          assert all[j] == Flat(front)[j];
        } else {
          var j := BuiltSuperBefore(p, i - m);
          assert all[m + j] == Entry(all[i].version, all[i].class_.superclass.value);
        }
      }
    }
  }
}

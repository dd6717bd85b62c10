/** What the layout of a built class is, said without the functions that compute it. */
module IrRules {
  import opened Options
  import opened Results
  import opened IrInput
  import opened IrLayout
  import opened IrBuilder
  import opened IrTheorems
  import opened IrIds
  import InputLexer

  // --- the length of a member ------------------------------------------------------------------------------------------------

  predicate Begins(s: string, front: string) {
    |front| <= |s| && forall i :: 0 <= i < |front| ==> s[i] == front[i]
  }

  predicate Decimal(c: string) {
    c != "" && forall i :: 0 <= i < |c| ==> '0' <= c[i] <= '9'
  }

  /** The number that digits write behind a number already read. */
  function ReadOn(c: string, n: nat): nat
    requires forall i :: 0 <= i < |c| ==> '0' <= c[i] <= '9'
  {
    if c == "" then n else ReadOn(c[1..], 10 * n + (c[0] as nat - '0' as nat))
  }

  ghost predicate CountIs(tables: Tables, c: string, count: nat) {
    if c in tables.constants then count == tables.constants[c] else Decimal(c) && count == ReadOn(c, 0)
  }

  /** `base[c]`, with a number or a named constant for `c`; a type without brackets counts once. */
  ghost predicate IsArray(tables: Tables, oftype: string, base: string, c: string, rest: string, count: nat) {
    && oftype == base + "[" + c + rest && '[' !in base && '[' !in c && ']' !in c
    && (rest == "" || rest[0] == '[' || rest[0] == ']') && CountIs(tables, c, count)
  }

  ghost predicate IsCounted(tables: Tables, oftype: string, base: string, count: nat) {
    if '[' in oftype then exists c, rest :: IsArray(tables, oftype, base, c, rest, count) else base == oftype && count == 1
  }

  /** The type as it is in this version. */
  ghost predicate InVersion(inp: Input, base: string, resolved: string) {
    if base in inp.tables.mixed then inp.version in inp.tables.mixed[base] && resolved == inp.tables.mixed[base][inp.version]
    else resolved == base
  }

  /** One element: of a class that exists, its length, in steps of eight bytes when its own length leaves the alignment out;
      of an enum, that of its wire type; of all else, that of the tables. */
  ghost predicate OneIs(inp: Input, before: map<string, IrClass>, resolved: string, one: Len) {
    var cls := if |resolved| < 2 then "" else resolved[..|resolved| - 2];
    if cls in before then
      && one.fixed == before[cls].fixed
      && one.bytes == (if LeavesAlignmentOut(before[cls].params) then (before[cls].bytes + 7) / 8 * 8 else before[cls].bytes)
    else
      var name := if resolved !in inp.enums then resolved
                  else if inp.enums[resolved].wireType.Some? then inp.enums[resolved].wireType.value else inp.enums[resolved].name;
      name in inp.tables.base && one == inp.tables.base[name]
  }

  predicate LeavesAlignmentOut(params: map<string, string>) {
    "length_includes_align" in params && params["length_includes_align"] == "False"
  }

  ghost predicate IsElements(inp: Input, before: map<string, IrClass>, oftype: string, base: string, count: nat, resolved: string, one: Len, len: Len) {
    && IsCounted(inp.tables, oftype, base, count) && InVersion(inp, base, resolved) && OneIs(inp, before, resolved, one)
    && len == Len(count * one.bytes, one.fixed)
  }

  /** Lists and octet strings take no bytes and are not fixed; padding is as long as it says; other members are so many
      elements of their type. */
  ghost predicate Measures(inp: Input, before: map<string, IrClass>, m: Member, len: Len) {
    if m.Pad? then len == Len(m.length, true)
    else if Begins(m.oftype, "list(") then len == Len(0, false)
    else if Begins(m.oftype, "struct") then false
    else if m.oftype == "octets" then len == Len(0, false)
    else exists base, count, resolved, one :: IsElements(inp, before, m.oftype, base, count, resolved, one, len)
  }

  // --- the layout of a class ---------------------------------------------------------------------------------------------------

  /** Members are equal when their properties are, whatever their kinds. */
  predicate SameTuple(a: Member, b: Member) {
    if a.Pad? || b.Pad? then a == b
    else
      && a.name == b.name && a.oftype == b.oftype
      && (if a.TypeValue? then b.TypeValue? && a.value == b.value else !b.TypeValue?)
      && (if a.FieldLength? then b.FieldLength? && a.fieldName == b.fieldName else !b.FieldLength?)
  }

  ghost predicate IsLastOf(members: seq<Member>, i: nat, k: nat) {
    i <= k < |members| && SameTuple(members[i], members[k]) && forall j :: k < j < |members| ==> !SameTuple(members[i], members[j])
  }

  ghost predicate FixedTo(lens: seq<Len>, k: nat) {
    k <= |lens| && forall j :: 0 <= j < k ==> lens[j].fixed
  }

  /** A member has the place and length of the last one equal to it; a version member becomes a type member whose value is
      the wire version. */
  ghost predicate MemberPlaced(inp: Input, d: Decl, lens: seq<Len>, starts: seq<nat>, i: nat, m: IrMember)
    requires i < |d.members| == |lens| < |starts|
  {
    && m.decl == (match d.members[i] case Version(name, oftype) => TypeValue(name, oftype, inp.version) case other => other)
    && exists k: nat :: IsLastOf(d.members, i, k) && m.info == LengthInfo(if FixedTo(lens, k) then Some(starts[k]) else None, lens[k].bytes, lens[k].fixed)
  }

  /** Members stand one after the other; a place is known when all before it is fixed. The class is as long as they are
      together, and fixed when all are and it is not virtual. */
  ghost predicate LaidByRules(inp: Input, before: map<string, IrClass>, d: Decl, c: IrClass, lens: seq<Len>, starts: seq<nat>) {
    && |lens| == |d.members| == |c.members| && |starts| == |lens| + 1 && starts[0] == 0
    && (forall i :: 0 <= i < |lens| ==> Measures(inp, before, d.members[i], lens[i]) && starts[i + 1] == starts[i] + lens[i].bytes)
    && (forall i :: 0 <= i < |lens| ==> MemberPlaced(inp, d, lens, starts, i, c.members[i]))
    && c.bytes == starts[|lens|] && (c.fixed <==> FixedTo(lens, |lens|) && !d.isVirtual)
    && c.name == d.name && c.isVirtual == d.isVirtual && c.params == d.params
  }

  // --- type strings --------------------------------------------------------------------------------------------------------------

  lemma BeginsIs(s: string, front: string)
    ensures Begins(s, front) <==> StartsWith(s, front)
  {
    if StartsWith(s, front) {
      forall i | 0 <= i < |front| ensures s[i] == front[i] {
        assert s[..|front|][i] == front[i];
      }
    }
  }

  lemma {:induction false} ReadOnIs(c: string, n: nat)
    requires forall i :: 0 <= i < |c| ==> '0' <= c[i] <= '9'
    ensures ReadOn(c, n) == n * Power(|c|) + InputLexer.Value(c, 10)
    decreases |c|
  {
    if c != "" {
      var k := |c| - 1;
      ReadOnLast(c, n);
      ReadOnIs(c[..k], n);
      assert InputLexer.DigitValue(c[k]) == c[k] as nat - '0' as nat;
      assert Power(|c|) == 10 * Power(k);
      assert n * (10 * Power(k)) == 10 * (n * Power(k));
    }
  }

  function Power(k: nat): nat {
    if k == 0 then 1 else 10 * Power(k - 1)
  }

  lemma {:induction false} ReadOnLast(c: string, n: nat)
    requires c != "" && forall i :: 0 <= i < |c| ==> '0' <= c[i] <= '9'
    ensures ReadOn(c, n) == 10 * ReadOn(c[..|c| - 1], n) + (c[|c| - 1] as nat - '0' as nat)
    decreases |c|
  {
    if |c| > 1 {
      ReadOnLast(c[1..], 10 * n + (c[0] as nat - '0' as nat));
      assert c[1..][..|c| - 2] == c[..|c| - 1][1..];
    } else {
      assert c[1..] == "" && c[..0] == "";
    }
  }

  lemma ParseIntIs(c: string, n: nat)
    ensures ParseInt(c) == Some(n) <==> Decimal(c) && n == ReadOn(c, 0)
  {
    if Decimal(c) {
      ReadOnIs(c, 0);
      assert forall i :: 0 <= i < |c| ==> InputLexer.IsDigit(c[i]);
    } else if c != "" {
      var i :| 0 <= i < |c| && !('0' <= c[i] <= '9');
      assert !InputLexer.IsDigit(c[i]);
    }
  }

  /** The position of the first bracket, and of what ends the count. */
  lemma FindIs(s: string, c: char, i: nat)
    requires i <= |s| && (i < |s| ==> s[i] == c) && forall j :: 0 <= j < i ==> s[j] != c
    ensures Find(s, c) == i
  {}

  /** The count and the element type between the brackets. */
  lemma BracketsRead(tables: Tables, oftype: string)
    requires '[' in oftype
    ensures var open := Find(oftype, '[');
            open < |oftype| &&
            var rest := oftype[open + 1..];
            var inner := rest[..Find(rest, '[')];
            var c := inner[..Find(inner, ']')];
            CountAndBase(tables, oftype) ==
              (if c in tables.constants then Ok((tables.constants[c], oftype[..open]))
               else if ParseInt(c).Some? then Ok((ParseInt(c).value, oftype[..open])) else Err(BadCount))
  {
    hide Find, ParseInt;
  }

  lemma CountRead(tables: Tables, c: string, count: nat)
    ensures CountIs(tables, c, count) <==> if c in tables.constants then count == tables.constants[c] else ParseInt(c) == Some(count)
  {
    hide ParseInt, ReadOn, Decimal;
    ParseIntIs(c, count);
  }

  lemma CountedOnward(tables: Tables, oftype: string, base: string, count: nat)
    requires CountAndBase(tables, oftype) == Ok((count, base))
    ensures IsCounted(tables, oftype, base, count)
  {
    hide ParseInt, CountIs, CountAndBase, Find;
    if '[' in oftype {
      BracketsRead(tables, oftype);
      var open := Find(oftype, '[');
      var rest := oftype[open + 1..];
      var end := Find(rest, '[');
      var inner := rest[..end];
      var k := Find(inner, ']');
      var c := inner[..k];
      CountRead(tables, c, count);
      Cut(oftype, open, rest, end, k);
      assert IsArray(tables, oftype, base, c, rest[k..], count);
    } else {
      NoBracket(tables, oftype);
    }
  }

  lemma Cut(oftype: string, open: nat, rest: string, end: nat, k: nat)
    requires open < |oftype| && oftype[open] == '[' && rest == oftype[open + 1..] && k <= end <= |rest|
    ensures oftype == oftype[..open] + "[" + rest[..end][..k] + rest[k..]
  {
    assert rest[..end][..k] == rest[..k] && rest == rest[..k] + rest[k..];
  }

  lemma NoBracket(tables: Tables, oftype: string)
    requires '[' !in oftype
    ensures CountAndBase(tables, oftype) == Ok((1, oftype))
  {
    assert Find(oftype, '[') == |oftype|;
  }

  lemma CountedBack(tables: Tables, oftype: string, base: string, count: nat)
    requires IsCounted(tables, oftype, base, count)
    ensures CountAndBase(tables, oftype) == Ok((count, base))
  {
    hide ParseInt, CountIs, CountAndBase, Find;
    if '[' in oftype {
      BracketsRead(tables, oftype);
      var c, rest :| IsArray(tables, oftype, base, c, rest, count);
      ArrayParts(tables, oftype, base, c, rest, count);
      CountRead(tables, c, count);
    } else {
      NoBracket(tables, oftype);
    }
  }

  lemma ArrayParts(tables: Tables, oftype: string, base: string, c: string, rest: string, count: nat)
    requires IsArray(tables, oftype, base, c, rest, count)
    ensures var open := Find(oftype, '[');
            open == |base| < |oftype| && oftype[..open] == base &&
            var after := oftype[open + 1..];
            var inner := after[..Find(after, '[')];
            inner[..Find(inner, ']')] == c
  {
    hide Find, CountIs;
    FindIs(oftype, '[', |base|);
    var after := oftype[|base| + 1..];
    assert after == c + rest;
    var i, inner := Find(after, '['), after[..Find(after, '[')];
    assert i >= |c| by {
      assert forall j :: 0 <= j < |c| ==> after[j] == c[j];
    }
    assert inner == c + rest[..i - |c|];
    assert |c| < |inner| ==> inner[|c|] == rest[0];
    FindIs(inner, ']', |c|);
  }

  lemma MeasuresIs(inp: Input, before: map<string, IrClass>, m: Member, len: Len)
    ensures MemberLen(inp, m, Sizes(before)) == Ok(len) <==> Measures(inp, before, m, len)
  {
    hide CountAndBase, IsCounted, IsElements;
    if !m.Pad? {
      BeginsIs(m.oftype, "list(");
      BeginsIs(m.oftype, "struct");
      if !StartsWith(m.oftype, "list(") && !StartsWith(m.oftype, "struct") && m.oftype != "octets" {
        if MemberLen(inp, m, Sizes(before)) == Ok(len) {
          ElementsOnward(inp, before, m, len);
        }
        if base, count, resolved, one :| IsElements(inp, before, m.oftype, base, count, resolved, one, len) {
          ElementsBack(inp, before, m, len, base, count, resolved, one);
        }
      }
    }
  }

  lemma OneOf(inp: Input, before: map<string, IrClass>, resolved: string, one: Len)
    ensures OneIs(inp, before, resolved, one) <==>
            (if DropTwo(resolved) in Sizes(before) then one == Sizes(before)[DropTwo(resolved)].AsMember() else TableLength(inp, resolved) == Ok(one))
  {}

  /** A type that is neither a list nor padding nor octets: so many elements. */
  lemma ElementsRead(inp: Input, m: Member, sizes: map<string, ClassSize>)
    requires !m.Pad? && !StartsWith(m.oftype, "list(") && !StartsWith(m.oftype, "struct") && m.oftype != "octets"
    ensures MemberLen(inp, m, sizes) ==
            (var counted := CountAndBase(inp.tables, m.oftype);
             if counted.Err? then Err(counted.error)
             else
               var resolved := Resolve(inp, counted.value.1);
               if resolved.Err? then Err(resolved.error)
               else
                 var cls := DropTwo(resolved.value);
                 var one := if cls in sizes then Ok(sizes[cls].AsMember()) else TableLength(inp, resolved.value);
                 if one.Err? then Err(one.error) else Ok(Len(counted.value.0 * one.value.bytes, one.value.fixed)))
  {
    hide CountAndBase, Resolve, TableLength;
  }

  lemma ElementsOnward(inp: Input, before: map<string, IrClass>, m: Member, len: Len)
    requires !m.Pad? && !StartsWith(m.oftype, "list(") && !StartsWith(m.oftype, "struct") && m.oftype != "octets"
    requires MemberLen(inp, m, Sizes(before)) == Ok(len)
    ensures exists base, count, resolved, one :: IsElements(inp, before, m.oftype, base, count, resolved, one, len)
  {
    hide CountAndBase, IsCounted, OneIs, TableLength, Sizes, DropTwo, ClassSize.AsMember, MemberLen;
    ElementsRead(inp, m, Sizes(before));
    var (count, base) := CountAndBase(inp.tables, m.oftype).value;
    CountedOnward(inp.tables, m.oftype, base, count);
    var resolved := Resolve(inp, base).value;
    var one := if DropTwo(resolved) in Sizes(before) then Sizes(before)[DropTwo(resolved)].AsMember() else TableLength(inp, resolved).value;
    OneOf(inp, before, resolved, one);
    assert IsElements(inp, before, m.oftype, base, count, resolved, one, len);
  }

  lemma ElementsBack(inp: Input, before: map<string, IrClass>, m: Member, len: Len, base: string, count: nat, resolved: string, one: Len)
    requires !m.Pad? && !StartsWith(m.oftype, "list(") && !StartsWith(m.oftype, "struct") && m.oftype != "octets"
    requires IsElements(inp, before, m.oftype, base, count, resolved, one, len)
    ensures MemberLen(inp, m, Sizes(before)) == Ok(len)
  {
    hide CountAndBase, IsCounted, OneIs, TableLength, Sizes, DropTwo, ClassSize.AsMember, MemberLen;
    ElementsRead(inp, m, Sizes(before));
    CountedBack(inp.tables, m.oftype, base, count);
    assert Resolve(inp, base) == Ok(resolved);
    OneOf(inp, before, resolved, one);
  }

  // --- built classes -------------------------------------------------------------------------------------------------------------

  lemma SameTupleIs(a: Member, b: Member)
    ensures SameTuple(a, b) <==> KeyOf(a) == KeyOf(b)
  {}

  lemma LastOfIs(members: seq<Member>, i: nat)
    requires i < |members|
    ensures IsLastOf(members, i, LastEqual(members, i))
  {
    hide KeyOf, SameTuple, LastEqual;
    var k := LastEqual(members, i);
    SameTupleIs(members[i], members[k]);
    forall j | k < j < |members| ensures !SameTuple(members[i], members[j]) {
      SameTupleIs(members[i], members[j]);
    }
  }

  ghost function Starts(lens: seq<Len>): (starts: seq<nat>)
    ensures |starts| == |lens| + 1 && forall i :: 0 <= i <= |lens| ==> starts[i] == Sum(lens[..i])
  {
    seq(|lens| + 1, i requires 0 <= i <= |lens| => Sum(lens[..i]))
  }

  lemma StartsOn(lens: seq<Len>)
    ensures Starts(lens)[0] == 0 && Starts(lens)[|lens|] == Sum(lens)
    ensures forall i :: 0 <= i < |lens| ==> Starts(lens)[i + 1] == Starts(lens)[i] + lens[i].bytes
  {
    hide Sum, AllFixed;
    assert lens[..|lens|] == lens && lens[..0] == [];
    SumOfNone();
    forall i | 0 <= i < |lens| ensures Starts(lens)[i + 1] == Starts(lens)[i] + lens[i].bytes {
      assert lens[..i + 1] == lens[..i] + [lens[i]];
      OneMoreLen(lens[..i], lens[i]);
    }
  }

  lemma SumOfNone()
    ensures Sum([]) == 0
  {}

  lemma FixedToIs(lens: seq<Len>, k: nat)
    requires k <= |lens|
    ensures FixedTo(lens, k) <==> AllFixed(lens[..k])
    ensures OffsetAt(lens, k) == if FixedTo(lens, k) then Some(Starts(lens)[k]) else None
  {
    assert forall i :: 0 <= i < k ==> lens[..k][i] == lens[i];
  }

  /** Every class that was built is laid out by the rules, over the classes built before it. */
  lemma BuiltByRules(inp: Input, classes: map<string, IrClass>, order: seq<string>, ids: map<string, Origin>, trail: seq<string>, n: string)
    requires Inv(inp, classes, order, ids, trail) && n in classes
    ensures Used(inp, ids, n).Some? &&
            exists lens, starts :: LaidByRules(inp, Before(classes, order, Position(order, n)), Used(inp, ids, n).value, classes[n], lens, starts)
  {
    hide DependsOn, HasLayout, MemberLens, Made, Measures, Position;
    MadeAt(inp, classes, order, ids, trail, n);
    var d, before, c := Used(inp, ids, n).value, Before(classes, order, Position(order, n)), classes[n];
    var lens := MemberLens(inp, d.members, Sizes(before)).value;
    LayoutSizes(inp, d, lens, c);
    ByRules(inp, before, d, c, lens);
  }

  lemma ByRules(inp: Input, before: map<string, IrClass>, d: Decl, c: IrClass, lens: seq<Len>)
    requires MemberLens(inp, d.members, Sizes(before)) == Ok(lens) && |c.members| == |d.members| == |lens|
    requires c.bytes == Sum(lens) && c.fixed == (AllFixed(lens) && !d.isVirtual) && c.name == d.name && c.isVirtual == d.isVirtual && c.params == d.params
    requires forall i :: 0 <= i < |lens| ==> c.members[i] == BuiltMember(inp.version, d.members[i], InfoAt(lens, LastEqual(d.members, i)))
    ensures LaidByRules(inp, before, d, c, lens, Starts(lens))
  {
    hide Sum, AllFixed, Measures, MemberLen, LastEqual, FixedTo, Starts, OffsetAt;
    StartsOn(lens);
    FixedToIs(lens, |lens|);
    assert lens[..|lens|] == lens;
    hide MemberPlaced, InfoAt, BuiltMember;
    forall i | 0 <= i < |lens| ensures Measures(inp, before, d.members[i], lens[i]) && MemberPlaced(inp, d, lens, Starts(lens), i, c.members[i]) {
      MeasuresIs(inp, before, d.members[i], lens[i]);
      IsPlaced(inp, d, lens, i, c.members[i]);
    }
  }

  lemma IsPlaced(inp: Input, d: Decl, lens: seq<Len>, i: nat, m: IrMember)
    requires i < |d.members| == |lens| && m == BuiltMember(inp.version, d.members[i], InfoAt(lens, LastEqual(d.members, i)))
    ensures MemberPlaced(inp, d, lens, Starts(lens), i, m)
  {
    hide Sum, AllFixed, LastEqual, FixedTo, Starts, OffsetAt, IsLastOf;
    LastOfIs(d.members, i);
    FixedToIs(lens, LastEqual(d.members, i));
  }

  /** The type is that of the class, in this version, and stands alone. */
  ghost predicate IsOfClass(inp: Input, m: Member, cls: string) {
    && !m.Pad? && '[' !in m.oftype && !Begins(m.oftype, "list(") && !Begins(m.oftype, "struct") && m.oftype != "octets"
    && InVersion(inp, m.oftype, cls + "_t")
  }

  lemma OneElement(inp: Input, before: map<string, IrClass>, m: Member, len: Len, cls: string)
    requires IsOfClass(inp, m, cls) && cls in before && Measures(inp, before, m, len)
    ensures len.bytes == if LeavesAlignmentOut(before[cls].params) then (before[cls].bytes + 7) / 8 * 8 else before[cls].bytes
  {
    var base, count, resolved, one :| IsElements(inp, before, m.oftype, base, count, resolved, one, len);
    assert resolved == cls + "_t" && resolved[..|resolved| - 2] == cls;
  }

  lemma PlacedBytes(inp: Input, d: Decl, lens: seq<Len>, starts: seq<nat>, i: nat, m: IrMember) returns (k: nat)
    requires i < |d.members| == |lens| < |starts| && MemberPlaced(inp, d, lens, starts, i, m)
    ensures k < |lens| && SameTuple(d.members[i], d.members[k]) && m.info.bytes == lens[k].bytes
  {
    k :| IsLastOf(d.members, i, k) && m.info.bytes == lens[k].bytes;
  }

  lemma LaidLens(inp: Input, before: map<string, IrClass>, d: Decl, c: IrClass, lens: seq<Len>, starts: seq<nat>, i: nat)
    requires LaidByRules(inp, before, d, c, lens, starts) && i < |d.members|
    ensures |lens| == |d.members| == |c.members| < |starts|
    ensures Measures(inp, before, d.members[i], lens[i]) && MemberPlaced(inp, d, lens, starts, i, c.members[i])
  {}

  /** So a member of a class that exists takes the length of that class, or the next multiple of eight, when the class says
      that its length leaves the alignment out. */
  lemma ContainedCounts(inp: Input, classes: map<string, IrClass>, order: seq<string>, ids: map<string, Origin>, trail: seq<string>, n: string, i: nat, cls: string)
    requires Inv(inp, classes, order, ids, trail) && n in classes && n in order && cls in order[..Position(order, n)]
    requires Used(inp, ids, n).Some? && i < |Used(inp, ids, n).value.members| && IsOfClass(inp, Used(inp, ids, n).value.members[i], cls)
    ensures cls in classes && |classes[n].members| > i
    ensures var c := classes[cls];
            classes[n].members[i].info.bytes ==
              if "length_includes_align" in c.params && c.params["length_includes_align"] == "False" then (c.bytes + 7) / 8 * 8 else c.bytes
  {
    hide Made, Position, Origins, LaidByRules, Measures, MemberPlaced, IsOfClass, Used;
    BuiltByRules(inp, classes, order, ids, trail, n);
    var d, before := Used(inp, ids, n).value, Before(classes, order, Position(order, n));
    var lens: seq<Len>, starts: seq<nat> :| LaidByRules(inp, before, d, classes[n], lens, starts);
    LaidLens(inp, before, d, classes[n], lens, starts, i);
    var k := PlacedBytes(inp, d, lens, starts, i, classes[n].members[i]);
    LaidLens(inp, before, d, classes[n], lens, starts, k);
    SameClass(inp, d.members[i], d.members[k], cls);
    OneElement(inp, before, d.members[k], lens[k], cls);
  }

  lemma SameClass(inp: Input, a: Member, b: Member, cls: string)
    requires IsOfClass(inp, a, cls) && SameTuple(a, b)
    ensures IsOfClass(inp, b, cls)
  {}

  // --- id classes ------------------------------------------------------------------------------------------------------------------

  /** From version 4 on, every class that is an action or an instruction has an id class. */
  lemma BothRootsHaveIds(inp: Input, classes: map<string, IrClass>, order: seq<string>, ids: map<string, Origin>, n: string)
    requires Completed(inp, classes, order, ids) && inp.version >= 4 && n in inp.decls
    ensures n in classes
    ensures classes[n].IsInstanceOf("of_action") && |n| >= 9 ==> "of_action_id" + n[9..] in classes
    ensures classes[n].IsInstanceOf("of_instruction") && |n| >= 14 ==> "of_instruction_id" + n[14..] in classes
    ensures forall k :: k in ids ==> ids[k].root in ["of_action", "of_instruction"]
  {
    hide Made, Warranted;
    assert HasIds(inp, n, classes);
    assert "of_action" in ID_ROOTS && "of_instruction" in ID_ROOTS && |"of_action"| == 9 && |"of_instruction"| == 14;
    assert "of_action" + "_id" == "of_action_id" && "of_instruction" + "_id" == "of_instruction_id";
    assert IdName("of_action", n) in classes || !classes[n].IsInstanceOf("of_action");
    assert IdName("of_instruction", n) in classes || !classes[n].IsInstanceOf("of_instruction");
  }

  /** `at` are the positions of the members that are neither data nor padding, and these are kept, in order. */
  ghost predicate Picks(members: seq<Member>, at: seq<nat>, kept: seq<Member>) {
    && |at| == |kept| && (forall i, j :: 0 <= i < j < |at| ==> at[i] < at[j])
    && (forall k :: 0 <= k < |at| ==> at[k] < |members| && kept[k] == members[at[k]])
    && (forall i: nat :: i < |members| ==> (i in at <==> !members[i].Data? && !members[i].Pad?))
  }

  lemma PicksOn(front: seq<Member>, m: Member, at: seq<nat>, kept: seq<Member>)
    requires Picks(front, at, kept)
    ensures m.Data? || m.Pad? ==> Picks(front + [m], at, kept)
    ensures !m.Data? && !m.Pad? ==> Picks(front + [m], at + [|front|], kept + [m])
  {
    var n := |front|;
    assert forall k :: 0 <= k < |at| ==> at[k] != n;
    assert (at + [n])[|at|] == n;
    assert forall i: nat :: i in at + [n] <==> i in at || i == n;
  }

  /** The members of an id class are those of its original, in order, that are neither data nor padding. */
  lemma {:induction false} KeptAre(members: seq<Member>) returns (at: seq<nat>)
    ensures Picks(members, at, Kept(members))
  {
    hide Picks;
    if members == [] {
      at := [];
      NonePicked();
    } else {
      var n := |members| - 1;
      assert members == members[..n] + [members[n]];
      at := KeptAre(members[..n]);
      PicksOn(members[..n], members[n], at, Kept(members[..n]));
      if !members[n].Data? && !members[n].Pad? {
        at := at + [n];
      }
    }
  }

  lemma NonePicked()
    ensures Picks([], [], [])
  {}
}

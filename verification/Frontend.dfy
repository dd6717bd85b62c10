/** From the parsed declarations to those that the IR builder reads. */
module Frontend {
  import opened Options
  import opened Results
  import InputLexer
  import G = InputGrammar
  import opened IrInput

  /** `get_type`: an array or list type is one string, as the grammar combines it. */
  function TypeString(t: G.Type): string {
    match t
    case EnumType(name) => name
    case ArrayType(elem, count) => elem + "[" + count + "]"
    case ListType(elem) => "list(" + elem + ")"
    case Scalar(name) => name
  }

  /** `create_member`: lengths and versions are told by their names. */
  function CreateMember(m: G.Member): Member {
    match m
    case Pad(n) => Member.Pad(n)
    case TypeMember(t, name, value) => TypeValue(name, TypeString(t), value)
    case Discriminator(t, name) => Member.Discriminator(name, TypeString(t))
    case FieldLength(t, name, field) => Member.FieldLength(name, TypeString(t), field)
    case Data(t, name) =>
      if name == "length" || name == "len" then Length(name, TypeString(t))
      else if name == "version" then Version(name, TypeString(t))
      else Member.Data(name, TypeString(t))
  }

  function CreateMembers(ms: seq<G.Member>): (r: seq<Member>)
    ensures |r| == |ms| && forall i :: 0 <= i < |ms| ==> r[i] == CreateMember(ms[i])
  {
    if ms == [] then [] else CreateMembers(ms[..|ms| - 1]) + [CreateMember(ms[|ms| - 1])]
  }

  function Discriminators(ms: seq<Member>): nat {
    if ms == [] then 0 else Discriminators(ms[..|ms| - 1]) + (if ms[|ms| - 1].Discriminator? then 1 else 0)
  }

  /** A dictionary of parameters: of two with one name, the last stays. */
  function Params(ps: seq<G.Param>): (r: map<string, string>)
    ensures forall n :: n in r ==> exists i :: 0 <= i < |ps| && ps[i] == G.Param(n, r[n])
  {
    if ps == [] then
      map[]
    else
      var last := ps[|ps| - 1];
      Params(ps[..|ps| - 1])[last.name := last.value]
  }

  datatype InputError = TwoDiscriminators(name: string)

  /** `create_ofinput`, for a struct: it is virtual when it has a discriminator, of which there is one at most. */
  function CreateClass(d: G.Decl): Result<Decl, InputError>
    requires d.Struct?
  {
    var ms := CreateMembers(d.members);
    if Discriminators(ms) > 1 then Err(TwoDiscriminators(d.name))
    else Ok(Decl(d.name, d.parent, ms, Discriminators(ms) > 0, Params(d.params)))
  }

  /** `create_ofinput`, for an enum: what the builder reads of it. */
  function CreateEnum(d: G.Decl): EnumDecl
    requires d.Enum?
  {
    EnumDecl(d.name, if "wire_type" in Params(d.params) then Some(Params(d.params)["wire_type"]) else None)
  }

  // --- what is kept of the declarations ---------------------------------------------------------------------------------

  /** The written kind of a member is kept, but for data with the names of lengths and versions; so are name, type, value
      and field. */
  lemma KindsByName(m: G.Member)
    ensures CreateMember(m).Pad? <==> m.Pad?
    ensures CreateMember(m).TypeValue? <==> m.TypeMember?
    ensures CreateMember(m).Discriminator? <==> m.Discriminator?
    ensures CreateMember(m).FieldLength? <==> m.FieldLength?
    ensures CreateMember(m).Length? <==> m.Data? && m.name in {"length", "len"}
    ensures CreateMember(m).Version? <==> m.Data? && m.name == "version"
    ensures CreateMember(m).Data? <==> m.Data? && m.name !in {"length", "len", "version"}
    ensures m.Pad? ==> CreateMember(m).length == m.length
    ensures !m.Pad? ==> CreateMember(m).name == m.name && CreateMember(m).oftype == TypeString(m.oftype)
    ensures m.TypeMember? ==> CreateMember(m).value == m.value
    ensures m.FieldLength? ==> CreateMember(m).fieldName == m.field
  {}

  /** The builder reads back what the grammar has parsed: lists and octet strings are open, other names stand for one
      element, and arrays for as many as the constant or the digits in the brackets say. */
  lemma TypesReadBack(inp: Input, t: G.Type)
    requires G.TypeOk(t) && !StartsWith(TypeString(t), "struct")
    ensures t.ListType? ==> ShapeOf(inp, TypeString(t)) == Ok(Open)
    ensures t.ListType? ==> |TypeString(t)| > 5 && TypeString(t)[5..|TypeString(t)| - 1] == t.elem
    ensures (t.Scalar? || t.EnumType?) && t.name != "octets" ==> CountAndBase(inp.tables, TypeString(t)) == Ok((1, t.name))
    ensures t.ArrayType? && t.count in inp.tables.constants ==>
              CountAndBase(inp.tables, TypeString(t)) == Ok((inp.tables.constants[t.count], t.elem))
    ensures t.ArrayType? && t.count !in inp.tables.constants && ParseInt(t.count).Some? ==>
              CountAndBase(inp.tables, TypeString(t)) == Ok((ParseInt(t.count).value, t.elem))
    ensures t.ArrayType? && t.count !in inp.tables.constants && ParseInt(t.count).None? ==>
              CountAndBase(inp.tables, TypeString(t)) == Err(BadCount)
  {
    hide InputLexer.Value;
    match t {
      case ListType(elem) => assert TypeString(t)[..5] == "list(" && TypeString(t)[5..|TypeString(t)| - 1] == elem;
      case ArrayType(elem, count) => ArrayReadsBack(elem, count);
      case EnumType(name) => NoBracket(name);
      case Scalar(name) => NoBracket(name);
    }
  }

  lemma NoBracket(w: string)
    requires InputLexer.IsWord(w)
    ensures Find(w, '[') == |w| && Find(w, ']') == |w|
  {}

  lemma FirstAt(s: string, c: char, i: nat)
    requires i < |s| && s[i] == c && forall k :: 0 <= k < i ==> s[k] != c
    ensures Find(s, c) == i
  {}

  lemma ArrayReadsBack(elem: string, count: string)
    requires InputLexer.IsWord(elem) && InputLexer.IsWord(count)
    ensures var s := elem + "[" + count + "]";
            && Find(s, '[') == |elem| && s[..|elem|] == elem
            && var rest := s[|elem| + 1..];
            var inner := rest[..Find(rest, '[')];
            inner[..Find(inner, ']')] == count
  {
    var s := elem + "[" + count + "]";
    forall k | 0 <= k < |elem| ensures s[k] != '[' {
      assert s[k] == elem[k];
    }
    FirstAt(s, '[', |elem|);
    var rest := s[|elem| + 1..];
    assert rest == count + "]";
    forall k | 0 <= k < |rest| ensures rest[k] != '[' {
      assert k < |count| ==> rest[k] == count[k];
    }
    assert Find(rest, '[') == |rest| && rest[..|rest|] == rest;
    forall k | 0 <= k < |count| ensures rest[k] != ']' {
      assert rest[k] == count[k];
    }
    FirstAt(rest, ']', |count|);
  }

  /** The value of a parameter is that of the last one with its name. */
  lemma {:induction false} LastParamStays(ps: seq<G.Param>, i: nat)
    requires i < |ps| && forall k :: i < k < |ps| ==> ps[k].name != ps[i].name
    ensures ps[i].name in Params(ps) && Params(ps)[ps[i].name] == ps[i].value
  {
    if i < |ps| - 1 {
      LastParamStays(ps[..|ps| - 1], i);
    }
  }

  lemma {:induction false} DiscriminatorsAre(ms: seq<Member>)
    ensures Discriminators(ms) > 0 <==> exists i :: 0 <= i < |ms| && ms[i].Discriminator?
    ensures Discriminators(ms) > 1 <==> exists i, j :: 0 <= i < j < |ms| && ms[i].Discriminator? && ms[j].Discriminator?
  {
    if ms != [] {
      var front := ms[..|ms| - 1];
      DiscriminatorsAre(front);
      if Discriminators(front) > 0 {
        var i :| 0 <= i < |front| && front[i].Discriminator?;
        assert ms[i].Discriminator?;
      }
      if Discriminators(front) > 1 {
        var i, j :| 0 <= i < j < |front| && front[i].Discriminator? && front[j].Discriminator?;
        assert ms[i].Discriminator? && ms[j].Discriminator?;
      }
    }
  }

  /** A struct is refused when it has two discriminators, and is virtual when it has one; the rest of it is kept. */
  lemma StructsKept(d: G.Decl)
    requires d.Struct?
    ensures CreateClass(d).Err? <==> exists i, j :: 0 <= i < j < |d.members| && d.members[i].Discriminator? && d.members[j].Discriminator?
    ensures CreateClass(d).Ok? ==>
      var c := CreateClass(d).value;
      && c.name == d.name && c.superclass == d.parent && |c.members| == |d.members|
      && (c.isVirtual <==> exists i :: 0 <= i < |d.members| && d.members[i].Discriminator?)
      && (forall i :: 0 <= i < |d.members| ==> c.members[i] == CreateMember(d.members[i]))
      && forall i :: 0 <= i < |d.params| && (forall k :: i < k < |d.params| ==> d.params[k].name != d.params[i].name) ==>
           d.params[i].name in c.params && c.params[d.params[i].name] == d.params[i].value
  {
    var ms := CreateMembers(d.members);
    DiscriminatorsAre(ms);
    assert forall i :: 0 <= i < |ms| ==> (ms[i].Discriminator? <==> d.members[i].Discriminator?);
    forall i | 0 <= i < |d.params| && forall k :: i < k < |d.params| ==> d.params[k].name != d.params[i].name
      ensures d.params[i].name in Params(d.params) && Params(d.params)[d.params[i].name] == d.params[i].value
    {
      LastParamStays(d.params, i);
    }
  }

  // --- what cannot stand in a name or type -----------------------------------------------------------------------------

  /** The text has no separator of the legacy signatures. */
  predicate Unseparated(s: string) {
    ',' !in s && ';' !in s
  }

  predicate CleanMember(m: Member) {
    m.Pad? || (Unseparated(m.name) && Unseparated(m.oftype))
  }

  predicate CleanDecl(d: Decl) {
    forall m :: m in d.members ==> CleanMember(m)
  }

  predicate CleanEnum(e: EnumDecl) {
    Unseparated(e.name) && (e.wireType.Some? ==> Unseparated(e.wireType.value))
  }

  lemma WordIsUnseparated(w: string)
    requires InputLexer.IsWord(w)
    ensures Unseparated(w)
  {}

  lemma TypeIsUnseparated(t: G.Type)
    requires G.TypeOk(t)
    ensures Unseparated(TypeString(t))
  {}

  lemma MemberIsClean(m: G.Member)
    requires G.MemberOk(m)
    ensures CleanMember(CreateMember(m))
  {
    hide G.TypeOk, TypeString;
    if !m.Pad? {
      TypeIsUnseparated(m.oftype);
      WordIsUnseparated(m.name);
    }
  }

  /** No declaration that is made of a parsed text has a separator in a name or type. */
  lemma ParsedIsClean(ds: seq<G.Decl>, i: nat)
    requires G.FileOk(ds) && i < |ds|
    ensures ds[i].Struct? && CreateClass(ds[i]).Ok? ==> CleanDecl(CreateClass(ds[i]).value)
    ensures ds[i].Enum? ==> CleanEnum(CreateEnum(ds[i]))
  {
    hide G.MemberOk, CreateMember, CleanMember;
    assert G.DeclOk(ds[i]);
    match ds[i] {
      case Struct(_, _, _, ms) =>
        forall j | 0 <= j < |ms| ensures CleanMember(CreateMembers(ms)[j]) {
          MemberIsClean(ms[j]);
        }
      case _ =>
    }
  }
}

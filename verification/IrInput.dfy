/** The frontend declarations that the IR builder reads, and how it reads a member's type string. */
module IrInput {
  import opened Options
  import opened Results
  import InputLexer

  // --- declarations ------------------------------------------------------------------------------------

  datatype Member =
    | Pad(length: nat)
    | Data(name: string, oftype: string)
    | TypeValue(name: string, oftype: string, value: int)
    | Discriminator(name: string, oftype: string)
    | Length(name: string, oftype: string)
    | FieldLength(name: string, oftype: string, fieldName: string)
    | Version(name: string, oftype: string)

  datatype Decl = Decl(name: string, superclass: Option<string>, members: seq<Member>, isVirtual: bool, params: map<string, string>)

  datatype EnumDecl = EnumDecl(name: string, wireType: Option<string>)

  /** The length tables: named constants, per-version types, and lengths of the types that are not classes. */
  datatype Tables = Tables(constants: map<string, nat>, mixed: map<string, map<nat, string>>, base: map<string, Len>)

  /** A length in bytes, a lower bound when it is not fixed. */
  datatype Len = Len(bytes: nat, fixed: bool)

  datatype Input = Input(decls: map<string, Decl>, enums: map<string, EnumDecl>, version: nat, tables: Tables)

  datatype TypeError = RecursiveStruct | UnknownType | BadCount | NoTypeForVersion

  // --- type strings ----------------------------------------------------------------------------------------

  predicate StartsWith(s: string, prefix: string) {
    |prefix| <= |s| && s[..|prefix|] == prefix
  }

  /** Position of the first `c` in `s`, or its length. */
  function Find(s: string, c: char): (i: nat)
    ensures i <= |s| && (i < |s| ==> s[i] == c) && forall j :: 0 <= j < i ==> s[j] != c
  {
    if s == [] || s[0] == c then 0 else 1 + Find(s[1..], c)
  }

  /** Python's `int` on a string of decimal digits. */
  function ParseInt(s: string): Option<nat> {
    if s == [] || exists i :: 0 <= i < |s| && !InputLexer.IsDigit(s[i]) then None else Some(InputLexer.Value(s, 10))
  }

  /** `type_dec_to_count_base`: the count and the element type of `uint8_t[4]`. */
  function CountAndBase(tables: Tables, oftype: string): Result<(nat, string), TypeError> {
    var open := Find(oftype, '[');
    if open == |oftype| then
      Ok((1, oftype))
    else
      var rest := oftype[open + 1..];
      var inner := rest[..Find(rest, '[')];
      var count := inner[..Find(inner, ']')];
      if count in tables.constants then
        Ok((tables.constants[count], oftype[..open]))
      else
        match ParseInt(count)
        case Some(n) => Ok((n, oftype[..open]))
        case None => Err(BadCount)
  }

  /** The element type as it is in this version. */
  function Resolve(inp: Input, base: string): Result<string, TypeError> {
    if base !in inp.tables.mixed then Ok(base)
    else if inp.version in inp.tables.mixed[base] then Ok(inp.tables.mixed[base][inp.version])
    else Err(NoTypeForVersion)
  }

  /** A name without its last two characters. */
  function DropTwo(s: string): string {
    if |s| < 2 then "" else s[..|s| - 2]
  }

  /** A name without a trailing `_t`. */
  function StripT(s: string): string {
    if |s| >= 2 && s[|s| - 2..] == "_t" then s[..|s| - 2] else s
  }

  /** What the length of a member depends on: nothing, for lists and octet strings; else a number of elements of
      a type, `cls` being the class that this type would name. */
  datatype Shape = Open | Elements(count: nat, base: string, cls: string)

  function ShapeOf(inp: Input, oftype: string): Result<Shape, TypeError> {
    if StartsWith(oftype, "list(") then Ok(Open)
    else if StartsWith(oftype, "struct") then Err(RecursiveStruct)
    else if oftype == "octets" then Ok(Open)
    else
      var counted :- CountAndBase(inp.tables, oftype);
      var base :- Resolve(inp, counted.1);
      Ok(Elements(counted.0, base, DropTwo(base)))
  }

  /** The length of a type that is not taken for a class: through the enum table, then the base lengths. */
  function TableLength(inp: Input, base: string): Result<Len, TypeError> {
    var name := if base in inp.enums then WireType(inp.enums[base]) else base;
    if name in inp.tables.base then Ok(inp.tables.base[name]) else Err(UnknownType)
  }

  function WireType(e: EnumDecl): string {
    match e.wireType
    case Some(w) => w
    case None => e.name
  }

  /** The class a member's type names once arrays are stripped and the version is applied, if any. */
  function ClassNamed(inp: Input, m: Member): Option<string> {
    if m.Pad? then None
    else match ShapeOf(inp, m.oftype)
      case Ok(Elements(_, _, cls)) => Some(cls)
      case _ => None
  }

  // --- dependencies as the builder finds them -------------------------------------------------------------------

  /** The class names that the written type of a member gives rise to. */
  predicate Mentions(m: Member, name: string) {
    !m.Pad? && (name == StripT(m.oftype) || name == m.oftype)
  }

  ghost predicate DependsOn(inp: Input, a: string, b: string) {
    && a in inp.decls
    && (inp.decls[a].superclass == Some(b) || (b in inp.decls && exists m :: m in inp.decls[a].members && Mentions(m, b)))
  }

  ghost predicate IsPath(inp: Input, path: seq<string>) {
    forall i :: 0 <= i < |path| - 1 ==> DependsOn(inp, path[i], path[i + 1])
  }

  /** A path that comes back to one of its own classes. */
  ghost predicate ClosesCycle(inp: Input, path: seq<string>) {
    && |path| >= 2 && IsPath(inp, path)
    && exists i :: 0 <= i < |path| - 1 && path[i] == path[|path| - 1]
  }

  ghost predicate Reaches(inp: Input, a: string, b: string) {
    exists path: seq<string> :: |path| >= 1 && path[0] == a && path[|path| - 1] == b && IsPath(inp, path)
  }

  lemma ReachesOnward(inp: Input, a: string, b: string, c: string)
    requires DependsOn(inp, a, b) && Reaches(inp, b, c)
    ensures Reaches(inp, a, c)
  {
    var path: seq<string> :| |path| >= 1 && path[0] == b && path[|path| - 1] == c && IsPath(inp, path);
    var longer := [a] + path;
    forall i | 0 <= i < |longer| - 1 ensures DependsOn(inp, longer[i], longer[i + 1]) {
      if i > 0 { assert longer[i] == path[i - 1] && longer[i + 1] == path[i]; }
    }
    assert longer[0] == a && longer[|longer| - 1] == c;
  }

  // --- superclass chains as declared -------------------------------------------------------------------------------

  ghost predicate IsUp(inp: Input, path: seq<string>) {
    forall i :: 0 <= i < |path| - 1 ==> path[i] in inp.decls && inp.decls[path[i]].superclass == Some(path[i + 1])
  }

  /** `b` is `a`, or a superclass of it by the declarations. */
  ghost predicate Above(inp: Input, a: string, b: string) {
    exists path: seq<string> :: |path| >= 1 && path[0] == a && path[|path| - 1] == b && IsUp(inp, path)
  }

  lemma AboveSelf(inp: Input, a: string)
    ensures Above(inp, a, a)
  {
    assert IsUp(inp, [a]) && [a][0] == a;
  }

  lemma AboveOnward(inp: Input, a: string, s: string, b: string)
    requires a in inp.decls && inp.decls[a].superclass == Some(s) && Above(inp, s, b)
    ensures Above(inp, a, b)
  {
    var path: seq<string> :| |path| >= 1 && path[0] == s && path[|path| - 1] == b && IsUp(inp, path);
    var longer := [a] + path;
    assert IsUp(inp, longer) && longer[0] == a && longer[|longer| - 1] == b;
  }

  lemma AboveIsSelfOrOnward(inp: Input, a: string, b: string)
    requires Above(inp, a, b) && a != b
    ensures a in inp.decls && inp.decls[a].superclass.Some? && Above(inp, inp.decls[a].superclass.value, b)
  {
    var path: seq<string> :| |path| >= 1 && path[0] == a && path[|path| - 1] == b && IsUp(inp, path);
    var rest := path[1..];
    assert path[0 + 1] == rest[0] && inp.decls[path[0]].superclass == Some(path[0 + 1]);
    forall i | 0 <= i < |rest| - 1 ensures rest[i] in inp.decls && inp.decls[rest[i]].superclass == Some(rest[i + 1]) {
      assert path[i + 1] in inp.decls && inp.decls[path[i + 1]].superclass == Some(path[i + 1 + 1]);
    }
    assert IsUp(inp, rest) && rest[|rest| - 1] == b;
  }
}

/** The grammar of the input files: structs, enums and metadata. */
module InputGrammar {
  import opened Options
  import opened InputLexer

  datatype Type = EnumType(name: string) | ArrayType(elem: string, count: string) | ListType(elem: string) | Scalar(name: string)

  datatype Member =
    | Pad(length: nat)
    | TypeMember(oftype: Type, name: string, value: nat)
    | Discriminator(oftype: Type, name: string)
    | FieldLength(oftype: Type, name: string, field: string)
    | Data(oftype: Type, name: string)

  datatype Param = Param(name: string, value: string)

  datatype Entry = Entry(name: string, params: seq<Param>, value: nat)

  datatype Decl =
    | Struct(name: string, params: seq<Param>, parent: Option<string>, members: seq<Member>)
    | Enum(name: string, params: seq<Param>, entries: seq<Entry>)
    | Version(version: string)

  const STRUCT_PARAMS: seq<string> := ["align", "length_includes_align"]
  const ENUM_PARAMS: seq<string> := ["wire_type", "bitmask", "complete", "stable"]
  const ENTRY_PARAMS: seq<string> := ["virtual"]

  // --- parsing: `Fatal` is a failure after an error stop ----------------------------------------------------------

  function Must<T>(r: R<T>): (q: R<T>)
    ensures !q.Fail? && (r.Ok? ==> q == r) && (q.Ok? ==> q == r)
  {
    if r.Fail? then Fatal else r
  }

  function ParseEnumType(text: string, loc: nat): (r: R<Type>)
    requires loc <= |text|
    ensures r.Ok? ==> loc < r.loc <= |text|
  {
    var k := Kw(text, loc, "enum");
    if !k.Ok? then
      Fail
    else
      var w := Must(Word(text, k.loc));
      if w.Ok? then Ok(EnumType(w.value), w.loc) else Fatal
  }

  /** `name[count]`, without blanks; after the bracket there is no way back. */
  function ParseArrayType(text: string, loc: nat): (r: R<Type>)
    requires loc <= |text|
    ensures r.Ok? ==> loc < r.loc <= |text|
  {
    var w := Word(text, loc);
    if !w.Ok? || !At(text, w.loc, "[") then
      Fail
    else
      var c := Must(RawWord(text, w.loc + 1));
      if c.Ok? && At(text, c.loc, "]") then Ok(ArrayType(w.value, c.value), c.loc + 1) else Fatal
  }

  /** `list(name)`, without blanks; after the keyword there is no way back. */
  function ParseListType(text: string, loc: nat): (r: R<Type>)
    requires loc <= |text|
    ensures r.Ok? ==> loc < r.loc <= |text|
  {
    var k := Kw(text, loc, "list");
    if !k.Ok? then
      Fail
    else if !At(text, k.loc, "(") then
      Fatal
    else
      var w := Must(RawWord(text, k.loc + 1));
      if w.Ok? && At(text, w.loc, ")") then Ok(ListType(w.value), w.loc + 1) else Fatal
  }

  function ParseType(text: string, loc: nat): (r: R<Type>)
    requires loc <= |text|
    ensures r.Ok? ==> loc < r.loc <= |text|
  {
    var e := ParseEnumType(text, loc);
    if !e.Fail? then e
    else
      var a := ParseArrayType(text, loc);
      if !a.Fail? then a
      else
        var l := ParseListType(text, loc);
        if !l.Fail? then l
        else
          var w := Word(text, loc);
          if w.Ok? then Ok(Scalar(w.value), w.loc) else Fail
  }

  // --- struct members ------------------------------------------------------------------------------------------------

  function ParsePad(text: string, loc: nat): (r: R<Member>)
    requires loc <= |text|
    ensures r.Ok? ==> loc < r.loc <= |text|
  {
    var k := Kw(text, loc, "pad");
    if !k.Ok? then
      Fail
    else
      var open := Lit(text, k.loc, "(");
      if !open.Ok? then Fatal
      else
        var n := Must(Integer(text, open.loc));
        if !n.Ok? then Fatal
        else
          var close := Lit(text, n.loc, ")");
          if close.Ok? then Ok(Pad(n.value), close.loc) else Fatal
  }

  /** A type and a name: how all members but padding begin. */
  function ParseTyped(text: string, loc: nat): (r: R<(Type, string)>)
    requires loc <= |text|
    ensures r.Ok? ==> loc < r.loc <= |text|
  {
    var t := ParseType(text, loc);
    if !t.Ok? then
      if t.Fail? then Fail else Fatal
    else
      var w := Word(text, t.loc);
      if w.Ok? then Ok((t.value, w.value), w.loc) else Fail
  }

  function ParseTypeMember(text: string, loc: nat): (r: R<Member>)
    requires loc <= |text|
    ensures r.Ok? ==> loc < r.loc <= |text|
  {
    var t := ParseTyped(text, loc);
    if !t.Ok? then
      if t.Fail? then Fail else Fatal
    else
      var eq := Lit(text, t.loc, "==");
      if !eq.Ok? then Fail
      else
        var n := Integer(text, eq.loc);
        if n.Ok? then Ok(TypeMember(t.value.0, t.value.1, n.value), n.loc) else if n.Fail? then Fail else Fatal
  }

  function ParseDiscriminator(text: string, loc: nat): (r: R<Member>)
    requires loc <= |text|
    ensures r.Ok? ==> loc < r.loc <= |text|
  {
    var t := ParseTyped(text, loc);
    if !t.Ok? then
      if t.Fail? then Fail else Fatal
    else
      var eq := Lit(text, t.loc, "==");
      if !eq.Ok? then Fail
      else
        var q := Lit(text, eq.loc, "?");
        if q.Ok? then Ok(Discriminator(t.value.0, t.value.1), q.loc) else Fail
  }

  function ParseFieldLength(text: string, loc: nat): (r: R<Member>)
    requires loc <= |text|
    ensures r.Ok? ==> loc < r.loc <= |text|
  {
    var t := ParseTyped(text, loc);
    if !t.Ok? then
      if t.Fail? then Fail else Fatal
    else
      var eq := Lit(text, t.loc, "==");
      if !eq.Ok? then Fail
      else
        var len := Lit(text, eq.loc, "length");
        if !len.Ok? then Fail
        else
          var open := Lit(text, len.loc, "(");
          if !open.Ok? then Fail
          else
            var f := Word(text, open.loc);
            if !f.Ok? then Fail
            else
              var close := Lit(text, f.loc, ")");
              if close.Ok? then Ok(FieldLength(t.value.0, t.value.1, f.value), close.loc) else Fail
  }

  function ParseData(text: string, loc: nat): (r: R<Member>)
    requires loc <= |text|
    ensures r.Ok? ==> loc < r.loc <= |text|
  {
    var t := ParseType(text, loc);
    if !t.Ok? then
      if t.Fail? then Fail else Fatal
    else
      var w := Word(text, t.loc);
      if w.Ok? then Ok(Data(t.value, w.value), w.loc) else Fatal
  }

  /** The ordered choice among the kinds of members. */
  function ParseMember(text: string, loc: nat): (r: R<Member>)
    requires loc <= |text|
    ensures r.Ok? ==> loc < r.loc <= |text|
  {
    var pad := ParsePad(text, loc);
    if !pad.Fail? then pad
    else
      var t := ParseTypeMember(text, loc);
      if !t.Fail? then t
      else
        var d := ParseDiscriminator(text, loc);
        if !d.Fail? then d
        else
          var f := ParseFieldLength(text, loc);
          if !f.Fail? then f else ParseData(text, loc)
  }

  /** Members, each closed by a semicolon, without which there is no way back. */
  function ParseMembers(text: string, loc: nat): (r: R<seq<Member>>)
    requires loc <= |text|
    ensures r.Ok? ==> loc <= r.loc <= |text|
    ensures !r.Fail?
    decreases |text| - loc
  {
    var m := ParseMember(text, loc);
    if m.Fail? then Ok([], loc)
    else if m.Fatal? then Fatal
    else
      var semi := Lit(text, m.loc, ";");
      if !semi.Ok? then Fatal
      else
        var rest := ParseMembers(text, semi.loc);
        if rest.Ok? then Ok([m.value] + rest.value, rest.loc) else Fatal
  }

  // --- parameters ----------------------------------------------------------------------------------------------------

  function ParseName(text: string, loc: nat, names: seq<string>): (r: R<string>)
    requires loc <= |text|
    ensures r.Ok? ==> loc <= r.loc <= |text| && r.value in names
    decreases |names|
  {
    if names == [] then
      Fail
    else
      var k := Kw(text, loc, names[0]);
      if k.Ok? then Ok(names[0], k.loc) else ParseName(text, loc, names[1..])
  }

  function ParseParam(text: string, loc: nat, names: seq<string>): (r: R<Param>)
    requires loc <= |text|
    ensures r.Ok? ==> loc < r.loc <= |text|
  {
    var k := ParseName(text, loc, names);
    if !k.Ok? then Fail
    else
      var eq := Lit(text, k.loc, "=");
      if !eq.Ok? then Fatal
      else
        var w := Must(Word(text, eq.loc));
        if w.Ok? then Ok(Param(k.value, w.value), w.loc) else Fatal
  }

  /** One parameter or more; a comma may follow the last. */
  function ParseParamList(text: string, loc: nat, names: seq<string>): (r: R<seq<Param>>)
    requires loc <= |text|
    ensures r.Ok? ==> loc < r.loc <= |text| && r.value != []
    decreases |text| - loc
  {
    var p := ParseParam(text, loc, names);
    if !p.Ok? then
      if p.Fail? then Fail else Fatal
    else
      var comma := Lit(text, p.loc, ",");
      if !comma.Ok? then Ok([p.value], p.loc)
      else
        var rest := ParseParamList(text, comma.loc, names);
        if rest.Ok? then Ok([p.value] + rest.value, rest.loc) else if rest.Fail? then Ok([p.value], comma.loc) else Fatal
  }

  function ParseParams(text: string, loc: nat, names: seq<string>): (r: R<seq<Param>>)
    requires loc <= |text|
    ensures r.Ok? ==> loc <= r.loc <= |text|
    ensures !r.Fail?
  {
    var open := Lit(text, loc, "(");
    if !open.Ok? then Ok([], loc)
    else
      var ps := ParseParamList(text, open.loc, names);
      if !ps.Ok? then Fatal
      else
        var close := Lit(text, ps.loc, ")");
        if close.Ok? then Ok(ps.value, close.loc) else Fatal
  }

  // --- declarations -------------------------------------------------------------------------------------------------------

  function ParseParent(text: string, loc: nat): (r: R<Option<string>>)
    requires loc <= |text|
    ensures r.Ok? ==> loc <= r.loc <= |text|
    ensures !r.Fail?
  {
    var colon := Lit(text, loc, ":");
    if !colon.Ok? then Ok(None, Skip(text, loc))
    else
      var w := Word(text, colon.loc);
      if w.Ok? then Ok(Some(w.value), w.loc) else Fatal
  }

  function ParseStruct(text: string, loc: nat): (r: R<Decl>)
    requires loc <= |text|
    ensures r.Ok? ==> loc < r.loc <= |text|
  {
    var k := Kw(text, loc, "struct");
    if !k.Ok? then Fail
    else
      var name := Word(text, k.loc);
      if !name.Ok? then Fatal
      else
        var params := ParseParams(text, name.loc, STRUCT_PARAMS);
        if !params.Ok? then Fatal
        else
          var parent := ParseParent(text, params.loc);
          if !parent.Ok? then Fatal
          else
            var open := Lit(text, parent.loc, "{");
            if !open.Ok? then Fatal
            else
              var members := ParseMembers(text, open.loc);
              if !members.Ok? then Fatal
              else
                var end := ParseClose(text, members.loc);
                if end.Ok? then Ok(Struct(name.value, params.value, parent.value, members.value), end.loc) else Fatal
  }

  /** `}` and `;`. */
  function ParseClose(text: string, loc: nat): (r: R<()>)
    requires loc <= |text|
    ensures r.Ok? ==> loc < r.loc <= |text|
  {
    var close := Lit(text, loc, "}");
    if close.Ok? then Lit(text, close.loc, ";") else Fail
  }

  function ParseEntry(text: string, loc: nat): (r: R<Entry>)
    requires loc <= |text|
    ensures r.Ok? ==> loc < r.loc <= |text|
  {
    var name := Word(text, loc);
    if !name.Ok? then Fail
    else
      var params := ParseParams(text, name.loc, ENTRY_PARAMS);
      if !params.Ok? then Fatal
      else
        var eq := Lit(text, params.loc, "=");
        if !eq.Ok? then Fatal
        else
          var n := Must(Integer(text, eq.loc));
          if n.Ok? then Ok(Entry(name.value, params.value, n.value), n.loc) else Fatal
  }

  /** Entries, if there are any; a comma may follow the last. */
  function ParseEntries(text: string, loc: nat): (r: R<seq<Entry>>)
    requires loc <= |text|
    ensures r.Ok? ==> loc <= r.loc <= |text|
    ensures !r.Fail?
    decreases |text| - loc
  {
    var e := ParseEntry(text, loc);
    if e.Fail? then Ok([], loc)
    else if e.Fatal? then Fatal
    else
      var comma := Lit(text, e.loc, ",");
      if !comma.Ok? then Ok([e.value], e.loc)
      else
        var rest := ParseEntries(text, comma.loc);
        if rest.Ok? then Ok([e.value] + rest.value, rest.loc) else Fatal
  }

  function ParseEnum(text: string, loc: nat): (r: R<Decl>)
    requires loc <= |text|
    ensures r.Ok? ==> loc < r.loc <= |text|
  {
    var k := Kw(text, loc, "enum");
    if !k.Ok? then Fail
    else
      var name := Word(text, k.loc);
      if !name.Ok? then Fatal
      else
        var params := ParseParams(text, name.loc, ENUM_PARAMS);
        if !params.Ok? then Fatal
        else
          var open := Lit(text, params.loc, "{");
          if !open.Ok? then Fatal
          else
            var entries := ParseEntries(text, open.loc);
            if !entries.Ok? then Fatal
            else
              var end := ParseClose(text, entries.loc);
              if end.Ok? then Ok(Enum(name.value, params.value, entries.value), end.loc) else Fatal
  }

  function ParseVersion(text: string, loc: nat): (r: R<Decl>)
    requires loc <= |text|
    ensures r.Ok? ==> loc < r.loc <= |text|
  {
    var hash := Lit(text, loc, "#");
    if !hash.Ok? then Fail
    else
      var k := Kw(text, hash.loc, "version");
      if !k.Ok? then Fatal
      else
        var w := Word(text, k.loc);
        if w.Ok? then Ok(Version(w.value), w.loc) else Fatal
  }

  function ParseDecl(text: string, loc: nat): (r: R<Decl>)
    requires loc <= |text|
    ensures r.Ok? ==> loc < r.loc <= |text|
  {
    var st := ParseStruct(text, loc);
    if !st.Fail? then st
    else
      var e := ParseEnum(text, loc);
      if !e.Fail? then e else ParseVersion(text, loc)
  }

  function ParseDecls(text: string, loc: nat): (r: R<seq<Decl>>)
    requires loc <= |text|
    ensures r.Ok? ==> loc <= r.loc <= |text|
    ensures !r.Fail?
    decreases |text| - loc
  {
    var d := ParseDecl(text, loc);
    if d.Fail? then Ok([], loc)
    else if d.Fatal? then Fatal
    else
      var rest := ParseDecls(text, d.loc);
      if rest.Ok? then Ok([d.value] + rest.value, rest.loc) else Fatal
  }

  /** `parse`: the declarations are all of the text, but for blanks and comments at its end. */
  function Parse(text: string): Option<seq<Decl>> {
    var ds := ParseDecls(text, 0);
    if ds.Ok? && Skip(text, ds.loc) == |text| then Some(ds.value) else None
  }

  // --- the tokens of a file -------------------------------------------------------------------------------------------------

  function TypeTokens(t: Type): seq<string> {
    match t
    case EnumType(name) => ["enum", name]
    case ArrayType(elem, count) => [elem + "[" + count + "]"]
    case ListType(elem) => ["list(" + elem + ")"]
    case Scalar(name) => [name]
  }

  function MemberTokens(m: Member): seq<string> {
    match m
    case Pad(n) => ["pad", "(", Dec(n), ")"]
    case TypeMember(t, name, v) => TypeTokens(t) + [name, "==", Dec(v)]
    case Discriminator(t, name) => TypeTokens(t) + [name, "==", "?"]
    case FieldLength(t, name, f) => TypeTokens(t) + [name, "==", "length", "(", f, ")"]
    case Data(t, name) => TypeTokens(t) + [name]
  }

  function MembersTokens(ms: seq<Member>): seq<string> {
    if ms == [] then [] else MemberTokens(ms[0]) + ([";"] + MembersTokens(ms[1..]))
  }

  function ParamListTokens(ps: seq<Param>): seq<string>
    requires ps != []
  {
    [ps[0].name, "=", ps[0].value] + (if |ps| == 1 then [] else [","] + ParamListTokens(ps[1..]))
  }

  function ParamsTokens(ps: seq<Param>): seq<string> {
    if ps == [] then [] else ["("] + (ParamListTokens(ps) + [")"])
  }

  function EntryTokens(e: Entry): seq<string> {
    [e.name] + (ParamsTokens(e.params) + ["=", Dec(e.value)])
  }

  function EntriesTokens(es: seq<Entry>): seq<string> {
    if es == [] then [] else EntryTokens(es[0]) + (if |es| == 1 then [] else [","] + EntriesTokens(es[1..]))
  }

  function ParentTokens(p: Option<string>): seq<string> {
    match p
    case None => []
    case Some(name) => [":", name]
  }

  function DeclTokens(d: Decl): seq<string> {
    match d
    case Struct(name, params, parent, members) =>
      ["struct", name] + (ParamsTokens(params) + (ParentTokens(parent) + (["{"] + (MembersTokens(members) + ["}", ";"]))))
    case Enum(name, params, entries) => ["enum", name] + (ParamsTokens(params) + (["{"] + (EntriesTokens(entries) + ["}", ";"])))
    case Version(version) => ["#", "version", version]
  }

  function FileTokens(ds: seq<Decl>): seq<string> {
    if ds == [] then [] else DeclTokens(ds[0]) + FileTokens(ds[1..])
  }

  // --- all the tokens that a file may have for the same declarations -----------------------------------------------------------

  /** A number is in decimal digits, without a leading zero unless it is zero, or in hexadecimal digits after `0x`. */
  ghost predicate IsNumber(t: string, n: nat) {
    || (t != "" && (forall i :: 0 <= i < |t| ==> '0' <= t[i] <= '9') && (t[0] == '0' ==> n == 0) && Value(t, 10) == n)
    || (|t| > 2 && t[..2] == "0x" && (forall i :: 2 <= i < |t| ==> IsHexDigit(t[i])) && Value(t[2..], 16) == n)
  }

  ghost predicate IsMember(m: Member, toks: seq<string>) {
    match m
    case Pad(n) => |toks| == 4 && IsNumber(toks[2], n) && toks == ["pad", "(", toks[2], ")"]
    case TypeMember(t, name, v) =>
      toks != [] && IsNumber(toks[|toks| - 1], v) && toks == TypeTokens(t) + [name, "==", toks[|toks| - 1]]
    case Discriminator(t, name) => toks == TypeTokens(t) + [name, "==", "?"]
    case FieldLength(t, name, f) => toks == TypeTokens(t) + [name, "==", "length", "(", f, ")"]
    case Data(t, name) => toks == TypeTokens(t) + [name]
  }

  /** Each member is closed by a semicolon. */
  ghost predicate IsMembers(ms: seq<Member>, toks: seq<string>) {
    if ms == [] then toks == []
    else exists x, y :: IsMember(ms[0], x) && IsMembers(ms[1..], y) && toks == x + ([";"] + y)
  }

  /** A comma may follow the last parameter. */
  ghost predicate IsParamList(ps: seq<Param>, toks: seq<string>) {
    ps != [] && |toks| >= 3 && toks[..3] == [ps[0].name, "=", ps[0].value] &&
    if |ps| == 1 then toks[3..] in [[], [","]] else |toks| > 3 && toks[3] == "," && IsParamList(ps[1..], toks[4..])
  }

  ghost predicate IsParams(ps: seq<Param>, toks: seq<string>) {
    if ps == [] then toks == [] else exists list :: IsParamList(ps, list) && toks == ["("] + (list + [")"])
  }

  ghost predicate IsEntry(e: Entry, toks: seq<string>) {
    exists ps, t :: IsParams(e.params, ps) && IsNumber(t, e.value) && toks == [e.name] + (ps + ["=", t])
  }

  /** A comma may follow the last entry. */
  ghost predicate IsEntries(es: seq<Entry>, toks: seq<string>) {
    if es == [] then toks == []
    else exists x, y :: IsEntry(es[0], x) && IsEntries(es[1..], y) && (toks == x + ([","] + y) || (|es| == 1 && toks == x))
  }

  ghost predicate IsDecl(d: Decl, toks: seq<string>) {
    match d
    case Struct(name, params, parent, members) =>
      exists ps, ms :: IsParams(params, ps) && IsMembers(members, ms) &&
        toks == ["struct", name] + (ps + (ParentTokens(parent) + (["{"] + (ms + ["}", ";"]))))
    case Enum(name, params, entries) =>
      exists ps, es :: IsParams(params, ps) && IsEntries(entries, es) && toks == ["enum", name] + (ps + (["{"] + (es + ["}", ";"])))
    case Version(version) => toks == ["#", "version", version]
  }

  ghost predicate IsFile(ds: seq<Decl>, toks: seq<string>) {
    if ds == [] then toks == [] else exists x, y :: IsDecl(ds[0], x) && IsFile(ds[1..], y) && toks == x + y
  }

  /** One way to write a list of declarations: each token after a blank. */
  function Print(toks: seq<string>): string {
    if toks == [] then "" else " " + toks[0] + Print(toks[1..])
  }

  // --- declarations that the language can express ---------------------------------------------------------------------------

  /** Scalars named like the keywords of other types or of padding are read as those. */
  predicate TypeOk(t: Type) {
    match t
    case EnumType(name) => IsWord(name)
    case ArrayType(elem, count) => IsWord(elem) && IsWord(count) && elem !in ["enum", "pad"]
    case ListType(elem) => IsWord(elem)
    case Scalar(name) => IsWord(name) && name !in ["enum", "list", "pad"]
  }

  predicate MemberOk(m: Member) {
    m.Pad? || (TypeOk(m.oftype) && IsWord(m.name) && (m.FieldLength? ==> IsWord(m.field)))
  }

  predicate ParamsOk(ps: seq<Param>, names: seq<string>) {
    forall i :: 0 <= i < |ps| ==> ps[i].name in names && IsWord(ps[i].value)
  }

  predicate EntryOk(e: Entry) {
    IsWord(e.name) && ParamsOk(e.params, ENTRY_PARAMS)
  }

  predicate DeclOk(d: Decl) {
    match d
    case Struct(name, params, parent, members) =>
      && IsWord(name) && ParamsOk(params, STRUCT_PARAMS) && (parent.Some? ==> IsWord(parent.value))
      && forall i :: 0 <= i < |members| ==> MemberOk(members[i])
    case Enum(name, params, entries) =>
      IsWord(name) && ParamsOk(params, ENUM_PARAMS) && forall i :: 0 <= i < |entries| ==> EntryOk(entries[i])
    case Version(version) => IsWord(version)
  }

  predicate FileOk(ds: seq<Decl>) {
    forall i :: 0 <= i < |ds| ==> DeclOk(ds[i])
  }
}

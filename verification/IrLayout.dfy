/** Wire offsets and lengths of the members of a class. */
module IrLayout {
  import opened Options
  import opened Results
  import opened IrInput

  datatype LengthInfo = LengthInfo(offset: Option<nat>, bytes: nat, fixed: bool)

  /** The length of a class: of the fixed part, whether it is all there is, and whether users of the class see it
      rounded up to eight bytes. */
  datatype ClassSize = ClassSize(bytes: nat, fixed: bool, externalAlignment: bool) {
    function AsMember(): Len {
      Len(if externalAlignment then RoundUp8(bytes) else bytes, fixed)
    }
  }

  /** `(n + 7) & ~7`. */
  function RoundUp8(n: nat): (r: nat)
    ensures n <= r < n + 8 && r % 8 == 0
  {
    (n + 7) / 8 * 8
  }

  predicate HasExternalAlignment(params: map<string, string>) {
    "length_includes_align" in params && params["length_includes_align"] == "False"
  }

  // --- the length of one member ------------------------------------------------------------------------------

  /** `member_length`, and the cases of `calc_lengths` before it, given the sizes of the classes that exist. */
  function MemberLen(inp: Input, m: Member, sizes: map<string, ClassSize>): Result<Len, TypeError> {
    if m.Pad? then
      Ok(Len(m.length, true))
    else
      var shape :- ShapeOf(inp, m.oftype);
      match shape
      case Open => Ok(Len(0, false))
      case Elements(count, base, cls) =>
        var one :- if cls in sizes then Ok(sizes[cls].AsMember()) else TableLength(inp, base);
        Ok(Len(count * one.bytes, one.fixed))
  }

  // --- the layout of a class -----------------------------------------------------------------------------------

  function Sum(lens: seq<Len>): nat {
    if lens == [] then 0 else Sum(lens[..|lens| - 1]) + lens[|lens| - 1].bytes
  }

  predicate AllFixed(lens: seq<Len>) {
    forall i :: 0 <= i < |lens| ==> lens[i].fixed
  }

  /** The reference layout: a member starts where the earlier ones end, as long as these are all fixed. */
  function OffsetAt(lens: seq<Len>, i: nat): Option<nat>
    requires i <= |lens|
  {
    if AllFixed(lens[..i]) then Some(Sum(lens[..i])) else None
  }

  function InfoAt(lens: seq<Len>, i: nat): LengthInfo
    requires i < |lens|
  {
    LengthInfo(OffsetAt(lens, i), lens[i].bytes, lens[i].fixed)
  }

  /** Length and layout of a class; `infos` is keyed by the member's own value, as a dictionary of tuples is. */
  datatype Layout = Layout(bytes: nat, fixed: bool, infos: map<Key, LengthInfo>)

  /** A member as the tuple of its properties: the kind of a member is not part of it. */
  datatype Key = PadKey(length: nat) | NameKey(name: string, oftype: string)
               | ValueKey(name: string, oftype: string, value: int) | FieldKey(name: string, oftype: string, fieldName: string)

  function KeyOf(m: Member): Key {
    match m
    case Pad(length) => PadKey(length)
    case Data(name, oftype) => NameKey(name, oftype)
    case Discriminator(name, oftype) => NameKey(name, oftype)
    case Length(name, oftype) => NameKey(name, oftype)
    case Version(name, oftype) => NameKey(name, oftype)
    case TypeValue(name, oftype, value) => ValueKey(name, oftype, value)
    case FieldLength(name, oftype, fieldName) => FieldKey(name, oftype, fieldName)
  }

  /** No later member is equal to the one at `i`. */
  ghost predicate IsLast(members: seq<Member>, i: nat)
    requires i < |members|
  {
    forall k :: i < k < |members| ==> KeyOf(members[k]) != KeyOf(members[i])
  }

  /** The last member equal to the one at `i`. */
  function LastEqual(members: seq<Member>, i: nat): (k: nat)
    requires i < |members|
    ensures i <= k < |members| && KeyOf(members[k]) == KeyOf(members[i]) && IsLast(members, k)
    ensures IsLast(members, i) ==> k == i
    decreases |members|
  {
    var front, last := members[..|members| - 1], |members| - 1;
    if KeyOf(members[last]) == KeyOf(members[i]) then last else
      var k := LastEqual(front, i);
      assert forall j :: k < j < |front| ==> members[j] == front[j];
      k
  }

  /** The lengths of all members, or the error of the first that has none. */
  function MemberLens(inp: Input, members: seq<Member>, sizes: map<string, ClassSize>): (r: Result<seq<Len>, TypeError>)
    ensures r.Ok? ==> |r.value| == |members|
    ensures r.Ok? ==> forall i :: 0 <= i < |members| ==> MemberLen(inp, members[i], sizes) == Ok(r.value[i])
  {
    if members == [] then
      Ok([])
    else
      var lens :- MemberLens(inp, members[..|members| - 1], sizes);
      var last :- MemberLen(inp, members[|members| - 1], sizes);
      Ok(lens + [last])
  }

  /** The information under each key is that of the last member with the key, in the reference layout. */
  ghost predicate InfosOf(members: seq<Member>, lens: seq<Len>, infos: map<Key, LengthInfo>)
    requires |lens| == |members|
  {
    && (forall i :: 0 <= i < |members| ==> KeyOf(members[i]) in infos)
    && (forall i :: 0 <= i < |members| && IsLast(members, i) ==> infos[KeyOf(members[i])] == InfoAt(lens, i))
  }

  /** What `calc_lengths` computes from the member lengths; a virtual class is never fixed. */
  ghost predicate IsLayout(decl: Decl, lens: seq<Len>, layout: Layout) {
    && |lens| == |decl.members|
    && layout.bytes == Sum(lens)
    && (layout.fixed <==> AllFixed(lens) && !decl.isVirtual)
    && InfosOf(decl.members, lens, layout.infos)
  }

  /** Of equal members all have the information of the last. */
  lemma InfoOfLast(members: seq<Member>, lens: seq<Len>, infos: map<Key, LengthInfo>, i: nat)
    requires |lens| == |members| && InfosOf(members, lens, infos) && i < |members|
    ensures infos[KeyOf(members[i])] == InfoAt(lens, LastEqual(members, i))
  {
    assert IsLast(members, LastEqual(members, i));
  }

  lemma {:induction false} SumsGrow(lens: seq<Len>, i: nat, j: nat)
    requires i <= j <= |lens|
    ensures Sum(lens[..i]) <= Sum(lens[..j])
    ensures Sum(lens[..i]) == Sum(lens[..j]) <==> forall k :: i <= k < j ==> lens[k].bytes == 0
    decreases j
  {
    if i < j {
      SumsGrow(lens, i, j - 1);
      assert lens[..j][..j - 1] == lens[..j - 1];
    }
  }

  /** Two members are at one offset exactly when something before the first is not fixed, or from it to the second all is
      fixed and empty. */
  lemma SameOffset(lens: seq<Len>, i: nat, j: nat)
    requires i <= j < |lens|
    ensures OffsetAt(lens, i) == OffsetAt(lens, j) <==>
            !AllFixed(lens[..i]) || forall k :: i <= k < j ==> lens[k].fixed && lens[k].bytes == 0
  {
    SumsGrow(lens, i, j);
    assert forall k :: 0 <= k < i ==> lens[..j][k] == lens[..i][k];
    assert AllFixed(lens[..j]) <==> AllFixed(lens[..i]) && forall k :: i <= k < j ==> lens[..j][k].fixed;
  }

  lemma EqualMembersEqualLens(inp: Input, a: Member, b: Member, sizes: map<string, ClassSize>)
    requires KeyOf(a) == KeyOf(b)
    ensures MemberLen(inp, a, sizes) == MemberLen(inp, b, sizes)
  {}

  lemma OneMoreInfo(members: seq<Member>, lens: seq<Len>, infos: map<Key, LengthInfo>, m: Member, len: Len)
    requires |lens| == |members| && InfosOf(members, lens, infos)
    ensures InfosOf(members + [m], lens + [len], infos[KeyOf(m) := LengthInfo(OffsetAt(lens, |lens|), len.bytes, len.fixed)])
  {
    var all, longer := members + [m], lens + [len];
    assert longer[..|lens|] == lens == lens[..|lens|];
    forall i | 0 <= i < |all| && IsLast(all, i) && i < |members|
      ensures KeyOf(all[i]) != KeyOf(m) && infos[KeyOf(all[i])] == InfoAt(longer, i)
    {
      assert all[|members|] == m;
      assert forall k :: i < k < |members| ==> all[k] == members[k];
      assert longer[..i] == lens[..i];
    }
  }

  lemma OneMoreLen(lens: seq<Len>, len: Len)
    ensures Sum(lens + [len]) == Sum(lens) + len.bytes
    ensures AllFixed(lens + [len]) <==> AllFixed(lens) && len.fixed
    ensures OffsetAt(lens, |lens|) == if AllFixed(lens) then Some(Sum(lens)) else None
  {
    var longer := lens + [len];
    assert longer[..|lens|] == lens == lens[..|lens|];
    assert longer[|lens|] == len;
    assert forall i :: 0 <= i < |lens| ==> longer[i] == lens[i];
  }

  lemma OneMoreMember(inp: Input, members: seq<Member>, sizes: map<string, ClassSize>, m: Member)
    ensures var lens, len := MemberLens(inp, members, sizes), MemberLen(inp, m, sizes);
            lens.Ok? && len.Ok? ==> MemberLens(inp, members + [m], sizes) == Ok(lens.value + [len.value])
  {}

  /** `calc_lengths`. */
  method CalcLengths(inp: Input, decl: Decl, sizes: map<string, ClassSize>) returns (r: Result<Layout, TypeError>)
    ensures var lens := MemberLens(inp, decl.members, sizes);
            if lens.Ok? then r.Ok? && IsLayout(decl, lens.value, r.value) else r == Err(lens.error)
  {
    hide MemberLen, MemberLens, InfosOf, KeyOf, Sum, AllFixed, OffsetAt;
    var members := decl.members;
    var offsetFixed, offset := true, 0;
    var infos: map<Key, LengthInfo> := map[];
    ghost var lens: seq<Len> := [];
    NoMembers(inp, sizes);
    for n := 0 to |members|
      invariant MemberLens(inp, members[..n], sizes) == Ok(lens) && |lens| == n
      invariant offset == Sum(lens) && offsetFixed == AllFixed(lens)
      invariant InfosOf(members[..n], lens, infos)
    {
      var m := members[n];
      assert members[..n + 1] == members[..n] + [m];
      var memberOffset := if offsetFixed then Some(offset) else None;
      var len := MemberLen(inp, m, sizes);
      if len.Err? {
        FirstError(inp, members, sizes, n);
        return Err(len.error);
      }
      OneMoreLen(lens, len.value);
      OneMoreMember(inp, members[..n], sizes, m);
      OneMoreInfo(members[..n], lens, infos, m, len.value);
      if !len.value.fixed {
        offsetFixed := false;
      }
      infos := infos[KeyOf(m) := LengthInfo(memberOffset, len.value.bytes, len.value.fixed)];
      offset := offset + len.value.bytes;
      lens := lens + [len.value];
    }
    assert members[..|members|] == members;
    return Ok(Layout(offset, if !decl.isVirtual then offsetFixed else false, infos));
  }

  lemma NoMembers(inp: Input, sizes: map<string, ClassSize>)
    ensures MemberLens(inp, [], sizes) == Ok([]) && Sum([]) == 0 && AllFixed([]) && InfosOf([], [], map[])
  {}

  lemma {:induction false} FirstError(inp: Input, members: seq<Member>, sizes: map<string, ClassSize>, n: nat)
    requires n < |members| && MemberLens(inp, members[..n], sizes).Ok? && MemberLen(inp, members[n], sizes).Err?
    ensures MemberLens(inp, members, sizes) == Err(MemberLen(inp, members[n], sizes).error)
    decreases |members|
  {
    if n < |members| - 1 {
      assert members[..|members| - 1][..n] == members[..n];
      FirstError(inp, members[..|members| - 1], sizes, n);
    }
  }
}

# LoxiGen in Dafny

LoxiGen is a protocol compiler: it parses descriptions of OpenFlow structures, builds for each protocol version the
classes with their wire layouts, merges the versions, and emits code that converts matches and accesses members. This
project models the parts of it that decide something, and proves what they promise.

| part | files |
|---|---|
| Builder of the classes of one version: dependencies, layouts, id classes, order of visits | `IrInput`, `IrLayout`, `IrBuilder`, `IrTheorems`, `IrIds`, `IrOrders`, `IrVisits`, `IrHiding`, `IrRules`, `IrExamples` |
| Merge of all versions | `Unified`, `UnifiedBuild`, `UnifiedTheorems` |
| The ordered set that the builder uses as its stack | `OrderedSet` |
| Match comparison, and conversion to OpenFlow 1.0 matches and OXM lists | `Bytes`, `FlowSpace`, `Wildcards`, `MatchV1`, `OxmList` |
| Parser combinators: derivations, meaning, packrat cache, choice, flattening, literals | `Derivations`, `ParserCore`, `DerivedIsParsed`, `ParsedIsDerived`, `Packrat`, `OrChoice`, `ParserMeaning`, `PlainGrammar`, `Flattening`, `Inlining`, `Streamline`, `OneOf` |
| The input language, parsed and printed, and its declarations | `InputLexer`, `InputGrammar`, `InputTokens`, `InputRoundTrip`, `InputFiles`, `InputPrint`, `InputGaps`, `InputGapParsers`, `InputComments`, `InputSpelling`, `InputSound`, `Frontend` |
| Legacy unifier and what it is given, accessor switch, template blocks | `LegacyUnifier`, `LegacyInput`, `AccessorSwitch`, `BlockArranger` |
| Options, results, sequences | `Common` |

`dafny verify dfyconfig.toml` checks everything. Code that changes state is modelled by classes and methods with the
same fields and loops; what it computes is tied to a specification about which the theorems speak. Where code and
specification share a function, the function is tied in turn to what it must mean: derivations for the parser elements
(`Derivations`), the characters of a text for the input language (`InputSpelling`), declarative rules for layouts
(`IrRules`), bit positions for the wildcard word. Wire formats follow
sections 5.2.3 of the OpenFlow Switch Specification 1.0.0 and A.2.3 of the OpenFlow Switch Specification 1.2.

## What the code does not promise

Where a natural claim is false of the code, an input shows it and the exact condition is proved:

- Lengths depend on the order of visits: the builder finds dependencies from the written type, but computes lengths from
  the type without its array and as of the version (`loxi_ir/ir.py:428`, `loxi_ir/ir_offset.py:201-207`). An input is
  `IrExamples.LengthDependsOnOrder`. Every order gives every member its plain length if and only if the written types lead
  to each contained class or the tables alone give that length (`IrVisits.PlainInEveryOrder`); for the class visited first,
  and one member, that is `IrVisits.FirstVisitUsesTable`.
- An id class is entered under its name before a declaration of that name may be visited, and then hides it.
  `of_action_id` and `of_instruction_id` of the versions from 1.3 on are such declarations. Two completed builds for the
  first that differ are in `IrExamples.ActionIdDependsOnOrder`. Visiting the original or the declaration first makes the
  same class if and only if the original leads to the declaration or both come out alike (`IrHiding.HidingDependsOnOrder`);
  two builds agree if and only if all their classes come of declarations alike (`IrOrders.BuildsAgreeExactly`). The sizes
  of all other classes do not depend on it (`IrVisits.InputOrderIsIrrelevant`).
- Offsets are kept in a dictionary keyed by the member's value (`loxi_ir/ir_offset.py:187`), so of equal members all get
  the information of the last. A member has its own if and only if something before it is not fixed, or all from it to the
  last of its equals are fixed and empty (`IrTheorems.OwnOffset`); the first padding of `of_port_mod` has not
  (`IrTheorems.FirstPadMoves`).
- `superclass_set` is never set (`loxi_ir/unified.py:59`), so superclasses that differ between versions are not
  reported. Instance-of answers as in every version exactly when they do not differ
  (`UnifiedTheorems.InstancesAgreeExactly`).
- Flattening a sequence can move its end: an element that matches nothing does so before the whitespace when it skips none
  itself (`Streamline.OptionalHeadMovesEnd`). One flattening changes the outcome at a place if and only if what stands
  before the inner sequence matches, whitespace follows, and neither the inner elements nor those after them match
  anything there (`Inlining.AndInlineExactly`); it leaves the grammar as it was if and only if that happens nowhere
  (`Streamline.InlineNeutralExactly`).
- A scalar type named `enum`, `list` or `pad`, or an array of `enum` or `pad`, cannot be written in the input language
  (`InputPrint.RoundTrip`).
- Encoding a match for OpenFlow 1.0 can accept more packets. It keeps the set if and only if the address masks are
  contiguous (`MatchV1.EncodedKeepsExactly`, `MatchV1.RoundTripKeepsExactly`).
- Equal signature strings stand for equal members only without separators in types and names
  (`LegacyUnifier.SignatureClash`). No input that was parsed has such a name, so sharing is never noticed
  (`LegacyInput.SharingNeverNoticed`).
- The end word built for `try:` is `#endtry:`, which is not among the end words (`tenjin.py:834-835`, `tenjin.py:913`).
  Of the start words it is the only one (`BlockArranger.EndWordsKnown`), so the listed `#endtry` is refused there and only
  `#end` closes such a block (`BlockArranger.TryClosedByEndOnly`).
- A switch body serves versions of equal offset and base length, whose length expressions can differ
  (`AccessorSwitch.FixedApart`). Every version gets the length generated for it if and only if the versions of each run
  agree on it (`AccessorSwitch.OwnLengthsExactly`).

## Model

| member | source | states |
|---|---|---|
| IrLayout.RoundUp8 | loxi_ir/ir_offset.py:211-212 | a length as users of an externally aligned class see it: the next multiple of 8, never less and less than 8 more |
| IrLayout.MemberLens | loxi_ir/ir_offset.py:163-189 | the lengths of all members in order, or an error; which length each member has is `IrRules.MeasuresIs` |
| IrLayout.CalcLengths | loxi_ir/ir_offset.py:158-193 | the loop gives the reference layout: length is the sum of the member lengths, fixed exactly when all members are and the class is not virtual, each member (the last of equal ones) at the sum of the earlier lengths as long as these are fixed; an error is that of the first member without a length |
| IrLayout.FirstError | loxi_ir/ir_offset.py:163-189 | the error of a member list is that of the first member that has none |
| IrBuilder.Builder.BuildClass | loxi_ir/ir.py:409-446 | in every run: the touched set in order is the dependency path to the class; the class is made of its declaration and classes finished before it, among them all it depends on; only classes reachable from it are added; an error of a cycle names the touched path, which closes; it terminates |
| IrBuilder.Builder.BuildDependencies | loxi_ir/ir.py:422-431 | the superclass and all classes the written member types mention exist before the lengths are computed |
| IrBuilder.Builder.BuildMentions | loxi_ir/ir.py:428-431 | both readings of a written type, with and without its ending, are built when they are declared |
| IrBuilder.Builder.Finish | loxi_ir/ir.py:433-446 | the finished class has the layout over the classes that exist, and leaves the path |
| IrBuilder.Builder.BuildIdClass | loxi_ir/ir.py:448-486 | an id class is made for every class of the superclass chain that lacks one, each from the kept members; nothing else changes; it terminates |
| IrBuilder.Builder.FinishIdClass | loxi_ir/ir.py:461-486 | an id class that is not virtual has a fixed length, or the build fails |
| IrBuilder.Builder.BuildProtocol | loxi_ir/ir.py:488-502 | for any order of the names, the completed build has every declared class, and from version 4 on an id class for every class below the two roots |
| IrBuilder.Builder.Visit | loxi_ir/ir.py:490-497 | a visit leaves the class and its id class below each root, and changes no class that was there; every id class is owed to a class below its root that came before it |
| IrBuilder.ClassAdded | loxi_ir/ir.py:436-446 | entering a finished class keeps what all builds keep |
| IrBuilder.IdClassAdded | loxi_ir/ir.py:477-486 | entering an id class keeps what all builds keep |
| IrBuilder.PathCloses | loxi_ir/ir.py:412-414 | a class met again on the path closes a cycle of dependencies |
| IrTheorems.BuildIsPlain | loxi_ir/ir.py:409-446 | the memoised build gives every class the size, and every member the kind and the information of the last one equal to it, of the plain recursion over the type graph, when each contained class was built in time or the tables agree with it; how a single length is found is `IrRules.BuiltByRules` |
| IrTheorems.SizeIsPlain | loxi_ir/ir_offset.py:195-223 | the length of a class in a build is that of the plain recursion over contained classes; when a contained length is rounded is `IrRules.ContainedCounts` |
| IrTheorems.LenIsPlain | loxi_ir/ir_offset.py:195-223 | the same of one member |
| IrTheorems.OwnOffset | loxi_ir/ir_offset.py:187 | a member has the information of the last one equal to it, and its own exactly when an earlier member is not fixed, or all from it to that last one are fixed and empty |
| IrTheorems.FirstPadMoves | openflow_input/standard-1.3:736-749 | in `of_port_mod` the first padding is given the offset of the second of its length |
| IrRules.MeasuresIs | loxi_ir/ir_offset.py:135-223 | the length of a member is exactly that of the declarative rules: padding, lists and octet strings, counts of arrays by constant or digits, the type of the version, contained classes, enums by their wire type, the tables |
| IrRules.BuiltByRules | loxi_ir/ir_offset.py:158-193 | every class of a build is laid out by these rules over the classes before it: lengths, starts, fixedness, the wire version in version members |
| IrRules.ContainedCounts | loxi_ir/ir_offset.py:206-212 | a member of a contained class counts its length rounded up to eight if and only if that class has `length_includes_align` set to `False`, and else the length as it is |
| IrRules.BothRootsHaveIds | loxi_ir/ir.py:488-497 | from version 4 on every class below `of_action` and every class below `of_instruction` has its id class, named `of_action_id` and `of_instruction_id` with the rest of the name |
| IrRules.KeptAre | loxi_ir/ir.py:461-464 | the members of an id class are exactly those that are neither data nor padding, each once and in order |
| IrExamples.PacketInCountsAlignment | openflow_input/standard-1.3:1136-1149 | `of_packet_in` is 34 bytes: the 4 bytes of `of_match_v3` count as 8 in it |
| IrOrders.OrderFreeIsSettled | loxi_ir/ir.py:424-434 | when the written types lead to every contained class, or the tables agree with it, the condition holds for every order of visits, also where id classes hide declarations |
| IrVisits.OrderIsIrrelevant | loxi_ir/ir.py:490-491 | two completed builds in different orders have the same id classes and agree on every class, when they hide the same declarations |
| IrVisits.InputOrderIsIrrelevant | loxi_ir/ir.py:490-497 | under a condition on the input alone, which declarations like `of_action_id` do not break, all orders give the same names and sizes but of such declarations, and the same classes when the same ones are hidden |
| IrVisits.PlainInEveryOrder | loxi_ir/ir_offset.py:195-223 | all orders give all members their plain lengths if and only if the written types lead to each contained class or the tables alone give its length |
| IrOrders.BuildsAgreeExactly | loxi_ir/ir.py:409-502 | two completed builds are equal if and only if they have the same names and each class comes of declarations that come out alike |
| IrHiding.FirstVisitHides | loxi_ir/ir.py:448-452 | when a class below a root is visited first, its id class hides a declaration of that name exactly when the class does not lead to it |
| IrHiding.HidingDependsOnOrder | loxi_ir/ir.py:490-497 | visiting the original or the hidden declaration first makes the same class if and only if the original leads to it or both declarations come out alike |
| IrExamples.ActionIdDependsOnOrder | openflow_input/standard-1.3:760-763 | two completed builds of `of_action` and `of_action_id` that differ |
| IrExamples.ActionsAreRegular | openflow_input/standard-1.3:760-763 | this input meets the conditions of the theorems on all orders |
| IrExamples.LengthDependsOnOrder | loxi_ir/ir_offset.py:206-221 | a completed build in which a member is given 8 bytes for a class of 16 |
| IrVisits.FirstVisitUsesTable | loxi_ir/ir_offset.py:206-221 | a class visited first gives a member whose class it does not lead to the length of the tables: the plain length if and only if these agree |
| IrTheorems.CompletedIsAcyclic | loxi_ir/ir.py:409-446 | a cyclic dependency graph never builds to completion, except through a declaration hidden by an id class of its name |
| IrOrders.FollowersAreBefore | loxi_ir/ir.py:422-431 | everything a class depends on, directly or through classes that are not hidden, is finished before it |
| IrIds.SuperclassFirst | loxi_ir/ir.py:422-446 | the superclass of a class is in the class list, before it |
| IrIds.InstanceOfIsInChain | loxi_ir/ir.py:139-145 | instance-of asks for a name in the superclass chain |
| IrIds.IdNameIsInjective | loxi_ir/ir.py:449 | the renaming to id classes is injective over both roots, for names with the prefix of their root |
| IrIds.IdChainMirrors | loxi_ir/ir.py:454-459 | the superclass chain of an id class is that of its original, renamed |
| IrIds.IdInstanceMirrors | loxi_ir/ir.py:448-486 | instance-of among id classes is instance-of among the originals, under the renaming |
| IrIds.IdMembersMirror | loxi_ir/ir.py:461-483 | an id class has exactly the members that are neither data nor padding, in order, at recomputed offsets; its length is their sum and never above the original |
| IrIds.BelowRoot | loxi_ir/ir.py:409-446 | a class below a root was built from its own declaration, and so were all its superclasses, up to the root |
| IrIds.HierarchyMirrors | loxi_ir/ir.py:448-497 | in a completed build every class below a root has an id class, with the same chain and instances under the renaming, and exactly its kept members at the offsets of their own layout |
| Unified.UnifiedClassSpec.AddClass | loxi_ir/unified.py:49-86 | after any sequence of classes: members in order of first appearance with agreeing kinds, the superclass of the last class, all parameters, the least length, fixed only if all are fixed and equally long, virtual if any is; it fails only on a clash of kinds or parameters |
| Unified.UnifiedClassSpec.MergeParams | loxi_ir/unified.py:66-72 | parameters are joined, and one that differs is reported |
| Unified.UnifiedClassSpec.MergeLength | loxi_ir/unified.py:77-85 | least length, and fixedness over all classes merged |
| Unified.MergeMembers | loxi_ir/unified.py:50-57 | members are joined by name, padding left out; it fails exactly at a member of another kind than one of its name |
| Unified.MembersInOrder | loxi_ir/unified.py:49-57 | members stand in the order of their first appearance: the earlier class first, then the place in that class |
| UnifiedBuild.BuildUnified | loxi_ir/unified.py:123-154 | one merged class per name, in order of first appearance, each linked to an earlier merged class; a missing superclass is one that truly does not come before |
| UnifiedBuild.Link | loxi_ir/unified.py:143-154 | the lookup of superclasses among the classes already made |
| UnifiedTheorems.NeverMisses | loxi_ir/unified.py:143-154 | when each class has one superclass name in all its versions, the superclass lookup never misses |
| UnifiedTheorems.InstancesAgreeExactly | loxi_ir/ir.py:139-145 | unified and per-version instance-of agree for all classes, versions and ancestors exactly when each class has one superclass name in all its versions |
| UnifiedTheorems.BuiltIsOrdered | loxi_ir/ir.py:444-446 | protocols made by the builder meet what the merge relies on |
| OrderedSets.OrderedSet.constructor | generic_utils.py:89-94 | the sentinel linked to itself, then the elements given, each where it first appears |
| OrderedSets.OrderedSet.Contains | generic_utils.py:99-100 | membership in the index is membership in the list |
| OrderedSets.OrderedSet.Add | generic_utils.py:102-106 | a new element comes last; the links stay one ring over the elements, indexed exactly |
| OrderedSets.OrderedSet.Discard | generic_utils.py:108-112 | the element is unlinked, the others keep their order |
| OrderedSets.OrderedSet.Pop | generic_utils.py:128-133 | the last or the first element is removed and returned; an empty set yields none |
| OrderedSets.OrderedSet.Iterate | generic_utils.py:114-119 | the links forwards are the elements in order of insertion |
| OrderedSets.OrderedSet.Reversed | generic_utils.py:121-126 | the links backwards are the reverse |
| OrderedSets.Unlink | generic_utils.py:110-112 | relinking the two neighbours leaves a ring without the cell |
| OrderedSets.LinkLast | generic_utils.py:104-106 | the new cell closes the ring before the sentinel |
| FlowSpace.MoreSpecific | c_gen/c_match.py:965-990 | true exactly when every packet that the entry accepts is accepted by the query, for any number of bytes |
| FlowSpace.Overlap | c_gen/c_match.py:1000-1020 | true exactly when some packet is accepted by both |
| FlowSpace.WithinIsBytewise | c_gen/c_match.py:976-989 | inclusion of packet sets is the byte test at every byte |
| FlowSpace.MeetIsBytewise | c_gen/c_match.py:1011-1019 | a common packet exists exactly when no byte tells the matches apart |
| FlowSpace.WithinIsAPreorderBelowOverlap | c_gen/c_match.py:955-1020 | more specific is a preorder, implies overlap, and overlap survives widening |
| FlowSpace.SameSpaceIsSameMaskedBits | c_gen/c_match.py:955-990 | two matches accept the same packets exactly when they have the same masks and the same bits under them |
| Wildcards.MaskOfIndexCounts | c_gen/c_match.py:1063-1071 | every mask has one count; the mask of an index counts that index, or 63 from 32 on, and a contiguous mask is the mask of its count |
| Wildcards.MaskToIndex | c_gen/c_match.py:1030-1057 | the number of low bits that a contiguous mask leaves out, 63 for the empty mask and for any other |
| Wildcards.LowOnesTest | c_gen/c_match.py:1044-1047 | the increment trick tells exactly the words of low ones |
| Wildcards.SetBitApart | c_gen/c_match.py:143 | setting one wildcard bit leaves the other bits and both counts alone |
| Wildcards.SetCountApart | c_gen/c_match.py:129-135 | storing one address count leaves all bits and the other count alone |
| Wildcards.SetCount | c_gen/c_match.py:131-137 | the count read back is the count stored |
| Wildcards.ShiftsApart | c_gen/match.py:75-88 | the OpenFlow 1.0 wildcard fields of different keys share no bit; which bit is whose is `Wildcards.TestBit` and `Wildcards.GetCount` |
| Wildcards.TestBit | c_gen/c_match.py:139-146 | the test macro of a key reads the bit that the OpenFlow Switch Specification 1.0.0 gives to its field: 0 to 7 for in_port, vlan_vid, eth_src, eth_dst, eth_type, ip_proto, tcp_src, tcp_dst, 20 for vlan_pcp, 21 for ip_dscp |
| Wildcards.GetCount | c_gen/c_match.py:129-138 | the count macro reads bits 8 to 13 for the source address and 14 to 19 for the destination address, the lowest first |
| MatchV1.CompatCheck | c_gen/c_match.py:284-299 | compatible exactly when all keys unknown to OpenFlow 1.0 are inactive |
| MatchV1.PutKey | c_gen/c_match.py:328-346 | what one key leaves on the wire, the rest untouched |
| MatchV1.ToWire | c_gen/c_match.py:312-352 | the wire match encodes every key of the unified match at the bit positions of the specification, with the unused bits clear; error returns and version as in the source |
| MatchV1.FromWire | c_gen/c_match.py:542-572 | the unified match decodes every key from the bit positions of the specification and clears the others |
| MatchV1.DecodedMeaning | c_gen/c_match.py:542-572 | decoding keeps the set of packets accepted |
| MatchV1.EncodedMeaning | c_gen/c_match.py:312-352 | encoding never rejects a packet that the match accepted, and accepts no other when the address masks are contiguous |
| MatchV1.TcpDstAlone | c_gen/c_match.py:342-346 | an exact destination port alone gives a word with bit 7 clear and all others below 22 set |
| MatchV1.EncodedKeepsExactly | c_gen/c_match.py:312-352 | encoding keeps the set of packets if and only if the address masks are contiguous |
| MatchV1.RoundTripNeverRejects | c_gen/c_match.py:312-352 | there and back, with arbitrary address masks, no packet accepted before is rejected |
| MatchV1.RoundTripKeepsExactly | c_gen/c_match.py:312-352 | there and back keeps the set of packets if and only if the address masks are contiguous |
| MatchV1.RoundTripIsIdentity | c_gen/c_match.py:312-352 | there and back is the identity exactly for matches whose other masks are all zeros or ones, whose address masks are contiguous, and whose fields are zero outside the masks and fit the wire |
| MatchV1.RoundTrip | c_gen/c_match.py:542-572 | both conversions in sequence |
| OxmList.SortIsStable | c_gen/match.py:176-178 | the sort keeps keys of equal order in their order |
| OxmList.MatchKeys.Build | c_gen/match.py:143-178 | the keys are the unmasked OXM classes, sorted by order, and each version gets the names of its keys in order; it fails exactly when a name is listed already or a version has no list |
| OxmList.MatchKeys.List | c_gen/match.py:172-174 | a name is added to the list of each of its versions, if it is in none |
| OxmList.KeyNames | c_gen/match.py:143-150 | an OXM class `of_oxm_x` is the key `x`, with its number and width; the common superclass and the masked classes are none |
| OxmList.BasicKeysFirst | c_gen/match.py:154-158 | keys of the basic class come before all others |
| OxmList.KindsInOrder | c_gen/match.py:153-158 | within the basic class, and within all others, keys come in the order of their numbers |
| OxmList.Populate | c_gen/c_match.py:458-486 | the list has the entries of the active keys, masked or exact |
| OxmList.EntryPerKey | c_gen/c_match.py:465-483 | exactly one entry for each key with a mask bit set, in the order of the keys, with its value; it has no mask if and only if all mask bits are set, and else that mask |
| OxmList.EntriesAreOrdered | c_gen/c_match.py:465-483 | entries follow the sorted key order |
| OxmList.FromList | c_gen/c_match.py:622-671 | decoding a list without repeated keys gives the match it stands for; an unknown entry is a parse error |
| OxmList.DecodingIsOrderFree | c_gen/c_match.py:640-668 | any permutation of a list with distinct keys decodes to the same match |
| OxmList.DecodedEncoding | c_gen/c_match.py:622-671 | what decoding an encoded match gives: fields cut to their masks |
| OxmList.RoundTripIsIdentity | c_gen/c_match.py:458-486 | there and back, in any order of the entries, is the identity exactly for matches with fields zero outside their masks |
| OxmList.RoundTrip | c_gen/c_match.py:497-522 | both conversions in sequence |
| ParserCore.Parse | pyparsing.py:1647-1732 | parsing without cache stays in the text, and moves on where an element consumes; what it gives is exactly what can be derived (`ParsedIsDerived.ParsesWhatIsDerived`) |
| ParserCore.Impl | pyparsing.py:4049-4072 | each kind of element keeps the end in the text; what it gives is `DerivedIsParsed.RuleIsImpl` |
| ParserCore.SortDown | pyparsing.py:4146-4149 | the sort by end is a permutation |
| ParsedIsDerived.ParsesWhatIsDerived | pyparsing.py:1647-1732 | an outcome is derivable, by rules that say for each kind of element what a match and a failure are, if and only if it is the outcome of parsing: so exactly one is |
| DerivedIsParsed.RuleIsImpl | pyparsing.py:4049-4072 | what the rule of a kind concludes from the outcomes of its parts is what the element gives |
| ParsedIsDerived.WordsAreWhole | pyparsing.py:3186-3224 | a word that is parsed begins with a character of the first set, goes on with those of the second, and ends at the end of the text or before a character outside the second |
| ParsedIsDerived.OfPortIsOneWord | pyparsing.py:3186-3224 | `of_port` is parsed as one word of letters, digits and underscores |
| Packrat.Parser.ParseCache | pyparsing.py:1835-1856 | the cached parse gives what parsing without cache gives, in a list of its own; cached entries stay correct |
| Packrat.Parser.ParseNoCache | pyparsing.py:1647-1732 | parsing an element, with its actions, gives the uncached outcome, which is the derivable one |
| Packrat.Parser.Store | pyparsing.py:1771-1797 | after an entry is made the cache keeps its size, and every entry kept is the uncached result |
| Packrat.Parser.Evict | pyparsing.py:1780-1786 | evicting the oldest entries changes no other |
| Packrat.Parser.AndImpl | pyparsing.py:4049-4072 | growing the list of the first element in place gives the tokens of the sequence and touches no cached list |
| Packrat.Parser.RepeatImpl | pyparsing.py:4686-4713 | the same for repetition |
| Packrat.Parser.MatchFirstImpl | pyparsing.py:4249-4271 | the first alternative that matches, or the furthest failure |
| Packrat.Parser.OrImpl | pyparsing.py:4126-4184 | all alternatives tried, then parsed again from the longest down |
| Packrat.Parser.ScanImpl | pyparsing.py:4157-4178 | the descending scan with its early exit |
| Packrat.Parser.Act | pyparsing.py:1692-1726 | pure parse actions in turn, each replacement in a new list |
| Packrat.Parser.ParseString | pyparsing.py:1934-1957 | for every cache size, also none, a whole parse gives the one outcome that can be derived for the text |
| Packrat.TokenList.Grow | pyparsing.py:4070-4072 | the list itself grows by the tokens of the other |
| OrChoice.OrTakesLongest | pyparsing.py:4130-4155 | without actions the longest alternative is taken, the earliest on ties; it fails only when all do |
| OrChoice.OrTakesLongestAgain | pyparsing.py:4157-4178 | when parsing again never lengthens a match, the scan with early exit gives a longest result, or none when no alternative matches again |
| OrChoice.SortDescends | pyparsing.py:4146-4149 | the matches come in descending order of their ends |
| ParserMeaning.ParseSame | pyparsing.py:3928-3960 | elements replaced by ones of the same meaning leave every element of the grammar with its meaning |
| PlainGrammar.ParsePlain | pyparsing.py:1647-1732 | without actions and error stops, the flag for actions makes no difference and no failure is fatal |
| PlainGrammar.OrPlain | pyparsing.py:4126-4184 | there, the longest-match choice is a fold over its alternatives |
| Flattening.ParseNear | pyparsing.py:1628-1638 | from either side of whitespace every element gives the same, or matches nothing on both |
| Flattening.TolerantMeans | pyparsing.py:1628-1638 | an element that skips whitespace, or takes text, or leaves that to its alternatives, gives the same from either side |
| Inlining.AndInlineExactly | pyparsing.py:4049-4072 | replacing a sequence in a sequence by its elements changes the outcome at a place if and only if the part before it ends at whitespace and the rest matches nothing there, and then only the end, which comes before the whitespace |
| Inlining.AndInline | pyparsing.py:4049-4072 | so it changes nothing at the first place, or when some inner element cannot match nothing before whitespace |
| Inlining.FirstInline | pyparsing.py:4249-4271 | a first-match choice inside another may be replaced by its alternatives |
| Inlining.OrInline | pyparsing.py:4126-4184 | a longest-match choice inside another may be replaced by its alternatives |
| Streamline.InlineNeutralExactly | pyparsing.py:3937-3954 | one inlining leaves the meaning of every element if and only if it moves no end of the sequence itself; with choices it always does |
| Streamline.InlineKeeps | pyparsing.py:3937-3954 | where sequences that come second in a pair have an anchor, one inlining keeps the meaning of every element, to the end, tokens and furthest failure, and the condition |
| Streamline.Elements.InlineAt | pyparsing.py:3940-3952 | the list in place of the nested element, exactly when they are of one class; the meaning of all elements stays if and only if no end moves |
| Streamline.Elements.FlattenPair | pyparsing.py:3937-3954 | a pair takes in its first, then its last element of the same class, exactly as the guards allow; with anchors every element parses as before |
| Streamline.Elements.Streamline | pyparsing.py:3928-3960 | the whole pass over a possibly cyclic grammar terminates; in a grammar built of pairs, every element that can then be reached, also through repetitions, options and Forwards, has no element of its own class; with anchors it keeps the meaning of every element |
| Streamline.OptionalHeadMovesEnd | pyparsing.py:3937-3954 | without an anchor flattening is not neutral: an example where the end moves |
| OneOf.Reorder | pyparsing.py:5518-5533 | the reordering terminates, keeps the symbols up to folding, and no symbol is a prefix of a later one |
| OneOf.FirstMatchIsLongest | pyparsing.py:5547 | the first match over the reordered symbols is longer than every other |
| OneOf.OrderIsIrrelevant | pyparsing.py:5518-5533 | it is as long as the longest given symbol that matches |
| InputLexer.SkipStops | loxi_front_end/parser.py:95 | the passing over of blanks and comments stops at the first place where neither begins; what is passed over is `InputSound.ParsesWhatIsSpelled` |
| InputTokens.IntegerReads | loxi_front_end/parser.py:39-42 | a number in decimal digits, without a leading zero unless it is zero, or in hexadecimal digits after 0x, is read as that number |
| InputTokens.HexReads | loxi_front_end/parser.py:39-42 | so is the canonical hexadecimal form of a number |
| InputTokens.HexIsFinal | loxi_front_end/parser.py:40 | after 0x all hexadecimal digits that follow are the number, and without any the text is refused |
| InputLexer.DecValue | loxi_front_end/parser.py:42 | the decimal form of a number reads back as the number |
| InputLexer.FirstDigitCountsMost | loxi_front_end/parser.py:40-42 | the first digit stands for as many powers of the base as there are digits after it |
| InputRoundTrip.MembersRead | loxi_front_end/parser.py:69 | a text that spells members in any of their forms, each with its semicolon, parses to these |
| InputFiles.ParamListReads | loxi_front_end/parser.py:61-64 | a text that spells a parameter list, with or without a comma at its end, parses to it |
| InputFiles.EntriesRead | loxi_front_end/parser.py:83-85 | a text that spells enum entries, with or without a comma at their end, parses to these |
| InputFiles.DeclsRead | loxi_front_end/parser.py:94 | a text that spells well-formed declarations in any of their forms, and then ends, parses to these |
| InputRoundTrip.TypeReads | loxi_front_end/parser.py:47-51 | a text that spells a type parses to it, whichever alternatives come first |
| InputRoundTrip.MemberReads | loxi_front_end/parser.py:54-66 | a text that spells a member and its semicolon parses to it |
| InputFiles.StructReads | loxi_front_end/parser.py:68-70 | a text that spells a struct parses to it |
| InputFiles.EnumReads | loxi_front_end/parser.py:86-88 | a text that spells an enum parses to it |
| InputFiles.VersionReads | loxi_front_end/parser.py:90-92 | a text that spells a version line parses to it |
| InputFiles.AnyLayoutParses | loxi_front_end/parser.py:97-105 | a text that spells well-formed declarations in any of their forms and in any layout parses to exactly these |
| InputPrint.ParsedIsWellFormed | loxi_front_end/parser.py:97-105 | whatever is parsed is well-formed: no scalar or array type bears the name of a keyword that would have been taken first |
| InputPrint.RoundTrip | loxi_front_end/parser.py:97-105 | printing and parsing gives the same declarations exactly when they are well-formed |
| InputSound.ParsesWhatIsSpelled | loxi_front_end/parser.py:97-105 | a text parses to a list of declarations if and only if the list is well-formed and the text, from its first character to its last, is a list of tokens for it with only blanks and comments between them |
| InputSound.ParsedIsSpelled | loxi_front_end/parser.py:97-105 | every text that parses is such a list of tokens: nothing in it is passed over but blanks and comments |
| InputComments.CommentsAreBlanks | loxi_front_end/parser.py:95 | in front of any text, comments and blanks may all be replaced by single blanks |
| InputComments.LineCommentIsLineEnd | loxi_front_end/parser.py:95 | a line comment may be replaced by its line end |
| InputComments.BlockCommentIsBlank | loxi_front_end/parser.py:95 | a block comment may be replaced by a blank |
| InputComments.CommentedParses | loxi_front_end/parser.py:94-95 | printed declarations with any comments and blanks in place of the blanks parse to the declarations |
| InputComments.CopyrightIsSkipped | loxi_front_end/parser.py:95 | a comment line before a struct does not hide it |
| Frontend.ParsedIsClean | loxi_front_end/frontend.py:46-112 | no class or enum that comes of a parsed text has a separator in a name or type |
| Frontend.TypesReadBack | loxi_ir/ir_offset.py:135-156 | the builder reads every parsed type as the grammar meant it: open lists, single elements, and arrays with the count in the brackets |
| Frontend.StructsKept | loxi_front_end/frontend.py:78-97 | a struct is refused exactly when it has two discriminators, and virtual exactly when it has one; members, parent and the last value of each parameter are kept |
| LegacyUnifier.SignatureInjective | c_gen/loxi_utils_legacy.py:43-50 | equal signature strings mean equal member lists when no type or name contains a separator |
| LegacyUnifier.SignatureClash | c_gen/loxi_utils_legacy.py:43-50 | with a separator in a name they need not |
| LegacyUnifier.FirstOwn | c_gen/build_of_g.py:75-87 | the first version with its own members of the same signature |
| LegacyUnifier.Unifier.AddClass | c_gen/build_of_g.py:58-120 | the whole new state: a shared version, or its own members with types and names merged; it fails on a repeated version or a type conflict |
| LegacyUnifier.Unifier.MergeMembers | c_gen/build_of_g.py:99-120 | types by name and names in order of first appearance, padding left out |
| LegacyUnifier.NamesListed | c_gen/build_of_g.py:99-120 | the names listed are those before and those of all members that do not begin with `pad` |
| LegacyUnifier.Unifier.UnifyInput | c_gen/build_of_g.py:281-296 | after all classes of all versions, each list given is on record |
| LegacyUnifier.FieldVerGet | c_gen/c_code_gen.py:908-941 | lookups give, for every version, offset and type of the first member of that name in the version's own list, the type as the table of mixed types has it, and nothing when there is none; sharing is not noticed |
| LegacyUnifier.SharingUnnoticed | c_gen/c_code_gen.py:922-926 | sharing never chains, its targets own their members, and these have the same signature |
| LegacyInput.BuiltIsClean | c_gen/build_of_g.py:195-224 | the member lists made of the built classes have no separators in names or types when the input has none |
| LegacyInput.AllButPadding | c_gen/build_of_g.py:195-224 | every member but padding is listed, in order, with its name and its offset, -1 when that is not known |
| LegacyInput.TypesOfLists | c_gen/loxi_utils_legacy.py:279-295 | a list of `of_x_t` has the type `of_list_x_t`, and an enum its wire type |
| LegacyInput.SharingNeverNoticed | c_gen/build_of_g.py:76-88 | for parsed inputs a version that shares another's members has the very same list, offsets included |
| AccessorSwitch.GenSwitch | c_gen/c_code_gen.py:1376-1404 | run under the fall-through rules of C, the switch assigns to every version in the map its own offset, and every other version reaches the default |
| AccessorSwitch.ServedIsAssigned | c_gen/c_code_gen.py:1377-1404 | a version whose label reaches a body leaves the switch with that body |
| AccessorSwitch.OthersFail | c_gen/c_code_gen.py:1401-1404 | a version without a label reaches the default |
| AccessorSwitch.BodyAdded | c_gen/c_code_gen.py:1396-1400 | one body serves all versions that wait for it |
| AccessorSwitch.OwnLengthsExactly | c_gen/c_code_gen.py:1387-1400 | every version gets the length expression generated for it if and only if the versions that share a body agree on it |
| AccessorSwitch.FixedApart | c_gen/c_code_gen.py:1155-1161 | two versions of equal base length that differ in being fixed share a body, and one of them gets the length of the other |
| BlockArranger.Template.ParseBlock | tenjin.py:880-928 | the lines of a block, joined at its depth, are what the one-pass form emits up to its end; errors are the same |
| BlockArranger.Template.ParseChildren | tenjin.py:908-923 | a block with its continuations, to its end |
| BlockArranger.Template.ParseLines | tenjin.py:868-878 | the parsed blocks join to the output of the one-pass form, for every list of lines; an unclosed or mismatched block is an error |
| BlockArranger.Template.JoinBlock | tenjin.py:930-938 | the buffer grows by the lines of the blocks at their depth |
| BlockArranger.Template.ArrangeIndent | tenjin.py:940-944 | the buffer becomes the output of the one-pass form, or stays on an error |
| BlockArranger.EachLineOnce | tenjin.py:930-938 | each line is emitted once, in order, changed in leading blanks only, unless a stray end or continuation stops the output |
| BlockArranger.BlanksByDepth | tenjin.py:930-938 | every line that is put out has the indentation width in blanks for each block open there: those started before it less those ended up to it, and one less where it continues a block; blank lines stay |
| BlockArranger.NestedExample | tenjin.py:930-938 | the line in two blocks gets eight blanks at four a level |
| BlockArranger.LineKinds | tenjin.py:833-835 | the words and the colon that make a line start, continue or end a block |
| BlockArranger.EndWordsKnown | tenjin.py:834-835 | the end word of a start word is listed if and only if that is not `try:` |
| BlockArranger.TryClosedByEndOnly | tenjin.py:908-923 | in a block of `try:` only `#end` closes it, and `#endtry` is an error |

## Left out

- I/O: reading and writing files, the command line, logging, exits and the rendering of templates. A failure is a result value.
- The tables of constants, mixed types and base lengths (`loxi_ir/ir_offset.py:23-133`) are parameters: the theorems hold for any tables.
- Python's `int` accepts underscores, signs and blanks in array counts; here a count is decimal digits or a named constant.
- `RedefinedException` and the building of enums (`loxi_ir/ir.py:355-385`): declarations come as a dictionary by name.
- IrBuilder.Builder.BuildIdClass: where the code would replace an id class by another one of the same name, the model stops with an error that names two classes with one id name; where the code would recurse for ever along a cyclic superclass chain, it stops with that cycle.
- IrIds.HierarchyMirrors: speaks of classes named with the prefix of their root, since other names do not map injectively, whose kept members contain no class, in a build where no declaration took the place of an id class.
- IrVisits.PlainInEveryOrder: speaks of inputs whose roots have no superclass, whose classes below a root have its prefix, and in which a declaration named like an id class mentions no class and is no member's type, as `of_action_id` does; and in which a build completes whichever class is visited first.
- IrTheorems.CompletedIsAcyclic: excepts cycles through a declaration that an id class hides, which the code never visits.
- The unification of enums (`loxi_ir/unified.py:88-121`), which merges entries and parameters like those of classes.
- The OpenFlow 1.1 conversion: its wildcard branch cannot be reached after the exact-mask check (`c_gen/c_match.py:432-439`).
- OxmList.FromList: entries are values, not bytes; allocation failures are not modelled, and repeated keys are excluded from the meaning of a list.
- OrderedSets.OrderedSet.constructor: the operators inherited from `MutableSet` are not modelled but for the union with the elements given.
- Unified.UnifiedClassSpec.MergeParams: parameters are a map without order, so of several that differ any one may be reported.
- Packrat.Parser.ParseCache: failures carry their place and whether they are fatal, not their text. A cached exception is rebuilt from its arguments, so its message can differ from the uncached one.
- The input grammar is written as functions with the alternatives and error stops of its combinators, not as elements of `ParserCore`; the places and texts of its errors are left out.
- Packrat.Parser.ParseString: result names, grouping, look-ahead, ignorables, `stopOn`, tab expansion and `parseAll` are not modelled; a Word has no length limits; grammars have no left recursion and repeat only what consumes.
- Streamline.InlineKeeps: for grammars with one whitespace setting, without actions and error stops. When a whole pass moves some end is said step by step, by the exact condition of each inlining.
- OneOf.Reorder: keywords are not reordered; the regular expression built from the symbols is taken to mean first match.
- InputFiles.DeclsRead: places and texts of errors are not modelled. Array and list types keep their parts, which the front end joins to one string.
- LegacyUnifier.Unifier.UnifyInput: list types, base lengths, special offsets, object ids and `memid` are not modelled.
- AccessorSwitch.GenSwitch: offsets and length expressions are values; the text of the macros is not modelled.
- The rest of the emitted C, Java and documentation text.
- BlockArranger.Template.ParseLines: line and column numbers are left out of errors, and white space is that of ASCII. After an error the nesting depth stays raised, so the contract assumes a template whose depth is not above zero.

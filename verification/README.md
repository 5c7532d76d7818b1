# idadwarf type resolution, modelled in Dafny

idadwarf is a plugin for the IDA disassembler. It reads the DWARF debugging
information of an ELF file with libdwarf and rebuilds the program's types in
IDA's database. This project models the core of that work.

- **Walking the DIEs.** `do_dies_traversal` walks each compile unit's tree of
  debugging information entries (DIEs).
- **Visiting a DIE.** `try_visit_die`/`visit_die` hand each DIE to the handler
  for its tag:
  - enumerations, base types, unspecified types;
  - `const`/`volatile`/pointer modifiers, typedefs, arrays, structures.
- **Resolving references.** A handler that refers to another type first visits
  the DIE it refers to.
- **The resolution cache.** Every outcome is recorded in a per-DIE cache whose
  entries say "USELESS" or "TYPE with this ordinal".
- **Accessing DIEs.** The access layer (`DieHolder`, `DieChildIterator`) turns
  libdwarf answers into values or `DieException`s.
- **Reusing types.** Types are reused or created under a fresh name by:
  - the naming loop of `set_simple_die_type`;
  - `add_dup_enum` and `add_dup_struc`;
  - the fingerprint comparisons `EnumCmp` and `StrucCmp`;
  - `get_equivalent_typedef_ordinal`.

What libdwarf would answer is given as data:
- `Dwarf.Section` maps each DIE offset to a `DieRecord`.
- A `DieRecord` holds the DIE's tag, name, attributes, compile-unit offset and
  child and sibling links.
- An attribute records what each libdwarf call on it returns. `None` stands
  for a `DW_DLV_ERROR` or `DW_DLV_NO_ENTRY`.
- A link is a DIE, no DIE, or a read error.

A thrown `DieException` is an `Err` result, or a `thrown` flag on a handler's
outcome.

IDA's own databases are values:
- the local type library: named, numbered type strings (`TypeLibrary`);
- the enums and structs, with an entity's id being its position and `BADNODE`
  being `None` (`HostDb`).

Host calls whose behaviour is not visible in the source are fields of
`HostDb.Host`, and the model is parameterised by them: `get_enum_type_ordinal`,
a new struct's ordinal, `build_array_type`, `append_name`, `get_type_size0`,
`get_typedef_name` and `DieCache::get_type_offset`.

The resolver (`Engine`) is a set of mutually recursive pure functions over a
`State` (cache, type library, enums, structs). The source's recursion
(visit → handler → visit of the referent) is bounded by a `fuel` argument.
Running out of fuel counts as a thrown `DieException`. The cache and the
DIE handle are classes updated in place (`DieCache.ResolutionCache`,
`DieHolders.DieHolder`). So are the two fingerprints
(`Fingerprint.EnumCmp`, `Fingerprint.StrucCmp`). The loops of
`set_simple_die_type`, `add_dup_enum`, `add_dup_struc`,
`DieChildIterator::set_current_child` and `do_dies_traversal` are methods
proved equal to the functions that specify them.

There are two generations of code:
- the resolver follows `src/idadwarf.cpp`;
- `add_dup_enum`, `add_dup_struc`, `StrucCmp` and
  `get_equivalent_typedef_ordinal` follow `src/type_utils.cpp`.

`EnumCmp` is the same in both.

The main properties proved:
- **The resolver only ever adds** (`Engine.Grows`). Throughout a visit and a
  whole traversal:
  - the cache is extended;
  - a TYPE entry never changes;
  - no named type of the library changes;
  - no enum or struct is lost or renamed;
  - a consistent library stays consistent.
- **Visits are idempotent.** A DIE already in the cache is left alone, and a
  classifying visit that did not throw always caches its DIE.
- **The traversal's order.** `do_dies_traversal` visits exactly the DIEs
  reachable through readable child and sibling links, in preorder.
- **The naming loop.** `set_simple_die_type` reuses an equal type of the same
  name. Otherwise it settles on the first free name made of the requested
  name followed by underscores, under a fresh ordinal.
- **The dedup loops.** `add_dup_enum`/`add_dup_struc` settle on a name that
  extends the original with underscores, and they reuse an existing entity
  only when its fingerprint matches.
- **The fingerprints.** Their comparisons match exactly when every fingerprint
  entry is presented by a child. A union's comparison ignores member offsets.
- **Each handler's outcome.** The cached type's name and descriptor are
  stated: `T const`, `T *`, `T[N]`, typedefs, `void`.

## Model

| member | source | states |
|---|---|---|
| DieCache.CacheUseless | src/idadwarf.cpp:453-461 | afterwards the DIE has an entry; a DIE that had none is USELESS with ordinal 0 |
| DieCache.CacheType | src/idadwarf.cpp:463-482 | afterwards the DIE has an entry; one that had none or a USELESS one becomes TYPE with the given ordinal and second_pass flag |
| DieCache.GetCache | src/idadwarf.cpp:484-496 | an entry is found exactly when the offset is cached, and it is that entry |
| DieCache.GetCacheType | src/idadwarf.cpp:498-509 | found exactly when the entry exists and is a TYPE, and it is that entry |
| DieCache.WritesNeverDowngrade | src/idadwarf.cpp:453-482 | both writes only extend the cache (no entry lost, no TYPE entry changed) and touch no other offset; cache_useless on a cached DIE and cache_type on a TYPE entry change nothing |
| DieCache.TypeEntryIsFinal | src/idadwarf.cpp:463-509 | once get_cache_type finds a TYPE entry, it finds the same entry in every extension of the cache |
| DieCache.ResolutionCache.constructor | src/idadwarf.cpp:432-435 | the cache netnode starts empty |
| DieCache.ResolutionCache.InCache | src/idadwarf.cpp:447-451 | true exactly when the offset has an entry |
| DieCache.ResolutionCache.MarkUseless | src/idadwarf.cpp:453-461 | the entries become CacheUseless of the old ones, an extension of them |
| DieCache.ResolutionCache.MarkType | src/idadwarf.cpp:463-482 | the entries become CacheType of the old ones, an extension of them |
| DieCache.ResolutionCache.Get | src/idadwarf.cpp:484-496 | answers GetCache on the current entries |
| DieCache.ResolutionCache.GetType | src/idadwarf.cpp:498-509 | answers GetCacheType on the current entries |
| DieHolders.DieHolder.constructor | src/idadwarf.cpp:177-191 | a handle on the given DIE with nothing memoized and no reader call made |
| DieHolders.DieHolder.GetAttr | src/idadwarf.cpp:248-268 | returns the reader's answer; a memoized attribute (NULL included) costs no reader call, any other costs one and is memoized unless the read threw |
| DieHolders.DieHolder.GetOffset | src/idadwarf.cpp:370-382 | returns the DIE's offset; dwarf_dieoffset is called only on the first use |
| DieHolders.DieHolder.GetName | src/idadwarf.cpp:234-246 | returns the DIE's name; the reader is asked again while the memoized name is NULL |
| DieHolders.DieHolder.GetRefFromAttr | src/idadwarf.cpp:270-308 | returns RefFromAttr of the DIE; only the attribute asked for goes through the memo: a memoized one costs no reader call, a new one costs one call and is memoized when the read succeeds; offset and name are untouched |
| DieHolders.DieHolder.GetMemberOffset | src/idadwarf.cpp:310-343 | returns the member offset as written (narrowed to 8 bits); DW_AT_data_member_location goes through the memo as with get_attr, and offset and name are untouched |
| DieHolders.DieHolder.GetAttrSmallVal | src/idadwarf.cpp:345-357 | returns AttrSmallVal of the DIE; the attribute goes through the memo as with get_attr, and offset and name are untouched |
| DieAccess.LookupAttr | src/idadwarf.cpp:248-268 | throws exactly when the reader reports an error; NULL exactly when the DIE lacks the attribute |
| DieAccess.RefFromAttrCases | src/idadwarf.cpp:270-308 | a missing attribute throws; DW_FORM_ref_addr gives the reference itself; ref1..ref_udata give it plus the compile-unit offset modulo 2^64; other forms throw |
| DieAccess.MemberOffsetNarrowed | src/idadwarf.cpp:310-343 | defined exactly for one location description with one DW_OP_plus_uconst, whose operand it returns modulo 256 |
| DieAccess.MemberOffset | src/die_utils.hpp:161 | the full operand, which agrees with the narrowed value modulo 256 |
| DieAccess.MemberOffsetShape | src/idadwarf.cpp:310-343 | a member offset is read exactly when the location is one DW_OP_plus_uconst, and it is that operation's operand |
| DieAccess.NarrowedOffsetCollides | src/idadwarf.cpp:310-343 | as written, a member at byte 256 is reported at byte 0, like the member at byte 0 |
| DieAccess.SmallEncodingValue | src/idadwarf.cpp:82-101 | the unsigned reading (reinterpreted as signed) when it succeeds, else the signed one; throws exactly when both fail |
| DieAccess.AttrSmallVal | src/idadwarf.cpp:345-357 | a missing attribute throws; a present one gives its small encoding value |
| DieAccess.ChildStreamFilters | src/idadwarf.cpp:544-642 | every DIE a DieChildIterator yields is in the section, has the requested tag and comes from the sibling chain |
| DieAccess.ChildStreamTagged | src/idadwarf.cpp:623-642 | every yielded DIE is in the section and carries the requested tag |
| DieAccess.ChildStreamInChain | src/idadwarf.cpp:598-642 | the yielded DIEs form a sub-multiset of the sibling chain |
| DieAccess.ChildStreamComplete | src/idadwarf.cpp:598-642 | when the chain reads without error, every sibling of the requested tag is yielded |
| DieAccess.NextWithTag | src/idadwarf.cpp:623-642 | the loop stops at the first DIE of the tag, which is the stream's first item; it reports the end or the error exactly when the stream is empty |
| HostDb.Uval | src/idadwarf.cpp:1015 | a constant stored as uval_t is below 2^32 and congruent to the value modulo 2^32 (so a negative value wraps); a value already below 2^32 is kept |
| HostDb.FindEnum | src/type_utils.cpp:27 | get_enum finds an enum carrying the name, no earlier enum carries it, and BADNODE comes exactly when none does |
| HostDb.FindConstEnum | src/type_utils.cpp:45-47 | the enum holding a constant of that name, and BADNODE exactly when none does |
| HostDb.FindStruc | src/type_utils.cpp:151 | get_struc_id finds a struct carrying the name, no earlier struct carries it, and BADNODE comes exactly when none does |
| HostDb.AddEnum | src/idadwarf.cpp:1003 | add_enum fails exactly when the name is taken; otherwise it appends the enum with no constants |
| HostDb.AddConst | src/idadwarf.cpp:1015 | the constant is added to the given enum unless the id is BADNODE, the name is NULL, or some enum already has a constant of that name; no other enum changes |
| HostDb.AddStruc | src/idadwarf.cpp:1416 | add_struc fails exactly when the name is taken; otherwise it appends an empty struct |
| HostDb.AddMember | src/idadwarf.cpp:1465-1477 | a named member's offset is recorded in that struct alone unless the name is taken |
| TypeLibrary.NumberedType | src/idadwarf.cpp:1441-1444 | a numbered type found for an ordinal is the named type carrying that ordinal |
| TypeLibrary.GetSimpleType | src/idadwarf.cpp:881-907 | found exactly when a type of that name has that very descriptor, and it is that type's ordinal |
| TypeLibrary.RetryOutcome | src/idadwarf.cpp:909-939 | the naming loop settles on the requested name followed by underscores; every shorter candidate is taken and none past the request holds an equal type; it either reuses an equal type under the final name or inserts the new type there |
| TypeLibrary.RetryKeepsValid | src/idadwarf.cpp:909-939 | the naming loop keeps the library consistent and changes no existing type |
| TypeLibrary.SimpleDieTypeReuses | src/idadwarf.cpp:909-939 | an equal type of the same name is reused, and nothing is inserted |
| TypeLibrary.SimpleDieTypeResult | src/idadwarf.cpp:909-939 | the returned ordinal names a type with the requested descriptor, under the requested name followed by underscores; no existing type changes and the library stays consistent |
| TypeLibrary.SimpleDieTypeKeeps | src/idadwarf.cpp:909-939 | on any library no named type changes or disappears; on a consistent one it stays consistent and the ordinal is positive and carries the descriptor |
| TypeLibrary.DedupConvergence | src/idadwarf.cpp:909-939 | when the first n suffixed names are taken by other types and the next is free, that name is used with a freshly allocated ordinal |
| TypeLibrary.SetSimpleDieType | src/idadwarf.cpp:909-939 | the while(!saved) loop computes SimpleDieType |
| TypeRules.EnumSizeRoundTrip | src/idadwarf.cpp:944-972 | a width of 1, 2, 4, 8 or 16 bytes is kept; any other width becomes 4 bytes |
| TypeRules.CharSignednessLost | src/idadwarf.cpp:1116-1122 | as written, unsigned char and signed char get the same descriptor |
| TypeRules.BaseType | src/idadwarf.cpp:1025-1153 | one descriptor byte; identical to the code as written except for unsigned char |
| TypeRules.BaseTypeRecognized | src/idadwarf.cpp:1036-1153 | exactly boolean, float, signed, unsigned, signed char and unsigned char produce a type |
| TypeRules.IntDescriptorRoundTrip | src/idadwarf.cpp:1085-1115 | a signed or unsigned integer's descriptor decodes back to its signedness and byte size (1 to 16), or to the natural int for other sizes |
| TypeRules.CharSignednessKept | src/idadwarf.cpp:1116-1122 | with the correction, unsigned char decodes as an unsigned 1-byte integer, distinct from signed char |
| TypeRules.ModifiedRoundTrip | src/idadwarf.cpp:1212-1278 | only const, volatile and pointer tags derive a type; "T *" points to T's descriptor; "T const"/"T volatile" carry the qualifier bit and clearing it gives back the referent |
| TypeRules.DecimalRoundTrip | src/idadwarf.cpp:1386-1392 | the decimal text of an array bound is all digits and reads back as the bound |
| TypeRules.ToInt32 | src/idadwarf.cpp:1378 | the int cast lies in 32-bit range and keeps a value that already fits |
| TypeRules.ArrayNameRoundTrip | src/idadwarf.cpp:1384-1392 | an array name reads back to the positive bound, or to 0 for "[]" |
| Fingerprint.EnumeratorsOf | src/type_utils.cpp:74-87 | one candidate per enumerator child the iterator yields |
| Fingerprint.MembersOf | src/type_utils.cpp:183-192 | one candidate per member child the iterator yields |
| Fingerprint.EraseExact | src/type_utils.cpp:115-130 | find/try_erase remove an entry exactly when both the name and the value match, and otherwise leave the fingerprint alone |
| Fingerprint.EnumExactMatch | src/type_utils.cpp:68-93 | children presenting exactly the fingerprint's constants (distinct names) empty it without a throw |
| Fingerprint.EnumWalkSound | src/type_utils.cpp:68-93 | every entry the walk erases was presented by some child, and the walk only removes entries |
| Fingerprint.EnumWrongValueRejected | src/type_utils.cpp:68-93 | a child whose name matches with another value stops the walk and leaves that constant in the fingerprint |
| Fingerprint.EnumExtrasAccepted | src/type_utils.cpp:68-93 | once the fingerprint is empty, further children (even unknown ones) do not change the verdict |
| Fingerprint.EnumMatchExamples | src/type_utils.cpp:68-93 | {A=0,B=1} matches B=1,A=0 and A,B,C; rejects B=2; BADNODE compares false |
| Fingerprint.StrucPrint | src/type_utils.cpp:200-230 | a struct's fingerprint has exactly its named members as keys |
| Fingerprint.StrucWalkLeftover | src/type_utils.cpp:174-198 | what is left after the member walk is the fingerprint minus exactly the pairs the members presented |
| Fingerprint.UnionIgnoresOffsets | src/type_utils.cpp:188 | for a union, member offsets never influence the comparison |
| Fingerprint.StrucEqualGuards | src/type_utils.cpp:179-181 | an empty fingerprint, a struct/union mismatch or BADNODE compares false; a match implies none of these |
| Fingerprint.EnumCmp.constructor | src/type_utils.cpp:10-34 | the fingerprint of the enum found (or BADNODE and no constants) |
| Fingerprint.EnumCmp.Find | src/type_utils.cpp:115-130 | true exactly when the name is present with that value; that entry is erased |
| Fingerprint.EnumCmp.Equal | src/type_utils.cpp:68-93 | the verdict is EnumEqual of the fingerprint and the children; the fingerprint is consumed by the walk |
| Fingerprint.StrucCmp.constructor | src/type_utils.cpp:132-160 | the id, union flag and member fingerprint of the struct found (offsets 0 for a union) |
| Fingerprint.StrucCmp.TryErase | src/type_utils.cpp:232-243 | the entry is erased when name and offset match |
| Fingerprint.StrucCmp.Equal | src/type_utils.cpp:174-198 | the verdict is StrucEqual of the fingerprint and the member children, and m_members is left as the member walk leaves it (unchanged when an empty fingerprint, a struct/union mismatch or BADNODE rejects first) |
| Dedup.DupEnumRetry | src/type_utils.cpp:252-271 | the result keeps the old enums as a prefix; a reused enum matched the DIE's constants; a new one is appended empty with the settled name |
| Dedup.DupEnumRetryName | src/type_utils.cpp:252-271 | the settled name is the candidate followed by underscores, and every shorter such name named an existing enum that compared unequal |
| Dedup.DupEnumOutcome | src/type_utils.cpp:245-275 | add_dup_enum's enum carries the original name followed by underscores and is found under it, every name passed over named an unequal enum; an anonymous enum is simply appended |
| Dedup.AddDupEnum | src/type_utils.cpp:245-275 | the loop computes DupEnum |
| Dedup.AddStrucFor | src/type_utils.cpp:282 | add_struc fails exactly when the name is taken |
| Dedup.DupStrucRetry | src/type_utils.cpp:285-306 | a reused struct matched the DIE's members and keeps its ordinal; a new one is appended with the settled name |
| Dedup.DupStrucRetryName | src/type_utils.cpp:285-306 | the settled name is the candidate followed by underscores, and every shorter such name named an existing struct or union that compared unequal |
| Dedup.AddDupStruc | src/type_utils.cpp:277-309 | the loop computes DupStrucOf |
| Dedup.EquivalentTypedefOrdinal | src/type_utils.cpp:329-417 | a non-zero answer implies that every lookup succeeded (typedef of that name, target struct/union or enum, cached DIE in the section) and that the target compared equal to that DIE, and it is the typedef's own ordinal |
| Dedup.StrucTypedefFound | src/type_utils.cpp:350-375 | when every lookup succeeds and the DIE matches the struct, the typedef's ordinal is returned |
| Dedup.EnumTypedefFound | src/type_utils.cpp:376-400 | the same for an enum target |
| Engine.SaveType | src/idadwarf.cpp:909-939 | only the library changes, the state grows, and the ordinal is positive and carries the descriptor |
| Engine.UselessAt | src/idadwarf.cpp:453-461 | the state grows, the DIE gets an entry, and no other entry changes |
| Engine.TypeAt | src/idadwarf.cpp:463-482 | the state grows, the DIE gets an entry (TYPE unless it was already a TYPE), and no other entry changes |
| Engine.AddUnspecified | src/idadwarf.cpp:1155-1174 | the state grows |
| Engine.Visit | src/idadwarf.cpp:1525-1560 | the state grows; a cached DIE is left alone; a DIE with a classifying tag is cached unless the visit threw; a thrown enum or base type leaves it uncached |
| Engine.TryVisit | src/idadwarf.cpp:1562-1572 | the state grows, whether or not the visit threw |
| Engine.LookRefType | src/idadwarf.cpp:1183-1209 | the state grows |
| Engine.TypedModifier | src/idadwarf.cpp:1212-1278 | the state grows and the modifier DIE is cached |
| Engine.ProcessModifier | src/idadwarf.cpp:1280-1289 | the state grows; a referent that resolves to a cached type gets the modifier cached |
| Engine.TypedTypedef | src/idadwarf.cpp:1291-1323 | the state grows and the typedef DIE is cached |
| Engine.ProcessTypedef | src/idadwarf.cpp:1325-1334 | the state grows; a referent that resolves gets the typedef cached |
| Engine.ProcessArray | src/idadwarf.cpp:1337-1411 | the state grows; the array DIE is cached unless a read threw |
| Engine.TypedArray | src/idadwarf.cpp:1346-1411 | the state grows and the array DIE is cached |
| Engine.NamedArray | src/idadwarf.cpp:1378-1404 | the state grows and the array DIE is cached |
| Engine.AddEnumerators | src/idadwarf.cpp:1006-1019 | the state grows; every enumerator is cached unless the loop threw; no other cache entry changes (the constants it adds: EngineProps.EnumeratorsFrame, EnumeratorsKeep, EnumeratorsAllConst, EnumeratorsValue) |
| Engine.ProcessEnum | src/idadwarf.cpp:974-1023 | the state grows; the enum DIE is cached unless a read threw, and a throw leaves its entry as it was |
| Engine.NewEnum | src/idadwarf.cpp:998-1022 | the same for the branch that adds a new enum (what it adds and caches: EngineProps.NewEnumEntity, NewEnumCached) |
| Engine.ProcessBaseType | src/idadwarf.cpp:1025-1153 | the state grows; the DIE is cached unless a read threw, and a throw changes nothing (what it caches: EngineProps.BaseTypeOutcome) |
| Engine.AddMembers | src/idadwarf.cpp:1422-1485 | the state grows; a second_pass already set stays set |
| Engine.AddTypedMember | src/idadwarf.cpp:1439-1480 | only the structs change |
| Engine.Finish | src/idadwarf.cpp:1511-1522 | the state grows and the structure DIE is cached |
| Engine.ProcessStructure | src/idadwarf.cpp:1492-1523 | the state grows; the structure DIE is cached unless a read threw |
| Engine.CompleteStructure | src/idadwarf.cpp:1413-1490 | the state grows; the structure DIE is cached unless a read threw (with which ordinal and second_pass: EngineProps.StructureSecondPass) |
| EngineProps.SecondVisitNoop | src/idadwarf.cpp:1525-1529 | a second visit of a DIE that a visit classified changes nothing, whatever the remaining depth |
| EngineProps.ResolvedStaysResolved | src/idadwarf.cpp:498-509 | a member whose type resolved stays resolved in every extension of the cache |
| EngineProps.NoSecondPassMeansResolved | src/idadwarf.cpp:1422-1485 | a member walk that ends without a throw and without second_pass leaves every member's type a cached TYPE |
| EngineProps.ResolvedMembersNeedNoSecondPass | src/idadwarf.cpp:1422-1485 | when every member's type is already a cached TYPE, the walk sets no second_pass |
| EngineProps.LookRefTypeVoid | src/idadwarf.cpp:1183-1192 | without DW_AT_type the referent is a "void" type (name "void" plus underscores, descriptor BTF_VOID), nothing throws and the cache is unchanged |
| EngineProps.ModifierOutcome | src/idadwarf.cpp:1212-1278 | a modifier of T caches a TYPE named "T const", "T volatile" or "T *" (plus underscores) with the derived descriptor; other tags give USELESS and leave the library alone |
| EngineProps.TypedefOutcome | src/idadwarf.cpp:1291-1323 | a typedef N of T caches a TYPE named N (plus underscores) with descriptor BTF_TYPEDEF followed by T's encoded name |
| EngineProps.ArrayOutcome | src/idadwarf.cpp:1378-1404 | an array of T caches a TYPE named "T[N]" (plus underscores) with build_array_type's descriptor, or USELESS with the library unchanged when build_array_type fails |
| EngineProps.ArrayWithoutBound | src/idadwarf.cpp:1356-1376 | no subrange, or an unreadable upper bound, gives size 0 and the name "T[]" |
| EngineProps.EnumReused | src/idadwarf.cpp:974-1000 | an enum DIE matching the same-named enum is cached with that enum's ordinal and adds nothing |
| EngineProps.StructureNameTaken | src/idadwarf.cpp:1413-1418 | a complete structure whose name is taken adds no struct and is cached USELESS |
| EngineProps.BaseTypeOutcome | src/idadwarf.cpp:1025-1153 | an unreadable size or encoding throws and changes nothing; an encoding without a host type caches USELESS and leaves the library alone; otherwise the DIE is cached as a TYPE whose descriptor is the encoding's and whose name is the DIE's (plus underscores) |
| EngineProps.NewEnumEntity | src/idadwarf.cpp:998-1004 | a new enum DIE appends one enum with its name and width, or nothing when the name is taken; earlier enums, the library and the structs are untouched |
| EngineProps.NewEnumCached | src/idadwarf.cpp:998-1022 | when the enumerators are read without a throw, the enum DIE is cached as a TYPE with the added enum's ordinal (BADNODE's when nothing was added) |
| EngineProps.EnumeratorsFrame | src/idadwarf.cpp:1006-1019 | the enumerator loop changes only the constants of the enum it fills; every enum keeps its name and width |
| EngineProps.EnumeratorsKeep | src/idadwarf.cpp:1006-1019 | the filled enum keeps its constants and gains only names its enumerator DIEs carry |
| EngineProps.EnumeratorsAllConst | src/idadwarf.cpp:1006-1019 | without a throw, every named enumerator is afterwards a constant of some enum |
| EngineProps.EnumeratorsValue | src/idadwarf.cpp:1013-1015 | without a throw, the first enumerator carrying a name no enum held gives that constant its DW_AT_const_value modulo 2^32 |
| EngineProps.StructureSecondPass | src/idadwarf.cpp:1413-1523 | a complete structure appends a struct with its name and the host's ordinal; it throws exactly when its member walk throws, and it is cached as a TYPE with that ordinal and the walk's second_pass (USELESS for ordinal 0) unless a member visit already classified it |
| EngineProps.SelfTypedefNotCached | src/idadwarf.cpp:1325-1334 | a typedef referring to itself returns from any bounded visit with nothing cached and no throw (a throw only at depth 0) |
| Traversal.PreorderReachable | src/idadwarf.cpp:1595-1636 | the walk's order contains exactly the DIEs reachable through readable child and sibling links |
| Traversal.LinkOrderReachable | src/idadwarf.cpp:1611-1635 | the same for what lies behind one link |
| Traversal.PushedPending | src/idadwarf.cpp:1611-1635 | pushing the sibling and then the child puts the child's subtree before the sibling's in what is pending |
| Traversal.PopStep | src/idadwarf.cpp:1601-1635 | one loop round moves the popped DIE from what is pending to what is visited |
| Traversal.VisitAll | src/idadwarf.cpp:1608 | visiting a list of DIEs in turn only grows the state |
| Traversal.DiesTraversal | src/idadwarf.cpp:1595-1636 | the loop visits the DIEs in preorder of the tree, the state is that of visiting them in turn, and it only grew |

## Left out

- The plugin's entry points, the per-compile-unit loop `process_cus` and
  the frame and variable recovery in `src/frame_retrieval.cpp` are not part of
  this model. `apply_die_type` is not part of it either: it only applies an
  ordinal at an address.
- `do_second_pass` only logs the structures marked second_pass. Logging, the
  `DieException` message text and the release of libdwarf memory have no
  effect on the model's state and are left out.
- Reading a DIE's tag, name and offset is modelled as never failing; reads
  of attributes, references, links and children can fail.
- IDA calls whose bodies are not in the source are parameters of the model
  (`HostDb.Host`): `get_enum_type_ordinal`, a new struct's ordinal,
  `build_array_type`, `append_name`, `get_type_size0`, `get_typedef_name`,
  `DieCache::get_type_offset`.
- HostDb.AddMember: `add_struc_member` is reduced to recording a named
  member's offset. The member's flags, size and type information are not
  modelled, and neither are IDA's placement rules (overlaps, unnamed members).
- HostDb.AddConst: a NULL constant name is treated as "not found" by
  `get_const_by_name` and adds nothing. `add_const` is assumed to refuse a
  constant name that is already used anywhere in the database.
- `ea_t` is taken as unbounded, and `uval_t` as 32 bits (the 32-bit host).
- Engine.Visit: the recursion through referenced DIEs is bounded by `fuel`.
  Exhausting it counts as a thrown `DieException`, which the enclosing
  `try_visit_die` swallows. When the references contain no cycle, a fuel at
  least the depth of the deepest chain of references gives the source's
  behaviour.
- A cycle of references that passes through a named structure is cut as in
  the source: the inner visit finds the name taken and caches the structure
  DIE USELESS (EngineProps.StructureNameTaken). The outer visit then marks
  second_pass (the member's type stays unresolved) and upgrades that entry to
  its TYPE. A throw inside a nested handler may leave entries written during
  that handler in the cache, and the model keeps them as the source does.
- A cycle that passes through no named structure makes the source recurse
  without bound. Examples are an anonymous structure whose member type leads
  back to it, or a typedef whose referent leads back to the typedef.
  `add_struc(BADADDR, NULL)` always succeeds and the structure is cached only
  after its members (src/idadwarf.cpp:1416, 1511-1522). A typedef is cached
  only after its referent (src/idadwarf.cpp:1325-1334). The model does not
  capture this non-termination: its innermost visit runs out of fuel and
  throws, the throw is swallowed, and the outer levels carry on.
  EngineProps.SelfTypedefNotCached shows a typedef that refers to itself
  returning with nothing cached. C declarations cannot spell such a cycle,
  because an anonymous structure cannot name itself.
- `EnumCmp::equal` reports a match once every constant of the existing enum
  has been found. It does not check that the DIE has no further
  enumerators, and the model follows the code
  (Fingerprint.EnumExtrasAccepted states it).
- The engine reads member offsets at full width (the corrected
  `DieAccess.MemberOffset`), not narrowed to 8 bits as written, and it uses
  the corrected `TypeRules.BaseType` for unsigned char. The code as written
  is modelled beside them (see Findings).

## Findings

| source | as written | input that shows it | evidently intended | confidence | as-written member | corrected member |
|---|---|---|---|---|---|---|
| src/idadwarf.cpp:310-343 | `get_member_offset` returns `Dwarf_Small`, so the `DW_OP_plus_uconst` operand is cut to 8 bits | a member at `DW_OP_plus_uconst 256` is placed at offset 0, on top of the first member | the whole operand, as the `Dwarf_Unsigned` result declared in src/die_utils.hpp:161 gives | high, not executed | DieAccess.MemberOffsetNarrowed, DieAccess.NarrowedOffsetCollides | DieAccess.MemberOffset, DieAccess.MemberOffsetShape |
| src/idadwarf.cpp:1116-1122 | unsigned char appends `BTMT_USIGNED`, then falls through and ORs in `BTMT_CHAR`, which covers the signedness bits | `DW_ATE_unsigned_char` with byte size 1 gives the same descriptor as `DW_ATE_signed_char` | an unsigned 1-byte integer, distinct from signed char | medium, not executed | TypeRules.BaseTypeAsWritten, TypeRules.CharSignednessLost | TypeRules.BaseType, TypeRules.CharSignednessKept |

/**
 * The resolver: visit_die dispatches a DIE to the handler for its tag,
 * each handler may first visit the DIE its DW_AT_type refers to (through
 * try_visit_die, which swallows a DieException), and every classification
 * ends up in the resolution cache.
 */
module Engine {
  import opened Wrappers
  import opened Dwarf
  import opened DieAccess
  import opened DieCache
  import opened TypeLibrary
  import opened TypeRules
  import opened HostDb
  import opened Fingerprint

  /** What the resolver reads and writes: the cache, the type library and the enum/struct database. */
  datatype State = State(cache: Cache, lib: TypeLib, enums: seq<EnumEntity>, strucs: seq<StrucEntity>)

  /** The state after a handler, and whether a DieException escaped it (the state is as of the throw). */
  datatype Step = Step(st: State, thrown: bool)

  /** look_ref_type's outcome: the state, a throw, and the referent's ordinal when it is a cached type. */
  datatype Looked = Looked(st: State, thrown: bool, ordinal: Option<nat>)

  /** The member loop's outcome: the state, a throw, and whether a member's type was unresolved. */
  datatype Walk = Walk(st: State, thrown: bool, secondPass: bool)

  /** No enum or struct disappears or changes its name, kind or ordinal. */
  ghost predicate EntitiesKept(s: State, s': State) {
    && |s.enums| <= |s'.enums|
    && (forall i :: 0 <= i < |s.enums| ==> s'.enums[i].name == s.enums[i].name)
    && |s.strucs| <= |s'.strucs|
    && (forall i :: 0 <= i < |s.strucs| ==>
          s'.strucs[i].name == s.strucs[i].name && s'.strucs[i].isUnion == s.strucs[i].isUnion &&
          s'.strucs[i].ordinal == s.strucs[i].ordinal)
  }

  /**
   * The resolver only ever adds: the cache is extended without downgrade,
   * no named type changes, and no entity is lost; a consistent type library
   * stays consistent.
   */
  ghost predicate Grows(s: State, s': State) {
    && Extends(s.cache, s'.cache)
    && LibGrows(s.lib, s'.lib)
    && (Valid(s.lib) ==> Valid(s'.lib))
    && EntitiesKept(s, s')
  }

  lemma GrowsTransitive(a: State, b: State, c: State)
    requires Grows(a, b) && Grows(b, c)
    ensures Grows(a, c)
  {
    ExtendsTransitive(a.cache, b.cache, c.cache);
    LibGrowsTransitive(a.lib, b.lib, c.lib);
  }

  /** set_simple_die_type on the state's library. */
  function SaveType(st: State, name: Option<string>, d: Descr): (r: (State, nat))
    ensures Grows(st, r.0)
    ensures r.0 == st.(lib := r.0.lib)
    ensures Valid(st.lib) ==> r.1 > 0 && NumberedType(r.0.lib, r.1).Some? && NumberedType(r.0.lib, r.1).value.1 == d
  {
    SimpleDieTypeKeeps(st.lib, name, d);
    var s := SimpleDieType(st.lib, name, d);
    (st.(lib := s.lib), s.ordinal)
  }

  /** cache_useless on the DIE at `off`. */
  function UselessAt(st: State, off: u64): (r: State)
    ensures Grows(st, r) && off in r.cache
    ensures forall o :: o != off ==> GetCache(r.cache, o) == GetCache(st.cache, o)
  {
    WritesNeverDowngrade(st.cache, off, 0, false);
    st.(cache := CacheUseless(st.cache, off))
  }

  /** cache_type on the DIE at `off`. */
  function TypeAt(st: State, off: u64, ordinal: nat, secondPass: bool): (r: State)
    ensures Grows(st, r) && off in r.cache
    ensures forall o :: o != off ==> GetCache(r.cache, o) == GetCache(st.cache, o)
    ensures off !in st.cache || st.cache[off].kind == Useless ==>
      r.cache[off] == CacheEntry(Type, ordinal, secondPass)
  {
    WritesNeverDowngrade(st.cache, off, ordinal, secondPass);
    st.(cache := CacheType(st.cache, off, ordinal, secondPass))
  }

  /** add_unspecified_type: a "void" type. */
  function AddUnspecified(st: State): (r: (State, nat))
    ensures Grows(st, r.0)
  {
    SaveType(st, Some("void"), [BTF_VOID])
  }

  /** The tags whose handler always caches the DIE unless a DieException escapes. */
  function Classifying(): set<nat> {
    {DW_TAG_enumeration_type, DW_TAG_base_type, DW_TAG_array_type, DW_TAG_structure_type}
  }

  /** visit_die: a DIE already in the cache is left alone; otherwise its tag picks the handler. */
  function Visit(h: Host, sec: Section, off: u64, st: State, fuel: nat): (r: Step)
    ensures Grows(st, r.st)
    ensures off in st.cache ==> r == Step(st, false)
    ensures !r.thrown && off in sec && sec[off].tag in Classifying() ==> off in r.st.cache
    ensures r.thrown && off in sec && sec[off].tag in {DW_TAG_enumeration_type, DW_TAG_base_type} ==>
      off !in r.st.cache
    decreases fuel, 1
  {
    if off in st.cache then Step(st, false)
    else if fuel == 0 || off !in sec then Step(st, true)
    else
      var tag := sec[off].tag;
      if tag == DW_TAG_enumeration_type then ProcessEnum(h, sec, off, st)
      else if tag == DW_TAG_base_type then ProcessBaseType(sec, off, st)
      else if tag == DW_TAG_unspecified_type then Step(AddUnspecified(st).0, false)
      else if tag == DW_TAG_volatile_type || tag == DW_TAG_const_type || tag == DW_TAG_pointer_type then
        ProcessModifier(h, sec, off, st, fuel - 1)
      else if tag == DW_TAG_typedef then ProcessTypedef(h, sec, off, st, fuel - 1)
      else if tag == DW_TAG_array_type then ProcessArray(h, sec, off, st, fuel - 1)
      else if tag == DW_TAG_structure_type then ProcessStructure(h, sec, off, st, fuel - 1)
      else Step(st, false)
  }

  /** try_visit_die: the visit's state, whether or not it threw. */
  function TryVisit(h: Host, sec: Section, off: u64, st: State, fuel: nat): (r: State)
    ensures Grows(st, r)
    decreases fuel, 2
  {
    Visit(h, sec, off, st, fuel).st
  }

  /**
   * look_ref_type: without DW_AT_type the referent is "void"; otherwise the
   * referenced DIE is fetched (a throw when it is not in the section),
   * visited, and its cached type ordinal read.
   */
  function LookRefType(h: Host, sec: Section, rec: DieRecord, st: State, fuel: nat): (r: Looked)
    ensures Grows(st, r.st)
    decreases fuel, 3
  {
    match LookupAttr(rec, DW_AT_type)
    case Err => Looked(st, true, None)
    case Ok(None) =>
      var (st1, ordinal) := AddUnspecified(st);
      Looked(st1, false, Some(ordinal))
    case Ok(Some(_)) =>
      match RefFromAttr(rec, DW_AT_type)
      case Err => Looked(st, true, None)
      case Ok(ref) =>
        if ref !in sec then Looked(st, true, None)
        else
          var st1 := TryVisit(h, sec, ref, st, fuel);
          match GetCacheType(st1.cache, ref)
          case Some(e) => Looked(st1, false, Some(e.ordinal))
          case None => Looked(st1, false, None)
  }

  /** process_typed_modifier: derive "T const", "T volatile" or "T *" from the referent's ordinal. */
  function TypedModifier(tag: nat, st: State, off: u64, ordinal: nat): (r: State)
    ensures Grows(st, r) && off in r.cache
  {
    match NumberedType(st.lib, ordinal)
    case None => UselessAt(st, off)
    case Some((typeName, d)) =>
      match Modified(tag, typeName, d)
      case None => UselessAt(st, off)
      case Some((name, d')) =>
        var (st1, o) := SaveType(st, Some(name), d');
        TypeAt(st1, off, o, false)
  }

  /** process_modifier: nothing is cached when the referent is not a cached type. */
  function ProcessModifier(h: Host, sec: Section, off: u64, st: State, fuel: nat): (r: Step)
    requires off in sec
    ensures Grows(st, r.st)
    ensures !r.thrown && LookRefType(h, sec, sec[off], st, fuel).ordinal.Some? ==> off in r.st.cache
    decreases fuel, 4
  {
    var l := LookRefType(h, sec, sec[off], st, fuel);
    if l.thrown then Step(l.st, true)
    else if l.ordinal.None? then Step(l.st, false)
    else Step(TypedModifier(sec[off].tag, l.st, off, l.ordinal.value), false)
  }

  /** The descriptor of a typedef to the type named `typeName`. */
  function TypedefDescr(h: Host, typeName: string): Descr
  {
    [BTF_TYPEDEF] + h.appendName(typeName)
  }

  /** process_typed_typedef */
  function TypedTypedef(h: Host, name: Option<string>, st: State, off: u64, ordinal: nat): (r: State)
    ensures Grows(st, r) && off in r.cache
  {
    match NumberedType(st.lib, ordinal)
    case None => UselessAt(st, off)
    case Some((typeName, _)) =>
      var (st1, o) := SaveType(st, name, TypedefDescr(h, typeName));
      TypeAt(st1, off, o, false)
  }

  /** process_typedef */
  function ProcessTypedef(h: Host, sec: Section, off: u64, st: State, fuel: nat): (r: Step)
    requires off in sec
    ensures Grows(st, r.st)
    ensures !r.thrown && LookRefType(h, sec, sec[off], st, fuel).ordinal.Some? ==> off in r.st.cache
    decreases fuel, 4
  {
    var l := LookRefType(h, sec, sec[off], st, fuel);
    if l.thrown then Step(l.st, true)
    else if l.ordinal.None? then Step(l.st, false)
    else Step(TypedTypedef(h, sec[off].name, l.st, off, l.ordinal.value), false)
  }

  /** The first subrange's DW_AT_upper_bound; an unreadable bound counts as 0. */
  function UpperBound(rec: DieRecord): i64
  {
    match AttrSmallVal(rec, DW_AT_upper_bound)
    case Ok(v) => v
    case Err => 0
  }

  /** The element count process_array uses: the first subrange's upper bound, 0 without one. */
  function ArraySize(sec: Section, off: u64): i64
    requires off in sec
  {
    var sub := ChildStream(sec, sec[off].child, DW_TAG_subrange_type);
    ChildStreamFilters(sec, sec[off].child, DW_TAG_subrange_type);
    if sub.items == [] then 0 else UpperBound(sec[sub.items[0]])
  }

  /**
   * process_array: the element type must resolve to a cached type; the
   * array type is built from it and named "Elem[N]".
   */
  function ProcessArray(h: Host, sec: Section, off: u64, st: State, fuel: nat): (r: Step)
    requires off in sec
    ensures Grows(st, r.st)
    ensures !r.thrown ==> off in r.st.cache
    decreases fuel, 4
  {
    match RefFromAttr(sec[off], DW_AT_type)
    case Err => Step(st, true)
    case Ok(ref) =>
      if ref !in sec then Step(st, true)
      else
        var st1 := TryVisit(h, sec, ref, st, fuel);
        var r := TypedArray(h, sec, off, st1, GetCacheType(st1.cache, ref));
        GrowsTransitive(st, st1, r.st);
        r
  }

  /** The rest of process_array, once the element DIE has been visited. */
  function TypedArray(h: Host, sec: Section, off: u64, st: State, elem: Option<CacheEntry>): (r: Step)
    requires off in sec
    ensures Grows(st, r.st)
    ensures !r.thrown ==> off in r.st.cache
  {
    if elem.None? then Step(UselessAt(st, off), false)
    else
      match NumberedType(st.lib, elem.value.ordinal)
      case None => Step(UselessAt(st, off), false)
      case Some((typeName, d)) =>
        var sub := ChildStream(sec, sec[off].child, DW_TAG_subrange_type);
        if sub.items == [] && sub.fails then Step(st, true)
        else
          Step(NamedArray(h, st, off, typeName, d, ArraySize(sec, off)), false)
  }

  /** build_array_type and the "Elem[N]" name, once the element type and the count are known. */
  function NamedArray(h: Host, st: State, off: u64, typeName: string, d: Descr, size: i64): (r: State)
    ensures Grows(st, r) && off in r.cache
  {
    match h.buildArray(d, ToInt32(size))
    case None => UselessAt(st, off)
    case Some(d') =>
      var (st1, o) := SaveType(st, Some(ArrayName(typeName, size)), d');
      var st2 := TypeAt(st1, off, o, false);
      GrowsTransitive(st, st1, st2);
      st2
  }

  /** process_enum's loop over the enumerators of a newly added enum. */
  function AddEnumerators(sec: Section, items: seq<u64>, fails: bool, id: Option<nat>, st: State): (r: Step)
    requires forall i :: 0 <= i < |items| ==> items[i] in sec
    ensures Grows(st, r.st)
    ensures forall i :: 0 <= i < |items| && !r.thrown ==> items[i] in r.st.cache
    ensures forall o :: o !in items ==> GetCache(r.st.cache, o) == GetCache(st.cache, o)
    decreases |items|
  {
    if items == [] then Step(st, fails)
    else
      var rec := sec[items[0]];
      match AttrSmallVal(rec, DW_AT_const_value)
      case Err => Step(st, true)
      case Ok(v) =>
        var st1 := UselessAt(st.(enums := AddConst(st.enums, id, rec.name, Uval(v))), items[0]);
        var r := AddEnumerators(sec, items[1..], fails, id, st1);
        assert forall i :: 1 <= i < |items| ==> items[i] == items[1..][i - 1];
        GrowsTransitive(st, st1, r.st);
        r
  }

  /**
   * The enum EnumCmp compares against: the one with the DIE's name, or for
   * an anonymous enum the one holding its first enumerator's name. Creating
   * the enumerator iterator may throw.
   */
  function EnumCmpId(enums: seq<EnumEntity>, name: Option<string>, cands: Cands<i64>): Result<Option<nat>>
  {
    if name.Some? then Ok(FindEnum(enums, name.value))
    else if cands.items == [] then (if cands.fails then Err else Ok(None))
    else if cands.items[0].name.None? then Ok(None)
    else Ok(FindConstEnum(enums, cands.items[0].name.value))
  }

  /**
   * process_enum: an existing enum found by name (or, for an anonymous
   * enum, by its first enumerator) is reused when its constants match;
   * otherwise a new enum is added with every enumerator.
   */
  function ProcessEnum(h: Host, sec: Section, off: u64, st: State): (r: Step)
    requires off in sec
    ensures Grows(st, r.st)
    ensures !r.thrown ==> off in r.st.cache
    ensures r.thrown && sec[off].tag != DW_TAG_enumerator ==> GetCache(r.st.cache, off) == GetCache(st.cache, off)
  {
    var cands := EnumeratorsOf(sec, sec[off].child);
    var cmpId := EnumCmpId(st.enums, sec[off].name, cands);
    if cmpId.Err? then Step(st, true)
    else
      var id := cmpId.value;
      var eq := EnumEqual(id, EnumPrint(st.enums, id), cands);
      if eq.Err? then Step(st, true)
      else if eq.value then Step(TypeAt(st, off, h.enumOrdinal(id), false), false)
      else
        match sec[off].byteSize
        case None => Step(st, true)
        case Some(size) => NewEnum(h, sec, off, st, size)
  }

  /** The part of process_enum that adds a new enum and its constants. */
  function NewEnum(h: Host, sec: Section, off: u64, st: State, size: u64): (r: Step)
    requires off in sec
    ensures Grows(st, r.st)
    ensures !r.thrown ==> off in r.st.cache
    ensures r.thrown && sec[off].tag != DW_TAG_enumerator ==> GetCache(r.st.cache, off) == GetCache(st.cache, off)
  {
    var added := AddEnum(st.enums, sec[off].name, EnumSize(size));
    var st1 := if added.Some? then st.(enums := added.value.0) else st;
    var newId := if added.Some? then Some(added.value.1) else None;
    var s := ChildStream(sec, sec[off].child, DW_TAG_enumerator);
    ChildStreamFilters(sec, sec[off].child, DW_TAG_enumerator);
    var w := AddEnumerators(sec, s.items, s.fails, newId, st1);
    GrowsTransitive(st, st1, w.st);
    if w.thrown then Step(w.st, true)
    else
      var st2 := TypeAt(w.st, off, h.enumOrdinal(newId), false);
      GrowsTransitive(st, w.st, st2);
      Step(st2, false)
  }

  /** process_base_type: byte size and encoding must be readable. */
  function ProcessBaseType(sec: Section, off: u64, st: State): (r: Step)
    requires off in sec
    ensures Grows(st, r.st)
    ensures !r.thrown ==> off in r.st.cache
    ensures r.thrown ==> r.st == st
  {
    var rec := sec[off];
    match rec.byteSize
    case None => Step(st, true)
    case Some(size) =>
      match AttrSmallVal(rec, DW_AT_encoding)
      case Err => Step(st, true)
      case Ok(encoding) =>
        match BaseType(encoding as int, size)
        case None => Step(UselessAt(st, off), false)
        case Some(d) =>
          var (st1, o) := SaveType(st, rec.name, d);
          Step(TypeAt(st1, off, o, false), false)
  }

  /**
   * process_complete_structure's member loop: each member's name, type
   * reference and offset are read, its type is visited, and a member whose
   * type is not a cached type sets second_pass.
   */
  function AddMembers(h: Host, sec: Section, items: seq<u64>, fails: bool, id: nat,
                      st: State, secondPass: bool, fuel: nat): (r: Walk)
    requires forall i :: 0 <= i < |items| ==> items[i] in sec
    ensures Grows(st, r.st)
    ensures secondPass && !r.thrown ==> r.secondPass
    decreases fuel, 3, |items|
  {
    if items == [] then Walk(st, fails, secondPass)
    else
      var rec := sec[items[0]];
      assert forall i :: 1 <= i < |items| ==> items[i] == items[1..][i - 1];
      match RefFromAttr(rec, DW_AT_type)
      case Err => Walk(st, true, secondPass)
      case Ok(ref) =>
        if ref !in sec then Walk(st, true, secondPass)
        else
          match MemberOffset(rec)
          case Err => Walk(st, true, secondPass)
          case Ok(moffset) =>
            var st1 := TryVisit(h, sec, ref, st, fuel);
            match GetCacheType(st1.cache, ref)
            case None =>
              var r := AddMembers(h, sec, items[1..], fails, id, st1, true, fuel);
              GrowsTransitive(st, st1, r.st);
              r
            case Some(e) =>
              var st2 := AddTypedMember(h, st1, id, rec.name, moffset, e.ordinal);
              var r := AddMembers(h, sec, items[1..], fails, id, st2, secondPass, fuel);
              GrowsTransitive(st, st1, st2);
              GrowsTransitive(st, st2, r.st);
              r
  }

  /**
   * One member whose type resolved: add_struc_member with the type's size
   * (get_type_size0); a type of unknown size adds nothing.
   */
  function AddTypedMember(h: Host, st: State, id: nat, name: Option<string>, moffset: nat, ordinal: nat): (r: State)
    ensures Grows(st, r) && r.cache == st.cache && r.lib == st.lib
  {
    match NumberedType(st.lib, ordinal)
    case Some((_, d)) =>
      if h.typeSize(d).Some? then st.(strucs := AddMember(st.strucs, id, name, moffset)) else st
    case None => st
  }

  /** The end of process_structure: a non-zero ordinal is cached as a type, otherwise USELESS. */
  function Finish(st: State, off: u64, ordinal: nat, secondPass: bool): (r: State)
    ensures Grows(st, r) && off in r.cache
  {
    if ordinal != 0 then TypeAt(st, off, ordinal, secondPass) else UselessAt(st, off)
  }

  /**
   * process_structure: a declaration becomes a void placeholder type;
   * otherwise a new struct is added (no ordinal when its name is taken) and
   * its members are walked.
   */
  function ProcessStructure(h: Host, sec: Section, off: u64, st: State, fuel: nat): (r: Step)
    requires off in sec
    ensures Grows(st, r.st)
    ensures !r.thrown ==> off in r.st.cache
    decreases fuel, 4
  {
    match LookupAttr(sec[off], DW_AT_declaration)
    case Err => Step(st, true)
    case Ok(Some(_)) =>
      var (st1, o) := SaveType(st, sec[off].name, [BTF_VOID]);
      var st2 := Finish(st1, off, o, false);
      GrowsTransitive(st, st1, st2);
      Step(st2, false)
    case Ok(None) =>
      match AddStruc(st.strucs, sec[off].name, false, h.strucOrdinal(|st.strucs|))
      case None => Step(Finish(st, off, 0, false), false)
      case Some((strucs1, id)) =>
        var st1 := st.(strucs := strucs1);
        var r := CompleteStructure(h, sec, off, id, st1, fuel);
        GrowsTransitive(st, st1, r.st);
        r
  }

  /** process_complete_structure after add_struc succeeded, and the caching that follows it. */
  function CompleteStructure(h: Host, sec: Section, off: u64, id: nat, st: State, fuel: nat): (r: Step)
    requires off in sec
    ensures Grows(st, r.st)
    ensures !r.thrown ==> off in r.st.cache
    decreases fuel, 3
  {
    var ms := ChildStream(sec, sec[off].child, DW_TAG_member);
    ChildStreamFilters(sec, sec[off].child, DW_TAG_member);
    var w := AddMembers(h, sec, ms.items, ms.fails, id, st, false, fuel);
    if w.thrown then Step(w.st, true)
    else
      var st2 := Finish(w.st, off, h.strucOrdinal(id), w.secondPass);
      GrowsTransitive(st, w.st, st2);
      Step(st2, false)
  }
}

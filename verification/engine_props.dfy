/**
 * What the resolver guarantees about one visit: idempotence, the
 * second_pass flag of a structure, and the types each handler derives.
 */
module EngineProps {
  import opened Wrappers
  import opened Dwarf
  import opened DieAccess
  import opened DieCache
  import opened TypeLibrary
  import opened TypeRules
  import opened HostDb
  import opened Fingerprint
  import opened Engine

  /**
   * Idempotence: once a visit has classified a DIE, visiting it again
   * changes nothing, whatever the remaining depth.
   */
  lemma SecondVisitNoop(h: Host, sec: Section, off: u64, st: State, fuel: nat, fuel': nat)
    requires off in sec && sec[off].tag in Classifying()
    requires !Visit(h, sec, off, st, fuel).thrown
    ensures var r := Visit(h, sec, off, st, fuel);
      Visit(h, sec, off, r.st, fuel') == Step(r.st, false)
  {
  }

  /** The member DIE at `o` names its type, and that type is a cached type in `c`. */
  ghost predicate TypeResolved(sec: Section, c: Cache, o: u64)
    requires o in sec
  {
    RefFromAttr(sec[o], DW_AT_type).Ok? && GetCacheType(c, RefFromAttr(sec[o], DW_AT_type).value).Some?
  }

  lemma ResolvedStaysResolved(sec: Section, c: Cache, c': Cache, o: u64)
    requires o in sec && Extends(c, c') && TypeResolved(sec, c, o)
    ensures TypeResolved(sec, c', o)
  {
    TypeEntryIsFinal(c, c', RefFromAttr(sec[o], DW_AT_type).value);
  }

  /**
   * A walk over a structure's members that sets no second_pass leaves every
   * member's type resolved to a cached type.
   */
  lemma {:induction false} NoSecondPassMeansResolved(h: Host, sec: Section, items: seq<u64>, fails: bool, id: nat,
                                                   st: State, secondPass: bool, fuel: nat)
    requires forall i :: 0 <= i < |items| ==> items[i] in sec
    ensures var r := AddMembers(h, sec, items, fails, id, st, secondPass, fuel);
      !r.thrown && !r.secondPass ==> forall i :: 0 <= i < |items| ==> TypeResolved(sec, r.st.cache, items[i])
    decreases |items|
  {
    if items != [] {
      var rec := sec[items[0]];
      var rest := items[1..];
      var r := AddMembers(h, sec, items, fails, id, st, secondPass, fuel);
      if RefFromAttr(rec, DW_AT_type).Ok? && RefFromAttr(rec, DW_AT_type).value in sec && MemberOffset(rec).Ok? {
        var ref := RefFromAttr(rec, DW_AT_type).value;
        var st1 := TryVisit(h, sec, ref, st, fuel);
        if GetCacheType(st1.cache, ref).None? {
          assert r == AddMembers(h, sec, rest, fails, id, st1, true, fuel);
        } else {
          var st2 := AddTypedMember(h, st1, id, rec.name, MemberOffset(rec).value, GetCacheType(st1.cache, ref).value.ordinal);
          assert r == AddMembers(h, sec, rest, fails, id, st2, secondPass, fuel);
          NoSecondPassMeansResolved(h, sec, rest, fails, id, st2, secondPass, fuel);
          if !r.thrown && !r.secondPass {
            ResolvedStaysResolved(sec, st1.cache, r.st.cache, items[0]);
            forall i | 0 <= i < |items|
              ensures TypeResolved(sec, r.st.cache, items[i])
            {
              if i > 0 {
                assert items[i] == rest[i - 1];
              }
            }
          }
        }
      }
    }
  }

  /**
   * Conversely, when every member's type is already a cached type, the walk
   * visits nothing new and sets no second_pass.
   */
  lemma {:induction false} ResolvedMembersNeedNoSecondPass(h: Host, sec: Section, items: seq<u64>, fails: bool, id: nat,
                                                          st: State, fuel: nat)
    requires forall i :: 0 <= i < |items| ==> items[i] in sec
    requires forall i :: 0 <= i < |items| ==> TypeResolved(sec, st.cache, items[i])
    ensures !AddMembers(h, sec, items, fails, id, st, false, fuel).secondPass
    decreases |items|
  {
    if items != [] {
      var rec := sec[items[0]];
      var rest := items[1..];
      var ref := RefFromAttr(rec, DW_AT_type).value;
      if ref in sec && MemberOffset(rec).Ok? {
        assert TryVisit(h, sec, ref, st, fuel) == st;
        var st2 := AddTypedMember(h, st, id, rec.name, MemberOffset(rec).value, GetCacheType(st.cache, ref).value.ordinal);
        assert AddMembers(h, sec, items, fails, id, st, false, fuel) == AddMembers(h, sec, rest, fails, id, st2, false, fuel);
        forall i | 0 <= i < |rest|
          ensures TypeResolved(sec, st2.cache, rest[i])
        {
          assert rest[i] == items[i + 1];
        }
        ResolvedMembersNeedNoSecondPass(h, sec, rest, fails, id, st2, fuel);
      }
    }
  }

  /** look_ref_type without DW_AT_type: the referent is a "void" type (possibly under a suffixed name). */
  lemma LookRefTypeVoid(h: Host, sec: Section, rec: DieRecord, st: State, fuel: nat)
    requires Valid(st.lib)
    requires LookupAttr(rec, DW_AT_type) == Ok(None)
    ensures var l := LookRefType(h, sec, rec, st, fuel);
      && !l.thrown && l.ordinal.Some? && l.st.cache == st.cache
      && NumberedType(l.st.lib, l.ordinal.value).Some?
      && var (name, d) := NumberedType(l.st.lib, l.ordinal.value).value;
      && d == [BTF_VOID] && |name| >= 4 && name[..4] == "void" && UnderscoresFrom(name, 4)
  {
    SimpleDieTypeResult(st.lib, Some("void"), [BTF_VOID]);
  }

  /**
   * A modifier of a referent named T with descriptor d caches a type whose
   * name is "T const", "T volatile" or "T *" (possibly followed by
   * underscores) and whose descriptor is the derived one; any other tag
   * leaves the DIE USELESS and the library untouched.
   */
  lemma ModifierOutcome(tag: nat, st: State, off: u64, ordinal: nat)
    requires Valid(st.lib) && off !in st.cache
    requires NumberedType(st.lib, ordinal).Some?
    ensures var r := TypedModifier(tag, st, off, ordinal);
      var (t, d) := NumberedType(st.lib, ordinal).value;
      if tag in {DW_TAG_const_type, DW_TAG_volatile_type, DW_TAG_pointer_type} then
        var (n, d') := Modified(tag, t, d).value;
        && r.cache[off].kind == Type
        && NumberedType(r.lib, r.cache[off].ordinal).Some?
        && var (name, descr) := NumberedType(r.lib, r.cache[off].ordinal).value;
        && descr == d' && |n| <= |name| && name[..|n|] == n && UnderscoresFrom(name, |n|)
      else
        r.cache[off].kind == Useless && r.lib == st.lib
  {
    var (t, d) := NumberedType(st.lib, ordinal).value;
    ModifiedRoundTrip(tag, t, d);
    if tag in {DW_TAG_const_type, DW_TAG_volatile_type, DW_TAG_pointer_type} {
      var (n, d') := Modified(tag, t, d).value;
      SimpleDieTypeResult(st.lib, Some(n), d');
    }
  }

  /**
   * A typedef named N to a referent named T caches a type named N (possibly
   * suffixed) whose descriptor is BTF_TYPEDEF followed by T's name.
   */
  lemma TypedefOutcome(h: Host, name: Option<string>, st: State, off: u64, ordinal: nat)
    requires Valid(st.lib) && off !in st.cache
    requires NumberedType(st.lib, ordinal).Some?
    ensures var r := TypedTypedef(h, name, st, off, ordinal);
      var t := NumberedType(st.lib, ordinal).value.0;
      var n := name.GetOr("");
      && r.cache[off].kind == Type
      && NumberedType(r.lib, r.cache[off].ordinal).Some?
      && var (name', descr) := NumberedType(r.lib, r.cache[off].ordinal).value;
      && descr == [BTF_TYPEDEF] + h.appendName(t)
      && |n| <= |name'| && name'[..|n|] == n && UnderscoresFrom(name', |n|)
  {
    var t := NumberedType(st.lib, ordinal).value.0;
    SimpleDieTypeResult(st.lib, name, TypedefDescr(h, t));
  }

  /**
   * An array of an element type named T with descriptor d caches a type
   * named "T[N]" (possibly suffixed) with the descriptor build_array_type
   * gave; when build_array_type fails the array is USELESS.
   */
  lemma ArrayOutcome(h: Host, st: State, off: u64, t: string, d: Descr, size: i64)
    requires Valid(st.lib) && off !in st.cache
    ensures var r := NamedArray(h, st, off, t, d, size);
      var n := ArrayName(t, size);
      match h.buildArray(d, ToInt32(size))
      case None => r.cache[off].kind == Useless && r.lib == st.lib
      case Some(d') =>
        && r.cache[off].kind == Type
        && NumberedType(r.lib, r.cache[off].ordinal).Some?
        && var (name, descr) := NumberedType(r.lib, r.cache[off].ordinal).value;
        && descr == d' && |n| <= |name| && name[..|n|] == n && UnderscoresFrom(name, |n|)
  {
    if h.buildArray(d, ToInt32(size)).Some? {
      SimpleDieTypeResult(st.lib, Some(ArrayName(t, size)), h.buildArray(d, ToInt32(size)).value);
    }
  }

  /** An unreadable upper bound, or no subrange at all, gives "Elem[]". */
  lemma ArrayWithoutBound(sec: Section, off: u64, t: string)
    requires off in sec
    requires var sub := ChildStream(sec, sec[off].child, DW_TAG_subrange_type);
      sub.items == [] || (sub.items[0] in sec && AttrSmallVal(sec[sub.items[0]], DW_AT_upper_bound).Err?)
    ensures ArraySize(sec, off) == 0 && ArrayName(t, ArraySize(sec, off)) == t + "[]"
  {
  }

  /**
   * An enum DIE whose constants match an existing enum of the same name is
   * cached with that enum's ordinal and adds nothing to the database.
   */
  lemma EnumReused(h: Host, sec: Section, off: u64, st: State, id: nat)
    requires off in sec && off !in st.cache
    requires sec[off].name.Some? && FindEnum(st.enums, sec[off].name.value) == Some(id)
    requires EnumEqual(Some(id), st.enums[id].consts, EnumeratorsOf(sec, sec[off].child)) == Ok(true)
    ensures var r := ProcessEnum(h, sec, off, st);
      && !r.thrown && r.st.enums == st.enums && r.st.lib == st.lib
      && r.st.cache == st.cache[off := CacheEntry(Type, h.enumOrdinal(Some(id)), false)]
  {
  }

  /**
   * A structure whose name is already taken by a struct gets no ordinal,
   * adds no struct and is cached USELESS.
   */
  lemma StructureNameTaken(h: Host, sec: Section, off: u64, st: State, fuel: nat)
    requires off in sec && off !in st.cache
    requires LookupAttr(sec[off], DW_AT_declaration) == Ok(None)
    requires sec[off].name.Some? && FindStruc(st.strucs, sec[off].name.value).Some?
    ensures var r := ProcessStructure(h, sec, off, st, fuel);
      && !r.thrown && r.st.strucs == st.strucs
      && r.st.cache == st.cache[off := CacheEntry(Useless, 0, false)]
  {
  }

  /**
   * A base type with a readable size and encoding caches the descriptor the
   * encoding gives, under the DIE's name (possibly suffixed); an encoding
   * without a host type leaves the DIE USELESS and the library untouched; an
   * unreadable size or encoding throws and changes nothing.
   */
  lemma BaseTypeOutcome(sec: Section, off: u64, st: State)
    requires off in sec && Valid(st.lib) && off !in st.cache
    ensures var r := ProcessBaseType(sec, off, st);
      var rec := sec[off];
      var enc := AttrSmallVal(rec, DW_AT_encoding);
      if rec.byteSize.None? || enc.Err? then r == Step(st, true)
      else if BaseType(enc.value as int, rec.byteSize.value).None? then
        !r.thrown && r.st.cache[off].kind == Useless && r.st.lib == st.lib
      else
        var n := rec.name.GetOr("");
        && !r.thrown && r.st.cache[off].kind == Type
        && NumberedType(r.st.lib, r.st.cache[off].ordinal).Some?
        && var (name, descr) := NumberedType(r.st.lib, r.st.cache[off].ordinal).value;
        && descr == BaseType(enc.value as int, rec.byteSize.value).value
        && |n| <= |name| && name[..|n|] == n && UnderscoresFrom(name, |n|)
  {
    var rec := sec[off];
    var enc := AttrSmallVal(rec, DW_AT_encoding);
    if rec.byteSize.Some? && enc.Ok? && BaseType(enc.value as int, rec.byteSize.value).Some? {
      SimpleDieTypeResult(st.lib, rec.name, BaseType(enc.value as int, rec.byteSize.value).value);
    }
  }

  /**
   * A new enum DIE appends an enum with its name and width, unless the name
   * is taken, when no enum is added; the library and the structs are
   * untouched.
   */
  lemma NewEnumEntity(h: Host, sec: Section, off: u64, st: State, size: u64)
    requires off in sec
    ensures var r := NewEnum(h, sec, off, st, size);
      var n := |st.enums|;
      var added := AddEnum(st.enums, sec[off].name, EnumSize(size)).Some?;
      && r.st.lib == st.lib && r.st.strucs == st.strucs
      && (added ==>
            && |r.st.enums| == n + 1 && r.st.enums[..n] == st.enums
            && r.st.enums[n].name == sec[off].name && r.st.enums[n].width == EnumSize(size))
      && (!added ==> r.st.enums == st.enums)
  {
    var n := |st.enums|;
    var added := AddEnum(st.enums, sec[off].name, EnumSize(size));
    var s := ChildStream(sec, sec[off].child, DW_TAG_enumerator);
    ChildStreamFilters(sec, sec[off].child, DW_TAG_enumerator);
    NewEnumAfterEnumerators(h, sec, off, st, size);
    if added.Some? {
      var st1 := st.(enums := added.value.0);
      var w := AddEnumerators(sec, s.items, s.fails, Some(n), st1);
      EnumeratorsFrame(sec, s.items, s.fails, Some(n), st1);
      assert forall i :: 0 <= i < n ==> w.st.enums[i] == st1.enums[i];
      assert w.st.enums[..n] == st.enums;
    } else {
      EnumeratorsFrame(sec, s.items, s.fails, None, st);
    }
  }

  /** NewEnum's database is the one its enumerator loop leaves. */
  lemma NewEnumAfterEnumerators(h: Host, sec: Section, off: u64, st: State, size: u64)
    requires off in sec
    ensures (ChildStreamFilters(sec, sec[off].child, DW_TAG_enumerator);
      var added := AddEnum(st.enums, sec[off].name, EnumSize(size));
      var st1 := if added.Some? then st.(enums := added.value.0) else st;
      var newId := if added.Some? then Some(added.value.1) else None;
      var s := ChildStream(sec, sec[off].child, DW_TAG_enumerator);
      var w := AddEnumerators(sec, s.items, s.fails, newId, st1);
      var r := NewEnum(h, sec, off, st, size);
      r.st.enums == w.st.enums && r.st.lib == w.st.lib && r.st.strucs == w.st.strucs)
  {
  }

  /**
   * A new enum DIE whose enumerators are read without a throw is cached
   * with the ordinal of the enum it added (of BADNODE when the name was
   * taken).
   */
  lemma NewEnumCached(h: Host, sec: Section, off: u64, st: State, size: u64)
    requires off in sec && sec[off].tag == DW_TAG_enumeration_type && off !in st.cache
    ensures var r := NewEnum(h, sec, off, st, size);
      var added := AddEnum(st.enums, sec[off].name, EnumSize(size)).Some?;
      !r.thrown ==> r.st.cache[off] == CacheEntry(Type, h.enumOrdinal(if added then Some(|st.enums|) else None), false)
  {
    var s := ChildStream(sec, sec[off].child, DW_TAG_enumerator);
    ChildStreamFilters(sec, sec[off].child, DW_TAG_enumerator);
    assert off !in s.items;
  }

  /** The names the enumerator DIEs at `items` carry. */
  ghost function EnumeratorNames(sec: Section, items: seq<u64>): set<string>
    requires forall i :: 0 <= i < |items| ==> items[i] in sec
  {
    if items == [] then {}
    else
      (if sec[items[0]].name.Some? then {sec[items[0]].name.value} else {}) + EnumeratorNames(sec, items[1..])
  }

  /** The names of a prefix are the first name and the names of the rest of the prefix. */
  lemma EnumeratorNamesPrefix(sec: Section, items: seq<u64>, i: nat)
    requires forall i :: 0 <= i < |items| ==> items[i] in sec
    requires 0 < i <= |items|
    ensures EnumeratorNames(sec, items[..i]) ==
      (if sec[items[0]].name.Some? then {sec[items[0]].name.value} else {}) + EnumeratorNames(sec, items[1..][..i - 1])
  {
    assert items[..i][1..] == items[1..][..i - 1];
  }

  /**
   * process_enum's enumerator loop touches only the enum it fills, and only
   * that enum's constants: every enum keeps its name and width, the library
   * and the structs are untouched.
   */
  lemma {:induction false} EnumeratorsFrame(sec: Section, items: seq<u64>, fails: bool, id: Option<nat>, st: State)
    requires forall i :: 0 <= i < |items| ==> items[i] in sec
    ensures var r := AddEnumerators(sec, items, fails, id, st);
      && r.st.lib == st.lib && r.st.strucs == st.strucs && |r.st.enums| == |st.enums|
      && (forall i :: 0 <= i < |st.enums| && Some(i) != id ==> r.st.enums[i] == st.enums[i])
      && (forall i :: 0 <= i < |st.enums| ==>
            r.st.enums[i].name == st.enums[i].name && r.st.enums[i].width == st.enums[i].width)
    decreases |items|
  {
    if items != [] {
      var rec := sec[items[0]];
      var v := AttrSmallVal(rec, DW_AT_const_value);
      if v.Ok? {
        var st1 := UselessAt(st.(enums := AddConst(st.enums, id, rec.name, Uval(v.value))), items[0]);
        EnumeratorsFrame(sec, items[1..], fails, id, st1);
      }
    }
  }

  /**
   * process_enum's constants: the enum keeps the constants it had and gains
   * only names its enumerator DIEs carry.
   */
  lemma {:induction false} EnumeratorsKeep(sec: Section, items: seq<u64>, fails: bool, k: nat, st: State)
    requires forall i :: 0 <= i < |items| ==> items[i] in sec
    requires k < |st.enums|
    ensures var r := AddEnumerators(sec, items, fails, Some(k), st);
      var before := st.enums[k].consts;
      var after := r.st.enums[k].consts;
      && (forall c :: c in before ==> c in after && after[c] == before[c])
      && (forall c :: c in after && c !in before ==> c in EnumeratorNames(sec, items))
    decreases |items|
  {
    if items != [] {
      var rec := sec[items[0]];
      var v := AttrSmallVal(rec, DW_AT_const_value);
      if v.Ok? {
        var st1 := UselessAt(st.(enums := AddConst(st.enums, Some(k), rec.name, Uval(v.value))), items[0]);
        var before := st.enums[k].consts;
        var mid := st1.enums[k].consts;
        assert forall c :: c in before ==> c in mid && mid[c] == before[c];
        assert forall c :: c in mid && c !in before ==> rec.name == Some(c);
        EnumeratorsKeep(sec, items[1..], fails, k, st1);
      }
    }
  }

  /**
   * When no enumerator throws, every enumerator's name is afterwards a
   * constant of some enum (the new one, or the one that already held it).
   */
  lemma {:induction false} EnumeratorsAllConst(sec: Section, items: seq<u64>, fails: bool, k: nat, st: State)
    requires forall i :: 0 <= i < |items| ==> items[i] in sec
    requires k < |st.enums|
    ensures var r := AddEnumerators(sec, items, fails, Some(k), st);
      !r.thrown ==> forall i :: 0 <= i < |items| && sec[items[i]].name.Some? ==>
        FindConstEnum(r.st.enums, sec[items[i]].name.value).Some?
    decreases |items|
  {
    var r := AddEnumerators(sec, items, fails, Some(k), st);
    if items != [] {
      var rec := sec[items[0]];
      var v := AttrSmallVal(rec, DW_AT_const_value);
      if v.Ok? {
        var rest := items[1..];
        var st1 := UselessAt(st.(enums := AddConst(st.enums, Some(k), rec.name, Uval(v.value))), items[0]);
        assert r == AddEnumerators(sec, rest, fails, Some(k), st1);
        EnumeratorsAllConst(sec, rest, fails, k, st1);
        ConstsOnlyGrow(sec, rest, fails, k, st1);
        if !r.thrown {
          forall i | 0 <= i < |items| && sec[items[i]].name.Some?
            ensures FindConstEnum(r.st.enums, sec[items[i]].name.value).Some?
          {
            if i == 0 {
              var j := FindConstEnum(st1.enums, rec.name.value).value;
              assert rec.name.value in r.st.enums[j].consts;
            } else {
              assert items[i] == rest[i - 1];
            }
          }
        }
      }
    }
  }

  /**
   * When no enumerator throws, the first enumerator carrying a name that no
   * enum held gives that constant its value, taken modulo 2^32 (uval_t).
   */
  lemma {:induction false} EnumeratorsValue(sec: Section, items: seq<u64>, fails: bool, k: nat, st: State)
    requires forall i :: 0 <= i < |items| ==> items[i] in sec
    requires k < |st.enums|
    ensures var r := AddEnumerators(sec, items, fails, Some(k), st);
      !r.thrown ==> forall i :: 0 <= i < |items| && FirstNewConst(sec, items, i, st.enums) ==>
        AttrSmallVal(sec[items[i]], DW_AT_const_value).Ok? && sec[items[i]].name.value in r.st.enums[k].consts &&
        r.st.enums[k].consts[sec[items[i]].name.value] == Uval(AttrSmallVal(sec[items[i]], DW_AT_const_value).value)
    decreases |items|
  {
    var r := AddEnumerators(sec, items, fails, Some(k), st);
    if items != [] {
      var rec := sec[items[0]];
      var v := AttrSmallVal(rec, DW_AT_const_value);
      if v.Ok? {
        var rest := items[1..];
        var st1 := UselessAt(st.(enums := AddConst(st.enums, Some(k), rec.name, Uval(v.value))), items[0]);
        assert r == AddEnumerators(sec, rest, fails, Some(k), st1);
        EnumeratorsValue(sec, rest, fails, k, st1);
        EnumeratorsKeep(sec, rest, fails, k, st1);
        if !r.thrown {
          forall i | 0 <= i < |items| && FirstNewConst(sec, items, i, st.enums)
            ensures AttrSmallVal(sec[items[i]], DW_AT_const_value).Ok?
            ensures sec[items[i]].name.value in r.st.enums[k].consts
            ensures r.st.enums[k].consts[sec[items[i]].name.value] ==
                    Uval(AttrSmallVal(sec[items[i]], DW_AT_const_value).value)
          {
            if i > 0 {
              var c := sec[items[i]].name.value;
              EnumeratorNamesPrefix(sec, items, i);
              assert items[i] == rest[i - 1];
              assert rec.name != Some(c);
              assert FindConstEnum(st1.enums, c).None?;
              assert FirstNewConst(sec, rest, i - 1, st1.enums);
            }
          }
        }
      }
    }
  }

  /**
   * The enumerator at `i` carries a name that no enum holds and that no
   * earlier enumerator carries.
   */
  ghost predicate FirstNewConst(sec: Section, items: seq<u64>, i: nat, enums: seq<EnumEntity>)
    requires forall i :: 0 <= i < |items| ==> items[i] in sec
    requires i < |items|
  {
    && sec[items[i]].name.Some?
    && FindConstEnum(enums, sec[items[i]].name.value).None?
    && sec[items[i]].name.value !in EnumeratorNames(sec, items[..i])
  }

  /** An enumerator walk only adds constants: every enum keeps the constants it had. */
  lemma {:induction false} ConstsOnlyGrow(sec: Section, items: seq<u64>, fails: bool, k: nat, st: State)
    requires forall i :: 0 <= i < |items| ==> items[i] in sec
    requires k < |st.enums|
    ensures var r := AddEnumerators(sec, items, fails, Some(k), st);
      forall j, c :: 0 <= j < |st.enums| && c in st.enums[j].consts ==> c in r.st.enums[j].consts
    decreases |items|
  {
    if items != [] {
      var rec := sec[items[0]];
      var v := AttrSmallVal(rec, DW_AT_const_value);
      if v.Ok? {
        var st1 := UselessAt(st.(enums := AddConst(st.enums, Some(k), rec.name, Uval(v.value))), items[0]);
        ConstsOnlyGrow(sec, items[1..], fails, k, st1);
      }
    }
  }

  /**
   * A complete structure adds a struct with the DIE's name and the host's
   * ordinal, and is cached with that ordinal and the walk's second_pass
   * (USELESS for ordinal 0), unless a member visit already classified it.
   */
  lemma StructureSecondPass(h: Host, sec: Section, off: u64, st: State, fuel: nat)
    requires off in sec && off !in st.cache
    requires LookupAttr(sec[off], DW_AT_declaration) == Ok(None)
    requires AddStruc(st.strucs, sec[off].name, false, h.strucOrdinal(|st.strucs|)).Some?
    ensures (ChildStreamFilters(sec, sec[off].child, DW_TAG_member);
      var r := ProcessStructure(h, sec, off, st, fuel);
      var id := |st.strucs|;
      var ms := ChildStream(sec, sec[off].child, DW_TAG_member);
      var st1 := st.(strucs := AddStruc(st.strucs, sec[off].name, false, h.strucOrdinal(id)).value.0);
      var w := AddMembers(h, sec, ms.items, ms.fails, id, st1, false, fuel);
      && r.thrown == w.thrown
      && id < |r.st.strucs| && r.st.strucs[id].name == sec[off].name && !r.st.strucs[id].isUnion
      && r.st.strucs[id].ordinal == h.strucOrdinal(id)
      && (!r.thrown && (off !in w.st.cache || w.st.cache[off].kind == Useless) ==>
            if h.strucOrdinal(id) != 0
            then r.st.cache[off] == CacheEntry(Type, h.strucOrdinal(id), w.secondPass)
            else r.st.cache[off].kind == Useless))
  {
    ChildStreamFilters(sec, sec[off].child, DW_TAG_member);
  }

  /**
   * A typedef whose DW_AT_type refers to itself: process_typedef visits
   * the same DIE again before anything is cached, so the source recurses
   * without end. With bounded depth the innermost visit throws, the
   * enclosing try_visit_die swallows it, and every level then finds no
   * cached referent: the visit returns without a throw (once there is any
   * depth at all) and caches nothing.
   */
  lemma {:induction false} SelfTypedefNotCached(h: Host, sec: Section, off: u64, st: State, fuel: nat)
    requires off in sec && sec[off].tag == DW_TAG_typedef && off !in st.cache
    requires RefFromAttr(sec[off], DW_AT_type) == Ok(off)
    ensures Visit(h, sec, off, st, fuel) == Step(st, fuel == 0)
    decreases fuel
  {
    if fuel > 0 {
      SelfTypedefNotCached(h, sec, off, st, fuel - 1);
      assert LookupAttr(sec[off], DW_AT_type).Ok? && LookupAttr(sec[off], DW_AT_type).value.Some?;
      assert LookRefType(h, sec, sec[off], st, fuel - 1) == Looked(st, false, None);
    }
  }
}

/**
 * Adding an enum or a struct whose name may already be taken
 * (add_dup_enum, add_dup_struc), and finding an existing typedef with
 * equivalent content (get_equivalent_typedef_ordinal).
 */
module Dedup {
  import opened Wrappers
  import opened Dwarf
  import opened TypeRules
  import opened TypeLibrary
  import opened HostDb
  import opened Fingerprint

  /**
   * add_dup_enum's loop from candidate `c`: append '_', reuse an equal enum
   * that already has the new name, otherwise try to add under it.
   */
  function DupEnumRetry(enums: seq<EnumEntity>, c: string, width: SizeFlag, cands: Cands<i64>): (r: Result<(seq<EnumEntity>, nat)>)
    ensures r.Ok? ==> EnumAdded(enums, r.value.0, r.value.1)
    ensures r.Ok? && r.value.1 < |enums| ==>
      r.value.0 == enums && EnumEqual(Some(r.value.1), enums[r.value.1].consts, cands) == Ok(true)
    ensures r.Ok? && r.value.1 >= |enums| ==>
      r.value.1 == |enums| && r.value.0 == enums + [EnumEntity(r.value.0[r.value.1].name, width, map[])]
    decreases EnumNameBound(enums) + 1 - |c|
  {
    var c' := c + "_";
    var id := FindEnum(enums, c');
    var eq := EnumEqual(id, EnumPrint(enums, id), cands);
    if eq.Err? then Err
    else if eq.value && id.Some? then Ok((enums, id.value))
    else
      match AddEnum(enums, Some(c'), width)
      case Some(added) => Ok(added)
      case None => DupEnumRetry(enums, c', width, cands)
  }

  /**
   * `enums'` keeps `enums` as its prefix, and `id` is the enum get_enum
   * finds under its (non-NULL) name.
   */
  predicate EnumAdded(enums: seq<EnumEntity>, enums': seq<EnumEntity>, id: nat) {
    && id < |enums'| && |enums| <= |enums'| && enums'[..|enums|] == enums
    && enums'[id].name.Some? && FindEnum(enums', enums'[id].name.value) == Some(id)
  }

  /** add_dup_enum: the original name is tried first, with no comparison. */
  function DupEnum(enums: seq<EnumEntity>, name: Option<string>, width: SizeFlag, cands: Cands<i64>): Result<(seq<EnumEntity>, nat)>
  {
    match AddEnum(enums, name, width)
    case Some(added) => Ok(added)
    case None => DupEnumRetry(enums, name.value, width, cands)
  }

  /** A name that extends `c + "_"` with underscores extends `c` with underscores. */
  lemma UnderscoreStep(fin: string, c: string)
    requires |c| + 1 < |fin| && fin[..|c| + 1] == c + "_" && UnderscoresFrom(fin, |c| + 1)
    ensures fin[..|c|] == c && UnderscoresFrom(fin, |c|)
  {
    assert fin[..|c|] == fin[..|c| + 1][..|c|];
  }

  /** A candidate name add_dup_enum's loop passes over: it names an enum that is not equal. */
  predicate EnumRejected(enums: seq<EnumEntity>, name: string, cands: Cands<i64>) {
    var id := FindEnum(enums, name);
    id.Some? && EnumEqual(id, EnumPrint(enums, id), cands) == Ok(false)
  }

  /**
   * The name add_dup_enum's loop settles on is `c` followed by underscores,
   * and every shorter candidate past `c` named an existing enum that did
   * not compare equal.
   */
  lemma {:induction false} DupEnumRetryName(enums: seq<EnumEntity>, c: string, width: SizeFlag, cands: Cands<i64>)
    ensures var r := DupEnumRetry(enums, c, width, cands);
      r.Ok? ==>
        var fin := r.value.0[r.value.1].name.value;
        && |c| < |fin| && fin[..|c|] == c && UnderscoresFrom(fin, |c|)
        && (forall j :: |c| < j < |fin| ==> EnumRejected(enums, fin[..j], cands))
    decreases EnumNameBound(enums) + 1 - |c|
  {
    var c' := c + "_";
    var id := FindEnum(enums, c');
    var eq := EnumEqual(id, EnumPrint(enums, id), cands);
    var r := DupEnumRetry(enums, c, width, cands);
    if eq.Ok? && !(eq.value && id.Some?) && AddEnum(enums, Some(c'), width).None? {
      assert r == DupEnumRetry(enums, c', width, cands);
      DupEnumRetryName(enums, c', width, cands);
      assert EnumRejected(enums, c', cands);
      if r.Ok? {
        var fin := r.value.0[r.value.1].name.value;
        UnderscoreStep(fin, c);
        forall j | |c| < j < |fin|
          ensures EnumRejected(enums, fin[..j], cands)
        {
          if j == |c'| {
            assert fin[..j] == c';
          }
        }
      }
    } else if r.Ok? {
      assert r.value.0[r.value.1].name.value == c';
    }
  }

  /** add_dup_enum's result: the name it settles on extends the original name with underscores. */
  lemma DupEnumOutcome(enums: seq<EnumEntity>, name: Option<string>, width: SizeFlag, cands: Cands<i64>)
    ensures var r := DupEnum(enums, name, width, cands);
      r.Ok? ==> var (enums', id) := r.value;
        && id < |enums'| && enums'[..|enums|] == enums
        && (name.None? ==> id == |enums| && enums'[id] == EnumEntity(None, width, map[]))
        && (name.Some? ==>
              && enums'[id].name.Some?
              && var fin := enums'[id].name.value;
              && |name.value| <= |fin| && fin[..|name.value|] == name.value
              && UnderscoresFrom(fin, |name.value|)
              && FindEnum(enums', fin) == Some(id)
              && (forall j :: |name.value| < j < |fin| ==> EnumRejected(enums, fin[..j], cands)))
  {
    if AddEnum(enums, name, width).None? {
      DupEnumRetryName(enums, name.value, width, cands);
    } else if name.Some? {
      assert AddEnum(enums, name, width).value.0[|enums|].name.value == name.value;
    }
  }

  /** add_dup_enum */
  method AddDupEnum(enums: seq<EnumEntity>, name: Option<string>, width: SizeFlag, cands: Cands<i64>)
    returns (r: Result<(seq<EnumEntity>, nat)>)
    ensures r == DupEnum(enums, name, width, cands)
  {
    var first := AddEnum(enums, name, width);
    if first.Some? {
      return Ok(first.value);
    }
    var newName := name.value;
    var done: Option<(seq<EnumEntity>, nat)> := None;
    while done.None?
      invariant done.None? ==> DupEnumRetry(enums, newName, width, cands) == DupEnum(enums, name, width, cands)
      invariant done.Some? ==> Ok(done.value) == DupEnum(enums, name, width, cands)
      decreases if done.None? then 1 else 0, EnumNameBound(enums) + 1 - |newName|
    {
      newName := newName + "_";
      var cmp := new EnumCmp(enums, FindEnum(enums, newName));
      var eq := cmp.Equal(cands);
      if eq.Err? {
        return Err;
      }
      if eq.value {
        done := Some((enums, cmp.enumId.value));
      } else {
        done := AddEnum(enums, Some(newName), width);
      }
    }
    r := Ok(done.value);
  }

  /** What add_dup_struc produces: the structs, the id, and the ordinal it reports on reuse. */
  datatype DupStruc = DupStruc(strucs: seq<StrucEntity>, id: nat, ordinal: Option<nat>)

  /** The fingerprint StrucCmp(name) reads. */
  function StrucPrintOf(strucs: seq<StrucEntity>, id: Option<nat>): map<string, nat>
  {
    if id.Some? && id.value < |strucs| then StrucPrint(strucs[id.value]) else map[]
  }

  /** The union flag StrucCmp(name) reads. */
  function StrucIsUnion(strucs: seq<StrucEntity>, id: Option<nat>): bool
  {
    id.Some? && id.value < |strucs| && strucs[id.value].isUnion
  }

  /** A new struct with the ordinal the host gives it. */
  function AddStrucFor(h: Host, strucs: seq<StrucEntity>, name: Option<string>, isUnion: bool): (r: Option<DupStruc>)
    ensures r.None? <==> name.Some? && FindStruc(strucs, name.value).Some?
  {
    match AddStruc(strucs, name, isUnion, h.strucOrdinal(|strucs|))
    case Some((s, id)) => Some(DupStruc(s, id, None))
    case None => None
  }

  /** add_dup_struc's loop from candidate `c`. */
  function DupStrucRetry(h: Host, strucs: seq<StrucEntity>, c: string, isUnion: bool, cands: Cands<u64>): (r: Result<DupStruc>)
    ensures r.Ok? ==> StrucAdded(strucs, r.value)
    ensures r.Ok? && r.value.id < |strucs| ==>
      && r.value.strucs == strucs && r.value.ordinal == Some(strucs[r.value.id].ordinal)
      && strucs[r.value.id].isUnion == isUnion
      && StrucEqual(Some(r.value.id), isUnion, StrucPrint(strucs[r.value.id]), isUnion, cands) == Ok(true)
    ensures r.Ok? && r.value.id >= |strucs| ==>
      && r.value.id == |strucs| && r.value.ordinal.None?
      && r.value.strucs == strucs + [StrucEntity(r.value.strucs[r.value.id].name, isUnion, map[], h.strucOrdinal(|strucs|))]
    decreases StrucNameBound(strucs) + 1 - |c|
  {
    var c' := c + "_";
    var id := FindStruc(strucs, c');
    var eq := StrucEqual(id, StrucIsUnion(strucs, id), StrucPrintOf(strucs, id), isUnion, cands);
    if eq.Err? then Err
    else if eq.value && id.Some? then Ok(DupStruc(strucs, id.value, Some(strucs[id.value].ordinal)))
    else
      match AddStrucFor(h, strucs, Some(c'), isUnion)
      case Some(added) => Ok(added)
      case None => DupStrucRetry(h, strucs, c', isUnion, cands)
  }

  /** The struct counterpart of EnumAdded. */
  predicate StrucAdded(strucs: seq<StrucEntity>, d: DupStruc) {
    && d.id < |d.strucs| && |strucs| <= |d.strucs| && d.strucs[..|strucs|] == strucs
    && d.strucs[d.id].name.Some? && FindStruc(d.strucs, d.strucs[d.id].name.value) == Some(d.id)
  }

  /** add_dup_struc; the union flag comes from the DIE's tag. */
  function DupStrucOf(h: Host, strucs: seq<StrucEntity>, name: Option<string>, isUnion: bool, cands: Cands<u64>): Result<DupStruc>
  {
    match AddStrucFor(h, strucs, name, isUnion)
    case Some(added) => Ok(added)
    case None => DupStrucRetry(h, strucs, name.value, isUnion, cands)
  }

  /** A candidate name add_dup_struc's loop passes over: it names a struct or union that is not equal. */
  predicate StrucRejected(strucs: seq<StrucEntity>, name: string, isUnion: bool, cands: Cands<u64>) {
    var id := FindStruc(strucs, name);
    id.Some? && StrucEqual(id, StrucIsUnion(strucs, id), StrucPrintOf(strucs, id), isUnion, cands) == Ok(false)
  }

  /**
   * The name add_dup_struc's loop settles on is `c` followed by underscores,
   * and every shorter candidate past `c` named an existing struct or union
   * that did not compare equal.
   */
  lemma {:induction false} DupStrucRetryName(h: Host, strucs: seq<StrucEntity>, c: string, isUnion: bool, cands: Cands<u64>)
    ensures var r := DupStrucRetry(h, strucs, c, isUnion, cands);
      r.Ok? ==>
        var fin := r.value.strucs[r.value.id].name.value;
        && |c| < |fin| && fin[..|c|] == c && UnderscoresFrom(fin, |c|)
        && (forall j :: |c| < j < |fin| ==> StrucRejected(strucs, fin[..j], isUnion, cands))
    decreases StrucNameBound(strucs) + 1 - |c|
  {
    var c' := c + "_";
    var id := FindStruc(strucs, c');
    var eq := StrucEqual(id, StrucIsUnion(strucs, id), StrucPrintOf(strucs, id), isUnion, cands);
    var r := DupStrucRetry(h, strucs, c, isUnion, cands);
    if eq.Ok? && !(eq.value && id.Some?) && AddStrucFor(h, strucs, Some(c'), isUnion).None? {
      assert r == DupStrucRetry(h, strucs, c', isUnion, cands);
      DupStrucRetryName(h, strucs, c', isUnion, cands);
      assert StrucRejected(strucs, c', isUnion, cands);
      if r.Ok? {
        var fin := r.value.strucs[r.value.id].name.value;
        UnderscoreStep(fin, c);
        forall j | |c| < j < |fin|
          ensures StrucRejected(strucs, fin[..j], isUnion, cands)
        {
          if j == |c'| {
            assert fin[..j] == c';
          }
        }
      }
    } else if r.Ok? {
      assert r.value.strucs[r.value.id].name.value == c';
    }
  }

  /** add_dup_struc */
  method AddDupStruc(h: Host, strucs: seq<StrucEntity>, name: Option<string>, isUnion: bool, cands: Cands<u64>)
    returns (r: Result<DupStruc>)
    ensures r == DupStrucOf(h, strucs, name, isUnion, cands)
  {
    var first := AddStrucFor(h, strucs, name, isUnion);
    if first.Some? {
      return Ok(first.value);
    }
    var newName := name.value;
    var done: Option<DupStruc> := None;
    while done.None?
      invariant done.None? ==> DupStrucRetry(h, strucs, newName, isUnion, cands) == DupStrucOf(h, strucs, name, isUnion, cands)
      invariant done.Some? ==> Ok(done.value) == DupStrucOf(h, strucs, name, isUnion, cands)
      decreases if done.None? then 1 else 0, StrucNameBound(strucs) + 1 - |newName|
    {
      newName := newName + "_";
      var cmp := new StrucCmp(strucs, FindStruc(strucs, newName));
      var eq := cmp.Equal(isUnion, cands);
      if eq.Err? {
        return Err;
      }
      if eq.value {
        done := Some(DupStruc(strucs, cmp.strucId.value, Some(strucs[cmp.strucId.value].ordinal)));
      } else {
        done := AddStrucFor(h, strucs, Some(newName), isUnion);
      }
    }
    r := Ok(done.value);
  }

  /** The struct or union named `target` exists and compares equal to the DIE at `off`. */
  predicate StrucMatchesDie(strucs: seq<StrucEntity>, target: string, sec: Section, off: u64) {
    var id := FindStruc(strucs, target);
    && id.Some? && off in sec
    && StrucEqual(id, StrucIsUnion(strucs, id), StrucPrintOf(strucs, id),
                  sec[off].tag == DW_TAG_union_type, MembersOf(sec, sec[off].child)) == Ok(true)
  }

  /** The enum named `target` exists and compares equal to the DIE at `off`. */
  predicate EnumMatchesDie(enums: seq<EnumEntity>, target: string, sec: Section, off: u64) {
    var id := FindEnum(enums, target);
    && id.Some? && off in sec
    && EnumEqual(id, EnumPrint(enums, id), EnumeratorsOf(sec, sec[off].child)) == Ok(true)
  }

  /**
   * get_equivalent_typedef_ordinal: the ordinal of the type named like the
   * typedef DIE when that type is a typedef to a struct/union or enum whose
   * fingerprint the DIE cached for `typeOrdinal` matches; 0 otherwise.
   * Reading that DIE may throw.
   */
  function EquivalentTypedefOrdinal(h: Host, lib: TypeLib, enums: seq<EnumEntity>, strucs: seq<StrucEntity>,
                                    sec: Section, typedefName: Option<string>, typeOrdinal: nat): (r: Result<nat>)
    ensures r != Ok(0) ==>
      && NumberedType(lib, typeOrdinal).Some?
      && typedefName.Some? && typedefName.value in lib.named
      && IsTypeTypedef(lib.named[typedefName.value].descr[0])
      && h.typedefName(lib.named[typedefName.value].descr).Some?
      && h.typeOffset(typeOrdinal).Some?
      && var t := NumberedType(lib, typeOrdinal).value.1[0];
      && (IsTypeStruni(t) || IsTypeEnum(t))
    ensures r.Ok? && r.value != 0 ==>
      && r.value == lib.named[typedefName.value].ordinal
      && var target := h.typedefName(lib.named[typedefName.value].descr).value;
      && var off := h.typeOffset(typeOrdinal).value;
      && if IsTypeStruni(NumberedType(lib, typeOrdinal).value.1[0])
         then StrucMatchesDie(strucs, target, sec, off)
         else EnumMatchesDie(enums, target, sec, off)
  {
    match NumberedType(lib, typeOrdinal)
    case None => Ok(0)
    case Some((_, d)) =>
      if typedefName.None? || typedefName.value !in lib.named then Ok(0)
      else
        var existing := lib.named[typedefName.value].descr;
        if !IsTypeTypedef(existing[0]) then Ok(0)
        else if !(IsTypeStruni(d[0]) || IsTypeEnum(d[0])) then Ok(0)
        else
          match h.typedefName(existing)
          case None => Ok(0)
          case Some(target) =>
            var found := if IsTypeStruni(d[0]) then FindStruc(strucs, target).Some?
                         else FindEnum(enums, target).Some?;
            if !found then Ok(0)
            else
              match h.typeOffset(typeOrdinal)
              case None => Ok(0)
              case Some(off) =>
                if off !in sec then Err
                else
                  var eq :=
                    if IsTypeStruni(d[0]) then
                      var id := FindStruc(strucs, target);
                      StrucEqual(id, StrucIsUnion(strucs, id), StrucPrintOf(strucs, id),
                                 sec[off].tag == DW_TAG_union_type, MembersOf(sec, sec[off].child))
                    else
                      var id := FindEnum(enums, target);
                      EnumEqual(id, EnumPrint(enums, id), EnumeratorsOf(sec, sec[off].child));
                  if eq.Err? then Err
                  else if eq.value then Ok(lib.named[typedefName.value].ordinal)
                  else Ok(0)
  }

  /**
   * The converse for a struct/union target: when every lookup succeeds and
   * the cached DIE matches the struct the typedef names, the typedef's own
   * ordinal is returned.
   */
  lemma StrucTypedefFound(h: Host, lib: TypeLib, enums: seq<EnumEntity>, strucs: seq<StrucEntity>,
                          sec: Section, name: string, typeOrdinal: nat, target: string, off: u64)
    requires NumberedType(lib, typeOrdinal).Some? && IsTypeStruni(NumberedType(lib, typeOrdinal).value.1[0])
    requires name in lib.named && IsTypeTypedef(lib.named[name].descr[0])
    requires h.typedefName(lib.named[name].descr) == Some(target)
    requires h.typeOffset(typeOrdinal) == Some(off) && StrucMatchesDie(strucs, target, sec, off)
    ensures EquivalentTypedefOrdinal(h, lib, enums, strucs, sec, Some(name), typeOrdinal) == Ok(lib.named[name].ordinal)
  {
  }

  /** The converse for an enum target. */
  lemma EnumTypedefFound(h: Host, lib: TypeLib, enums: seq<EnumEntity>, strucs: seq<StrucEntity>,
                         sec: Section, name: string, typeOrdinal: nat, target: string, off: u64)
    requires NumberedType(lib, typeOrdinal).Some?
    requires var t := NumberedType(lib, typeOrdinal).value.1[0]; !IsTypeStruni(t) && IsTypeEnum(t)
    requires name in lib.named && IsTypeTypedef(lib.named[name].descr[0])
    requires h.typedefName(lib.named[name].descr) == Some(target)
    requires h.typeOffset(typeOrdinal) == Some(off) && EnumMatchesDie(enums, target, sec, off)
    ensures EquivalentTypedefOrdinal(h, lib, enums, strucs, sec, Some(name), typeOrdinal) == Ok(lib.named[name].ordinal)
  {
  }
}

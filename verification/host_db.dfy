/**
 * The host database of enums and structs as values: each entity's id is
 * its position, BADNODE is None, and an add fails exactly when the name is
 * already taken.
 */
module HostDb {
  import opened Wrappers
  import opened Dwarf
  import opened TypeRules
  import opened TypeLibrary

  /**
   * The host calls whose bodies are not part of this model, as functions
   * the model is parameterised by.
   */
  datatype Host = Host(
    /** get_enum_type_ordinal (None is BADNODE) */
    enumOrdinal: Option<nat> -> nat,
    /** the type ordinal the host gives the struct created with this id */
    strucOrdinal: nat -> nat,
    /** build_array_type; None when it fails */
    buildArray: (Descr, int) -> Option<Descr>,
    /** the bytes append_name adds for a type name */
    appendName: string -> seq<bv8>,
    /** get_type_size0; None is BADSIZE */
    typeSize: Descr -> Option<nat>,
    /** get_typedef_name; None is NULL */
    typedefName: Descr -> Option<string>,
    /** DieCache::get_type_offset: the DIE a type ordinal was made from */
    typeOffset: nat -> Option<u64>)

  /** uval_t is 32 bits wide: a Dwarf_Signed constant is stored modulo 2^32. */
  function Uval(v: i64): (u: nat)
    ensures u < TWO_32
    ensures (u - v) % TWO_32 == 0
    ensures 0 <= v < TWO_32 ==> u == v
  {
    v % TWO_32 as int
  }

  /** An enum of the host database: its name (NULL for an anonymous one), width and constants. */
  datatype EnumEntity = EnumEntity(name: Option<string>, width: SizeFlag, consts: map<string, nat>)

  /** A struct or union of the host database, with the offsets of its named members. */
  datatype StrucEntity = StrucEntity(name: Option<string>, isUnion: bool, members: map<string, nat>, ordinal: nat)

  /** get_enum: the id (position) of the first enum with this name; None is BADNODE. */
  function FindEnum(enums: seq<EnumEntity>, name: string): (r: Option<nat>)
    ensures r.Some? ==> r.value < |enums| && enums[r.value].name == Some(name)
    ensures r.Some? ==> forall j :: 0 <= j < r.value ==> enums[j].name != Some(name)
    ensures r.None? <==> forall i :: 0 <= i < |enums| ==> enums[i].name != Some(name)
  {
    if |enums| == 0 then None
    else if enums[|enums| - 1].name == Some(name) && FindEnum(enums[..|enums| - 1], name).None? then
      Some(|enums| - 1)
    else FindEnum(enums[..|enums| - 1], name)
  }

  /** get_const_by_name followed by get_const_enum: the enum holding a constant of that name. */
  function FindConstEnum(enums: seq<EnumEntity>, cname: string): (r: Option<nat>)
    ensures r.Some? ==> r.value < |enums| && cname in enums[r.value].consts
    ensures r.None? <==> forall i :: 0 <= i < |enums| ==> cname !in enums[i].consts
  {
    if |enums| == 0 then None
    else if cname in enums[|enums| - 1].consts && FindConstEnum(enums[..|enums| - 1], cname).None? then
      Some(|enums| - 1)
    else FindConstEnum(enums[..|enums| - 1], cname)
  }

  /** get_struc_id */
  function FindStruc(strucs: seq<StrucEntity>, name: string): (r: Option<nat>)
    ensures r.Some? ==> r.value < |strucs| && strucs[r.value].name == Some(name)
    ensures r.Some? ==> forall j :: 0 <= j < r.value ==> strucs[j].name != Some(name)
    ensures r.None? <==> forall i :: 0 <= i < |strucs| ==> strucs[i].name != Some(name)
  {
    if |strucs| == 0 then None
    else if strucs[|strucs| - 1].name == Some(name) && FindStruc(strucs[..|strucs| - 1], name).None? then
      Some(|strucs| - 1)
    else FindStruc(strucs[..|strucs| - 1], name)
  }

  /** add_enum: a named enum cannot reuse a taken name; an anonymous one is always added. */
  function AddEnum(enums: seq<EnumEntity>, name: Option<string>, width: SizeFlag): (r: Option<(seq<EnumEntity>, nat)>)
    ensures r.None? <==> name.Some? && FindEnum(enums, name.value).Some?
    ensures r.Some? ==> var (enums', id) := r.value;
      && id == |enums| && |enums'| == |enums| + 1 && enums'[..|enums|] == enums
      && enums'[id] == EnumEntity(name, width, map[])
      && (name.Some? ==> FindEnum(enums', name.value) == Some(id))
  {
    if name.Some? && FindEnum(enums, name.value).Some? then None
    else
      var enums' := enums + [EnumEntity(name, width, map[])];
      assert enums'[..|enums|] == enums;
      Some((enums', |enums|))
  }

  /**
   * add_const: the constant is added to an existing enum unless the name is
   * NULL or already names a constant of some enum.
   */
  function AddConst(enums: seq<EnumEntity>, id: Option<nat>, name: Option<string>, v: nat): (r: seq<EnumEntity>)
    ensures |r| == |enums|
    ensures forall i :: 0 <= i < |enums| && Some(i) != id ==> r[i] == enums[i]
    ensures id.Some? && id.value < |enums| && name.Some? && FindConstEnum(enums, name.value).None? ==>
      r[id.value].consts == enums[id.value].consts[name.value := v] &&
      FindConstEnum(r, name.value) == id
    ensures !(id.Some? && id.value < |enums| && name.Some? && FindConstEnum(enums, name.value).None?) ==>
      r == enums
  {
    if id.Some? && id.value < |enums| && name.Some? && FindConstEnum(enums, name.value).None? then
      var e := enums[id.value];
      var r := enums[id.value := e.(consts := e.consts[name.value := v])];
      FindConstAfterAdd(enums, r, id.value, name.value);
      r
    else enums
  }

  lemma {:induction false} FindConstAfterAdd(enums: seq<EnumEntity>, r: seq<EnumEntity>, k: nat, c: string)
    requires |r| == |enums| && k < |enums|
    requires forall i :: 0 <= i < |enums| && i != k ==> r[i] == enums[i]
    requires FindConstEnum(enums, c).None? && c in r[k].consts
    ensures FindConstEnum(r, c) == Some(k)
  {
    assert forall i :: 0 <= i < |r| && i != k ==> c !in r[i].consts;
  }

  /** The length of the longest enum name. */
  function EnumNameBound(enums: seq<EnumEntity>): (m: nat)
    ensures forall i :: 0 <= i < |enums| && enums[i].name.Some? ==> |enums[i].name.value| <= m
  {
    if enums == [] then 0
    else
      var m := EnumNameBound(enums[1..]);
      assert forall i :: 1 <= i < |enums| ==> enums[i] == enums[1..][i - 1];
      if enums[0].name.Some? && |enums[0].name.value| > m then |enums[0].name.value| else m
  }

  /** The length of the longest struct name. */
  function StrucNameBound(strucs: seq<StrucEntity>): (m: nat)
    ensures forall i :: 0 <= i < |strucs| && strucs[i].name.Some? ==> |strucs[i].name.value| <= m
  {
    if strucs == [] then 0
    else
      var m := StrucNameBound(strucs[1..]);
      assert forall i :: 1 <= i < |strucs| ==> strucs[i] == strucs[1..][i - 1];
      if strucs[0].name.Some? && |strucs[0].name.value| > m then |strucs[0].name.value| else m
  }

  /** add_struc: a named struct cannot reuse a taken name; its type ordinal is given by the host. */
  function AddStruc(strucs: seq<StrucEntity>, name: Option<string>, isUnion: bool, ordinal: nat): (r: Option<(seq<StrucEntity>, nat)>)
    ensures r.None? <==> name.Some? && FindStruc(strucs, name.value).Some?
    ensures r.Some? ==> var (strucs', id) := r.value;
      && id == |strucs| && |strucs'| == |strucs| + 1 && strucs'[..|strucs|] == strucs
      && strucs'[id] == StrucEntity(name, isUnion, map[], ordinal)
      && (name.Some? ==> FindStruc(strucs', name.value) == Some(id))
  {
    if name.Some? && FindStruc(strucs, name.value).Some? then None
    else
      var strucs' := strucs + [StrucEntity(name, isUnion, map[], ordinal)];
      assert strucs'[..|strucs|] == strucs;
      Some((strucs', |strucs|))
  }

  /** The member placement the model keeps: a named member's offset, unless the name is taken. */
  function AddMember(strucs: seq<StrucEntity>, id: nat, name: Option<string>, offset: nat): (r: seq<StrucEntity>)
    ensures |r| == |strucs|
    ensures forall i :: 0 <= i < |strucs| && i != id ==> r[i] == strucs[i]
    ensures id < |strucs| && name.Some? && name.value !in strucs[id].members ==>
      r[id] == strucs[id].(members := strucs[id].members[name.value := offset])
    ensures !(id < |strucs| && name.Some? && name.value !in strucs[id].members) ==> r == strucs
  {
    if id < |strucs| && name.Some? && name.value !in strucs[id].members then
      strucs[id := strucs[id].(members := strucs[id].members[name.value := offset])]
    else strucs
  }
}

/**
 * The part of a DWARF 2/3 debug section that the type resolver reads, seen
 * through the answers a libdwarf reader gives. Constants are the values of
 * section 7 of the DWARF Version 3 standard (tags: figure 18, attributes:
 * figure 20, forms: figure 21, location operations: figure 24, base type
 * encodings: figure 25).
 */
module Dwarf {
  import opened Wrappers

  // Machine widths used by libdwarf's typedefs.
  const TWO_8: nat := 0x100
  const TWO_32: nat := 0x1_0000_0000
  const TWO_63: nat := 0x8000_0000_0000_0000
  const TWO_64: nat := 0x1_0000_0000_0000_0000

  /** Dwarf_Unsigned and Dwarf_Off */
  type u64 = x: nat | x < TWO_64
  /** Dwarf_Signed */
  type i64 = x: int | -(TWO_63 as int) <= x < TWO_63 as int
  /** Dwarf_Small */
  type u8 = x: nat | x < TWO_8

  // Tags
  const DW_TAG_array_type: nat := 0x01
  const DW_TAG_enumeration_type: nat := 0x04
  const DW_TAG_member: nat := 0x0d
  const DW_TAG_pointer_type: nat := 0x0f
  const DW_TAG_compile_unit: nat := 0x11
  const DW_TAG_structure_type: nat := 0x13
  const DW_TAG_typedef: nat := 0x16
  const DW_TAG_union_type: nat := 0x17
  const DW_TAG_subrange_type: nat := 0x21
  const DW_TAG_base_type: nat := 0x24
  const DW_TAG_const_type: nat := 0x26
  const DW_TAG_enumerator: nat := 0x28
  const DW_TAG_volatile_type: nat := 0x35
  const DW_TAG_unspecified_type: nat := 0x3b

  // Attributes
  const DW_AT_byte_size: nat := 0x0b
  const DW_AT_const_value: nat := 0x1c
  const DW_AT_upper_bound: nat := 0x2f
  const DW_AT_data_member_location: nat := 0x38
  const DW_AT_declaration: nat := 0x3c
  const DW_AT_encoding: nat := 0x3e
  const DW_AT_type: nat := 0x49

  // Reference forms
  const DW_FORM_ref_addr: nat := 0x10
  const DW_FORM_ref1: nat := 0x11
  const DW_FORM_ref2: nat := 0x12
  const DW_FORM_ref4: nat := 0x13
  const DW_FORM_ref8: nat := 0x14
  const DW_FORM_ref_udata: nat := 0x15

  // Location operation
  const DW_OP_plus_uconst: nat := 0x23

  // Base type encodings
  const DW_ATE_address: int := 0x1
  const DW_ATE_boolean: int := 0x2
  const DW_ATE_complex_float: int := 0x3
  const DW_ATE_float: int := 0x4
  const DW_ATE_signed: int := 0x5
  const DW_ATE_signed_char: int := 0x6
  const DW_ATE_unsigned: int := 0x7
  const DW_ATE_unsigned_char: int := 0x8

  /** One operation of a location description (Dwarf_Loc: lr_atom, lr_number). */
  datatype Loc = Loc(atom: nat, number: u64)
  /** One location description (Dwarf_Locdesc: its ld_s operations). */
  datatype LocDesc = LocDesc(ops: seq<Loc>)

  /**
   * What libdwarf answers about one attribute: `form` is dwarf_whatform,
   * `formref` is dwarf_global_formref for DW_FORM_ref_addr and dwarf_formref
   * (CU-relative) for the other reference forms, `udata`/`sdata` are
   * dwarf_formudata/dwarf_formsdata and `loclist` is dwarf_loclist_n.
   * `None` is a reader call that does not return DW_DLV_OK.
   */
  datatype Attr = Attr(
    form: Option<nat>,
    formref: Option<u64>,
    udata: Option<u64>,
    sdata: Option<i64>,
    loclist: Option<seq<LocDesc>>)

  /** dwarf_attr: an error, or the attribute (a key absent from the table is "no such attribute"). */
  datatype AttrRead = ReadError | Present(attr: Attr)

  /**
   * The first-child/next-sibling tree: a link is what dwarf_child or
   * dwarf_siblingof answers (no entry, an error, or a DIE).
   */
  datatype Link = NoDie | LinkError | Die(node: DieTree)
  datatype DieTree = DieTree(off: u64, child: Link, sibling: Link)

  /**
   * A DIE as the reader sees it: its tag, its name (DW_AT_name, possibly
   * absent), its attribute table, dwarf_bytesize, the offset of its compile
   * unit (dwarf_die_CU_offset_range) and its first child.
   */
  datatype DieRecord = DieRecord(
    tag: nat,
    name: Option<string>,
    attrs: map<nat, AttrRead>,
    byteSize: Option<u64>,
    cuOffset: Option<u64>,
    child: Link)

  /** dwarf_offdie: the DIEs of .debug_info by global offset. */
  type Section = map<u64, DieRecord>

  /** Dwarf_Unsigned stored into a Dwarf_Signed: two's complement reinterpretation. */
  function ToSigned64(u: u64): (s: i64)
    ensures s == u || s == u - TWO_64
    ensures s < 0 <==> u >= TWO_63
  {
    if u < TWO_63 then u else u - TWO_64
  }
}

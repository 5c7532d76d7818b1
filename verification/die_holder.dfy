/**
 * DieHolder: the per-DIE handle whose getters memoize what they read, so
 * that each attribute and the DIE's offset come from the reader at most once.
 */
module DieHolders {
  import opened Wrappers
  import opened Dwarf
  import opened DieAccess

  class DieHolder {
    /** The DIE this handle reads (m_die) and its offset in .debug_info. */
    const rec: DieRecord
    const dieOffset: u64

    /** m_attrs: attributes already asked for, NULL ones included. */
    var attrs: map<nat, Option<Attr>>
    /** m_offset and m_offset_used */
    var offset: u64
    var offsetUsed: bool
    /** m_name; NULL until a name has been read */
    var name: Option<string>

    /** The number of calls made to the reader on this DIE's behalf. */
    ghost var readerCalls: nat

    /** Every memoized value is the reader's answer. */
    ghost predicate Valid()
      reads this
    {
      && (forall at :: at in attrs ==> LookupAttr(rec, at) == Ok(attrs[at]))
      && (offsetUsed ==> offset == dieOffset)
      && (name.Some? ==> name == rec.name)
    }

    constructor (rec: DieRecord, dieOffset: u64)
      ensures Valid()
      ensures this.rec == rec && this.dieOffset == dieOffset
      ensures attrs == map[] && !offsetUsed && name.None? && readerCalls == 0
    {
      this.rec := rec;
      this.dieOffset := dieOffset;
      attrs := map[];
      offset := 0;
      offsetUsed := false;
      name := None;
      readerCalls := 0;
    }

    /** get_attr: the reader is asked only for an attribute not yet in m_attrs. */
    method GetAttr(at: nat) returns (r: Result<Option<Attr>>)
      requires Valid()
      modifies this
      ensures Valid()
      ensures r == LookupAttr(rec, at)
      ensures offset == old(offset) && offsetUsed == old(offsetUsed)
      ensures name == old(name)
      ensures at in old(attrs) ==> attrs == old(attrs) && readerCalls == old(readerCalls)
      ensures at !in old(attrs) ==>
        readerCalls == old(readerCalls) + 1 &&
        attrs == if r.Ok? then old(attrs)[at := r.value] else old(attrs)
    {
      if at in attrs {
        r := Ok(attrs[at]);
      } else {
        readerCalls := readerCalls + 1;
        r := LookupAttr(rec, at);
        if r.Ok? {
          attrs := attrs[at := r.value];
        }
      }
    }

    /** get_offset: dwarf_dieoffset is called once; later calls return m_offset. */
    method GetOffset() returns (o: u64)
      requires Valid()
      modifies this
      ensures Valid()
      ensures o == dieOffset && offsetUsed
      ensures attrs == old(attrs) && name == old(name)
      ensures readerCalls == if old(offsetUsed) then old(readerCalls) else old(readerCalls) + 1
    {
      if !offsetUsed {
        readerCalls := readerCalls + 1;
        offset := dieOffset;
        offsetUsed := true;
      }
      o := offset;
    }

    /**
     * get_name: dwarf_diename is called while m_name is NULL, so a DIE
     * without a name is asked again on every call.
     */
    method GetName() returns (n: Option<string>)
      requires Valid()
      modifies this
      ensures Valid()
      ensures n == rec.name && name == rec.name
      ensures attrs == old(attrs) && offset == old(offset) && offsetUsed == old(offsetUsed)
      ensures readerCalls == if old(name).Some? then old(readerCalls) else old(readerCalls) + 1
    {
      if name.None? {
        readerCalls := readerCalls + 1;
        name := rec.name;
      }
      n := name;
    }

    /** get_ref_from_attr, through the memoized get_attr. */
    method GetRefFromAttr(at: nat) returns (r: Result<u64>)
      requires Valid()
      modifies this
      ensures Valid()
      ensures r == RefFromAttr(rec, at)
      ensures offset == old(offset) && offsetUsed == old(offsetUsed) && name == old(name)
      ensures at in old(attrs) ==> attrs == old(attrs) && readerCalls == old(readerCalls)
      ensures at !in old(attrs) ==>
        readerCalls == old(readerCalls) + 1 &&
        attrs == if LookupAttr(rec, at).Ok? then old(attrs)[at := LookupAttr(rec, at).value] else old(attrs)
    {
      var found := GetAttr(at);
      if found.Err? || found.value.None? {
        r := Err;
      } else {
        var a := found.value.value;
        if a.form.None? {
          r := Err;
        } else if a.form.value == DW_FORM_ref_addr {
          r := if a.formref.None? then Err else Ok(a.formref.value);
        } else if IsCuRelativeForm(a.form.value) {
          if a.formref.None? || rec.cuOffset.None? {
            r := Err;
          } else {
            r := Ok((a.formref.value + rec.cuOffset.value) % TWO_64);
          }
        } else {
          r := Err;
        }
      }
    }

    /** get_member_offset as idadwarf.cpp writes it (Dwarf_Small result). */
    method GetMemberOffset() returns (r: Result<u8>)
      requires Valid()
      modifies this
      ensures Valid()
      ensures r == MemberOffsetNarrowed(rec)
      ensures offset == old(offset) && offsetUsed == old(offsetUsed) && name == old(name)
      ensures DW_AT_data_member_location in old(attrs) ==> attrs == old(attrs) && readerCalls == old(readerCalls)
      ensures DW_AT_data_member_location !in old(attrs) ==>
        readerCalls == old(readerCalls) + 1 &&
        attrs == if LookupAttr(rec, DW_AT_data_member_location).Ok? then old(attrs)[DW_AT_data_member_location := LookupAttr(rec, DW_AT_data_member_location).value] else old(attrs)
    {
      var found := GetAttr(DW_AT_data_member_location);
      if found.Err? || found.value.None? || found.value.value.loclist.None? {
        r := Err;
      } else {
        var descs := found.value.value.loclist.value;
        if |descs| != 1 || |descs[0].ops| != 1 || descs[0].ops[0].atom != DW_OP_plus_uconst {
          r := Err;
        } else {
          r := Ok(descs[0].ops[0].number % TWO_8);
        }
      }
    }

    /** get_attr_small_val, through the memoized get_attr. */
    method GetAttrSmallVal(at: nat) returns (r: Result<i64>)
      requires Valid()
      modifies this
      ensures Valid()
      ensures r == AttrSmallVal(rec, at)
      ensures offset == old(offset) && offsetUsed == old(offsetUsed) && name == old(name)
      ensures at in old(attrs) ==> attrs == old(attrs) && readerCalls == old(readerCalls)
      ensures at !in old(attrs) ==>
        readerCalls == old(readerCalls) + 1 &&
        attrs == if LookupAttr(rec, at).Ok? then old(attrs)[at := LookupAttr(rec, at).value] else old(attrs)
    {
      var found := GetAttr(at);
      if found.Err? || found.value.None? {
        r := Err;
      } else {
        r := SmallEncodingValue(found.value.value);
      }
    }
  }
}

/**
 * The DIE access layer: how a DieHolder turns reader answers into values
 * or DieExceptions, and how DieChildIterator walks the children of a DIE.
 */
module DieAccess {
  import opened Wrappers
  import opened Dwarf

  /** dwarf_attr on one DIE: an error throws, a missing attribute is NULL. */
  function LookupAttr(rec: DieRecord, at: nat): (r: Result<Option<Attr>>)
    ensures r.Err? <==> at in rec.attrs && rec.attrs[at].ReadError?
    ensures r == Ok(None) <==> at !in rec.attrs
  {
    if at !in rec.attrs then Ok(None)
    else match rec.attrs[at]
      case ReadError => Err
      case Present(a) => Ok(Some(a))
  }

  /** The forms whose value dwarf_formref reads relative to the compile unit. */
  predicate IsCuRelativeForm(f: nat) {
    f == DW_FORM_ref1 || f == DW_FORM_ref2 || f == DW_FORM_ref4 ||
    f == DW_FORM_ref8 || f == DW_FORM_ref_udata
  }

  /**
   * get_ref_from_attr: the global offset a reference attribute designates.
   * Dwarf_Off is 64 bits, so adding the compile unit's offset wraps.
   */
  function RefFromAttr(rec: DieRecord, at: nat): Result<u64>
  {
    var found :- LookupAttr(rec, at);
    if found.None? then Err
    else
      var a := found.value;
      if a.form.None? then Err
      else if a.form.value == DW_FORM_ref_addr then
        if a.formref.None? then Err else Ok(a.formref.value)
      else if IsCuRelativeForm(a.form.value) then
        if a.formref.None? || rec.cuOffset.None? then Err
        else Ok((a.formref.value + rec.cuOffset.value) % TWO_64)
      else Err
  }

  /** The attribute itself, when the DIE has one and the reader returns it. */
  function PresentAttr(rec: DieRecord, at: nat): Option<Attr>
  {
    if at in rec.attrs && rec.attrs[at].Present? then Some(rec.attrs[at].attr) else None
  }

  /** get_ref_from_attr, case by case: absolute, CU-relative, or a failure. */
  lemma RefFromAttrCases(rec: DieRecord, at: nat)
    ensures PresentAttr(rec, at).None? ==> RefFromAttr(rec, at).Err?
    ensures PresentAttr(rec, at).Some? ==>
      var a := PresentAttr(rec, at).value;
      && (a.form == Some(DW_FORM_ref_addr) && a.formref.Some? ==>
            RefFromAttr(rec, at) == Ok(a.formref.value))
      && (a.form.Some? && IsCuRelativeForm(a.form.value) && a.formref.Some? && rec.cuOffset.Some? ==>
            RefFromAttr(rec, at) == Ok((a.formref.value + rec.cuOffset.value) % TWO_64))
      && (a.form.None? || (a.form.value != DW_FORM_ref_addr && !IsCuRelativeForm(a.form.value)) ==>
            RefFromAttr(rec, at).Err?)
    ensures RefFromAttr(rec, at).Ok? ==>
      PresentAttr(rec, at).Some? && PresentAttr(rec, at).value.form.Some? &&
      (PresentAttr(rec, at).value.form.value == DW_FORM_ref_addr ||
       IsCuRelativeForm(PresentAttr(rec, at).value.form.value))
  {
  }

  /**
   * The operand of a member location of the only supported shape: one
   * location description holding one DW_OP_plus_uconst operation.
   */
  function MemberLocationOperand(rec: DieRecord): Result<u64>
  {
    var found :- LookupAttr(rec, DW_AT_data_member_location);
    if found.None? || found.value.loclist.None? then Err
    else
      var descs := found.value.loclist.value;
      if |descs| != 1 || |descs[0].ops| != 1 || descs[0].ops[0].atom != DW_OP_plus_uconst then Err
      else Ok(descs[0].ops[0].number)
  }

  /** The single-operation shape get_member_offset accepts. */
  predicate SinglePlusUconst(descs: seq<LocDesc>) {
    |descs| == 1 && |descs[0].ops| == 1 && descs[0].ops[0].atom == DW_OP_plus_uconst
  }

  /** get_member_offset as written in idadwarf.cpp: the operand is returned as a Dwarf_Small. */
  function MemberOffsetNarrowed(rec: DieRecord): (r: Result<u8>)
    ensures r.Ok? <==> MemberLocationOperand(rec).Ok?
    ensures r.Ok? ==> r.value == MemberLocationOperand(rec).value % TWO_8
  {
    var operand :- MemberLocationOperand(rec);
    Ok(operand % TWO_8)
  }

  /** get_member_offset returning the whole Dwarf_Unsigned operand, as die_utils.hpp declares it. */
  function MemberOffset(rec: DieRecord): (r: Result<u64>)
    ensures r.Ok? ==> MemberOffsetNarrowed(rec) == Ok(r.value % TWO_8)
  {
    MemberLocationOperand(rec)
  }

  /** A member offset is read exactly when the location is one DW_OP_plus_uconst. */
  lemma MemberOffsetShape(rec: DieRecord)
    ensures MemberOffset(rec).Ok? <==>
      PresentAttr(rec, DW_AT_data_member_location).Some? &&
      PresentAttr(rec, DW_AT_data_member_location).value.loclist.Some? &&
      SinglePlusUconst(PresentAttr(rec, DW_AT_data_member_location).value.loclist.value)
    ensures MemberOffset(rec).Ok? ==>
      MemberOffset(rec).value ==
        PresentAttr(rec, DW_AT_data_member_location).value.loclist.value[0].ops[0].number
  {
  }

  /** A member placed with `DW_OP_plus_uconst off`. */
  function MemberAt(off: u64): DieRecord
  {
    var loc := Attr(Some(0x0a), None, None, None, Some([LocDesc([Loc(DW_OP_plus_uconst, off)])]));
    DieRecord(DW_TAG_member, Some("m"), map[DW_AT_data_member_location := Present(loc)], None, None, NoDie)
  }

  /**
   * The narrowing loses every offset from 256 on: a member at byte 256 is
   * reported at byte 0, the same place as the first member.
   */
  lemma NarrowedOffsetCollides()
    ensures MemberOffsetNarrowed(MemberAt(256)) == MemberOffsetNarrowed(MemberAt(0)) == Ok(0)
    ensures MemberOffset(MemberAt(256)) == Ok(256) && MemberOffset(MemberAt(0)) == Ok(0)
  {
  }

  /** get_small_encoding_value: the unsigned reading first, then the signed one. */
  function SmallEncodingValue(a: Attr): (r: Result<i64>)
    ensures a.udata.Some? ==> r == Ok(ToSigned64(a.udata.value))
    ensures a.udata.None? && a.sdata.Some? ==> r == Ok(a.sdata.value)
    ensures r.Err? <==> a.udata.None? && a.sdata.None?
  {
    if a.udata.Some? then Ok(ToSigned64(a.udata.value))
    else if a.sdata.Some? then Ok(a.sdata.value)
    else Err
  }

  /** get_attr_small_val: a missing attribute throws, like an unreadable one. */
  function AttrSmallVal(rec: DieRecord, at: nat): (r: Result<i64>)
    ensures r.Ok? ==> PresentAttr(rec, at).Some? &&
                      r == SmallEncodingValue(PresentAttr(rec, at).value)
    ensures PresentAttr(rec, at).None? ==> r.Err?
  {
    var found :- LookupAttr(rec, at);
    if found.None? then Err else SmallEncodingValue(found.value)
  }

  /**
   * What a DieChildIterator over `link` with tag `tag` yields: the offsets of
   * the DIEs of that tag, in sibling order, and whether advancing past the
   * last of them throws (a dwarf_siblingof or dwarf_child error).
   */
  datatype Stream = Stream(items: seq<u64>, fails: bool)

  function ChildStream(sec: Section, link: Link, tag: nat): Stream
  {
    match link
    case NoDie => Stream([], false)
    case LinkError => Stream([], true)
    case Die(t) =>
      if t.off !in sec then Stream([], true)
      else
        var rest := ChildStream(sec, t.sibling, tag);
        if sec[t.off].tag == tag then Stream([t.off] + rest.items, rest.fails) else rest
  }

  /** The sibling chain starting at `link`, without filtering. */
  function SiblingChain(link: Link): seq<u64>
  {
    match link
    case Die(t) => [t.off] + SiblingChain(t.sibling)
    case _ => []
  }

  /** Every yielded DIE has the requested tag and comes from the sibling chain, in order. */
  lemma ChildStreamFilters(sec: Section, link: Link, tag: nat)
    ensures var s := ChildStream(sec, link, tag);
      forall i :: 0 <= i < |s.items| ==> s.items[i] in sec && sec[s.items[i]].tag == tag
    ensures multiset(ChildStream(sec, link, tag).items) <= multiset(SiblingChain(link))
  {
    ChildStreamTagged(sec, link, tag);
    ChildStreamInChain(sec, link, tag);
  }

  lemma {:induction false} ChildStreamTagged(sec: Section, link: Link, tag: nat)
    ensures var s := ChildStream(sec, link, tag);
      forall i :: 0 <= i < |s.items| ==> s.items[i] in sec && sec[s.items[i]].tag == tag
  {
    match link
    case NoDie =>
    case LinkError =>
    case Die(t) =>
      ChildStreamTagged(sec, t.sibling, tag);
      var rest := ChildStream(sec, t.sibling, tag).items;
      assert var s := ChildStream(sec, t.sibling, tag);
        forall i :: 0 <= i < |s.items| ==> s.items[i] in sec && sec[s.items[i]].tag == tag;
      assert forall i :: 0 <= i < |rest| ==> rest[i] in sec && sec[rest[i]].tag == tag;
      var items := ChildStream(sec, link, tag).items;
      if t.off !in sec {
        assert items == [];
      } else if sec[t.off].tag != tag {
        assert items == rest;
      } else {
        assert items == [t.off] + rest;
        forall i | 0 <= i < |items|
          ensures items[i] in sec && sec[items[i]].tag == tag
        {
          if i > 0 {
            assert items[i] == rest[i - 1];
          }
        }
      }
  }

  lemma {:induction false} ChildStreamInChain(sec: Section, link: Link, tag: nat)
    ensures multiset(ChildStream(sec, link, tag).items) <= multiset(SiblingChain(link))
  {
    match link
    case NoDie =>
    case LinkError =>
    case Die(t) =>
      ChildStreamInChain(sec, t.sibling, tag);
      assert SiblingChain(link) == [t.off] + SiblingChain(t.sibling);
      if t.off in sec && sec[t.off].tag == tag {
        assert ChildStream(sec, link, tag).items == [t.off] + ChildStream(sec, t.sibling, tag).items;
      }
  }

  /** Every sibling of the requested tag is yielded when the chain reads cleanly. */
  lemma {:induction false} ChildStreamComplete(sec: Section, link: Link, tag: nat, o: u64)
    requires !ChildStream(sec, link, tag).fails
    requires o in SiblingChain(link) && o in sec && sec[o].tag == tag
    ensures o in ChildStream(sec, link, tag).items
  {
    match link
    case Die(t) =>
      if t.off != o {
        ChildStreamComplete(sec, t.sibling, tag, o);
      }
  }

  /**
   * DieChildIterator::set_current_child: walk the siblings from `link` until
   * a DIE of tag `tag`. The iterator's constructor runs it on the first child
   * and operator++ on the current child's sibling.
   */
  method NextWithTag(sec: Section, link: Link, tag: nat) returns (r: Result<Link>)
    ensures r.Err? <==> ChildStream(sec, link, tag) == Stream([], true)
    ensures r == Ok(NoDie) <==> ChildStream(sec, link, tag) == Stream([], false)
    ensures r.Ok? ==> r.value.NoDie? || r.value.Die?
    ensures r.Ok? && r.value.Die? ==>
      var t := r.value.node;
      t.off in sec && sec[t.off].tag == tag &&
      ChildStream(sec, link, tag) ==
        Stream([t.off] + ChildStream(sec, t.sibling, tag).items, ChildStream(sec, t.sibling, tag).fails)
  {
    var cur := link;
    while cur.Die? && cur.node.off in sec && sec[cur.node.off].tag != tag
      invariant ChildStream(sec, cur, tag) == ChildStream(sec, link, tag)
      decreases cur
    {
      cur := cur.node.sibling;
    }
    if cur.LinkError? || (cur.Die? && cur.node.off !in sec) {
      r := Err;
    } else {
      r := Ok(cur);
    }
  }
}

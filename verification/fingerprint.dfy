/**
 * Structural fingerprints (EnumCmp, StrucCmp): a name -> value (or
 * name -> offset) map read from an existing enum or struct, from which the
 * children of a candidate DIE erase their exact matches.
 */
module Fingerprint {
  import opened Wrappers
  import opened Dwarf
  import opened DieAccess
  import opened TypeRules
  import opened HostDb

  /** What a candidate child presents: its name and the value (or offset) read from it. */
  datatype Cand<T> = Cand(name: Option<string>, value: Result<T>)
  /** The children a DieChildIterator yields, and whether advancing past the last one throws. */
  datatype Cands<T> = Cands(items: seq<Cand<T>>, fails: bool)

  /** The enumerator children of a DIE, each with its name and DW_AT_const_value. */
  function EnumeratorsOf(sec: Section, link: Link): (r: Cands<i64>)
    ensures |r.items| == |ChildStream(sec, link, DW_TAG_enumerator).items|
  {
    var s := ChildStream(sec, link, DW_TAG_enumerator);
    ChildStreamFilters(sec, link, DW_TAG_enumerator);
    Cands(seq(|s.items|, i requires 0 <= i < |s.items| =>
                Cand(sec[s.items[i]].name, AttrSmallVal(sec[s.items[i]], DW_AT_const_value))),
          s.fails)
  }

  /** The member children of a DIE, each with its name and member offset. */
  function MembersOf(sec: Section, link: Link): (r: Cands<u64>)
    ensures |r.items| == |ChildStream(sec, link, DW_TAG_member).items|
  {
    var s := ChildStream(sec, link, DW_TAG_member);
    ChildStreamFilters(sec, link, DW_TAG_member);
    Cands(seq(|s.items|, i requires 0 <= i < |s.items| =>
                Cand(sec[s.items[i]].name, MemberOffset(sec[s.items[i]]))),
          s.fails)
  }

  /** A fingerprint after a walk, and whether the walk ended in a DieException. */
  datatype Walked = Walked(fp: map<string, nat>, thrown: bool)

  /** EnumCmp::find / StrucCmp::try_erase: erase the entry when both name and value match. */
  function Erase(fp: map<string, nat>, name: Option<string>, v: nat): map<string, nat>
  {
    if name.Some? && name.value in fp && fp[name.value] == v then fp - {name.value} else fp
  }

  /** Erase removes one exact match and otherwise leaves the map as it was. */
  lemma EraseExact(fp: map<string, nat>, name: Option<string>, v: nat)
    ensures name.Some? && name.value in fp && fp[name.value] == v ==>
      Erase(fp, name, v) == fp - {name.value} && |Erase(fp, name, v)| == |fp| - 1
    ensures !(name.Some? && name.value in fp && fp[name.value] == v) ==> Erase(fp, name, v) == fp
  {
  }

  /**
   * EnumCmp::equal's loop: read each enumerator's value, erase its exact
   * match, and stop at the first enumerator that matches nothing.
   */
  function EnumWalk(fp: map<string, nat>, items: seq<Cand<i64>>, fails: bool): Walked
    decreases |items|
  {
    if items == [] then Walked(fp, fails)
    else if items[0].value.Err? then Walked(fp, true)
    else
      var v := Uval(items[0].value.value);
      if items[0].name.Some? && items[0].name.value in fp && fp[items[0].name.value] == v
      then EnumWalk(fp - {items[0].name.value}, items[1..], fails)
      else Walked(fp, false)
  }

  /** EnumCmp::equal: false for BADNODE, otherwise "the fingerprint is now empty". */
  function EnumEqual(id: Option<nat>, fp: map<string, nat>, c: Cands<i64>): Result<bool>
  {
    if id.None? then Ok(false)
    else
      var w := EnumWalk(fp, c.items, c.fails);
      if w.thrown then Err else Ok(w.fp == map[])
  }

  /** The (name, value) pairs a list of readable candidates presents. */
  function EnumPairs(items: seq<Cand<i64>>): set<(string, nat)>
  {
    if items == [] then {}
    else
      (if items[0].name.Some? && items[0].value.Ok?
       then {(items[0].name.value, Uval(items[0].value.value))} else {}) + EnumPairs(items[1..])
  }

  /** The map a list of candidates with distinct names presents. */
  function EnumMap(items: seq<Cand<i64>>): map<string, nat>
    requires forall i :: 0 <= i < |items| ==> items[i].name.Some? && items[i].value.Ok?
  {
    if items == [] then map[]
    else EnumMap(items[1..])[items[0].name.value := Uval(items[0].value.value)]
  }

  predicate DistinctNames<T>(items: seq<Cand<T>>) {
    forall i, j :: 0 <= i < j < |items| ==> items[i].name != items[j].name
  }

  predicate Readable<T>(items: seq<Cand<T>>) {
    forall i :: 0 <= i < |items| ==> items[i].name.Some? && items[i].value.Ok?
  }

  /** A name no candidate carries is not a key of the map they present. */
  lemma {:induction false} EnumMapAbsent(items: seq<Cand<i64>>, n: string)
    requires Readable(items)
    requires forall i :: 0 <= i < |items| ==> items[i].name != Some(n)
    ensures n !in EnumMap(items)
    decreases |items|
  {
    if items != [] {
      assert items[0].name != Some(n);
      EnumMapAbsent(items[1..], n);
    }
  }

  /**
   * Exact match, in any order: candidates that present the fingerprint's
   * pairs, each name once, empty it.
   */
  lemma {:induction false} EnumExactMatch(fp: map<string, nat>, items: seq<Cand<i64>>)
    requires Readable(items) && DistinctNames(items)
    requires EnumMap(items) == fp
    ensures EnumWalk(fp, items, false) == Walked(map[], false)
    decreases |items|
  {
    if items != [] {
      var n := items[0].name.value;
      var rest := items[1..];
      forall i | 0 <= i < |rest|
        ensures rest[i].name != Some(n)
      {
        assert rest[i] == items[i + 1];
      }
      EnumMapAbsent(rest, n);
      assert fp - {n} == EnumMap(rest);
      EnumExactMatch(fp - {n}, rest);
    }
  }

  /** A successful comparison means every fingerprint pair was presented by some candidate. */
  lemma {:induction false} EnumWalkSound(fp: map<string, nat>, items: seq<Cand<i64>>, fails: bool)
    ensures var w := EnumWalk(fp, items, fails);
      forall n :: n in fp && n !in w.fp ==> (n, fp[n]) in EnumPairs(items)
    ensures EnumWalk(fp, items, fails).fp.Keys <= fp.Keys
    decreases |items|
  {
    if items != [] && items[0].value.Ok? {
      var v := Uval(items[0].value.value);
      if items[0].name.Some? && items[0].name.value in fp && fp[items[0].name.value] == v {
        EnumWalkSound(fp - {items[0].name.value}, items[1..], fails);
      }
    }
  }

  /**
   * A wrong value for a name of the fingerprint makes the comparison fail
   * when it is that name's only candidate.
   */
  lemma {:induction false} EnumWrongValueRejected(fp: map<string, nat>, items: seq<Cand<i64>>, fails: bool, k: nat)
    requires Readable(items) && k < |items|
    requires items[k].name.value in fp && fp[items[k].name.value] != Uval(items[k].value.value)
    requires forall j :: 0 <= j < |items| && j != k ==> items[j].name != items[k].name
    ensures EnumWalk(fp, items, fails) == Walked(EnumWalk(fp, items, fails).fp, false)
    ensures items[k].name.value in EnumWalk(fp, items, fails).fp
    decreases |items|
  {
    var n := items[0].name.value;
    var v := Uval(items[0].value.value);
    if k > 0 && n in fp && fp[n] == v {
      EnumWrongValueRejected(fp - {n}, items[1..], fails, k - 1);
    }
  }

  /**
   * Extra enumerators after the fingerprint has emptied are not rejected:
   * the next one matches nothing and the loop stops there.
   */
  lemma {:induction false} EnumExtrasAccepted(fp: map<string, nat>, items: seq<Cand<i64>>, fails: bool, k: nat)
    requires k < |items| && items[k].value.Ok?
    requires EnumWalk(fp, items[..k], false) == Walked(map[], false)
    ensures EnumWalk(fp, items, fails) == Walked(map[], false)
    decreases k
  {
    if k > 0 {
      assert items[..k][0] == items[0];
      assert items[..k][1..] == items[1..][..k - 1];
      var n := items[0].name;
      if items[0].value.Ok? && n.Some? && n.value in fp && fp[n.value] == Uval(items[0].value.value) {
        EnumExtrasAccepted(fp - {n.value}, items[1..], fails, k - 1);
      }
    }
  }

  /** The fingerprint {A=0, B=1}. */
  function AB(): map<string, nat> { map["A" := 0, "B" := 1] }

  /**
   * {A=0, B=1} matches B=1, A=0 (any order), rejects A=0, B=2, and, as the
   * loop is written, also accepts A=0, B=1, C=2.
   */
  lemma EnumMatchExamples()
    ensures EnumEqual(Some(0), AB(), Cands([Cand(Some("B"), Ok(1)), Cand(Some("A"), Ok(0))], false)) == Ok(true)
    ensures EnumEqual(Some(0), AB(), Cands([Cand(Some("A"), Ok(0)), Cand(Some("B"), Ok(2))], false)) == Ok(false)
    ensures EnumEqual(Some(0), AB(), Cands([Cand(Some("A"), Ok(0)), Cand(Some("B"), Ok(1)), Cand(Some("C"), Ok(2))], false)) == Ok(true)
    ensures EnumEqual(None, AB(), Cands([Cand(Some("A"), Ok(0)), Cand(Some("B"), Ok(1))], false)) == Ok(false)
  {
    assert AB() - {"B"} - {"A"} == map[];
    assert AB() - {"A"} - {"B"} == map[];
  }

  /** The fingerprint EnumCmp reads for an enum id (BADNODE gives none). */
  function EnumPrint(enums: seq<EnumEntity>, id: Option<nat>): map<string, nat>
  {
    if id.Some? && id.value < |enums| then enums[id.value].consts else map[]
  }

  /** The fingerprint StrucCmp::add_all_members reads: offsets, or 0 for every union member. */
  function StrucPrint(s: StrucEntity): (fp: map<string, nat>)
    ensures fp.Keys == s.members.Keys
  {
    if s.isUnion then map n | n in s.members :: 0 else s.members
  }

  /**
   * StrucCmp::equal's loop: every member is tried, a non-matching one does
   * not stop it. A union member's offset is not read; 0 stands for it.
   */
  function StrucWalk(fp: map<string, nat>, isUnion: bool, items: seq<Cand<u64>>, fails: bool): Walked
    decreases |items|
  {
    if items == [] then Walked(fp, fails)
    else if !isUnion && items[0].value.Err? then Walked(fp, true)
    else
      var off := if isUnion then 0 else items[0].value.value;
      StrucWalk(Erase(fp, items[0].name, off), isUnion, items[1..], fails)
  }

  /** StrucCmp::equal: false for an empty fingerprint, a struct/union mismatch, or BADNODE. */
  function StrucEqual(id: Option<nat>, fpIsUnion: bool, fp: map<string, nat>,
                      candIsUnion: bool, c: Cands<u64>): Result<bool>
  {
    if fp == map[] || fpIsUnion != candIsUnion || id.None? then Ok(false)
    else
      var w := StrucWalk(fp, fpIsUnion, c.items, c.fails);
      if w.thrown then Err else Ok(w.fp == map[])
  }

  /** The (name, offset) pairs readable candidates present; for a union every offset is 0. */
  function StrucPairs(isUnion: bool, items: seq<Cand<u64>>): set<(string, nat)>
  {
    if items == [] then {}
    else
      (if items[0].name.Some? && (isUnion || items[0].value.Ok?)
       then {(items[0].name.value, if isUnion then 0 else items[0].value.value)} else {})
      + StrucPairs(isUnion, items[1..])
  }

  /**
   * A completed walk leaves exactly the fingerprint entries that no
   * candidate presented, wherever the matching candidates stand.
   */
  lemma {:induction false} StrucWalkLeftover(fp: map<string, nat>, isUnion: bool, items: seq<Cand<u64>>, fails: bool)
    requires !StrucWalk(fp, isUnion, items, fails).thrown
    ensures var w := StrucWalk(fp, isUnion, items, fails);
      && w.fp.Keys <= fp.Keys
      && (forall n :: n in w.fp ==> w.fp[n] == fp[n])
      && (forall n :: n in fp ==> (n in w.fp <==> (n, fp[n]) !in StrucPairs(isUnion, items)))
    decreases |items|
  {
    if items != [] {
      var off := if isUnion then 0 else items[0].value.value;
      var fp' := Erase(fp, items[0].name, off);
      StrucWalkLeftover(fp', isUnion, items[1..], fails);
    }
  }

  /** A union's comparison never reads a member offset: only the names matter. */
  lemma {:induction false} UnionIgnoresOffsets(fp: map<string, nat>, a: seq<Cand<u64>>, b: seq<Cand<u64>>, fails: bool)
    requires |a| == |b| && forall i :: 0 <= i < |a| ==> a[i].name == b[i].name
    ensures StrucWalk(fp, true, a, fails) == StrucWalk(fp, true, b, fails)
    decreases |a|
  {
    if a != [] {
      UnionIgnoresOffsets(Erase(fp, a[0].name, 0), a[1..], b[1..], fails);
    }
  }

  /** Rejections that happen before any member is looked at. */
  lemma StrucEqualGuards(id: Option<nat>, fpIsUnion: bool, fp: map<string, nat>, candIsUnion: bool, c: Cands<u64>)
    ensures fp == map[] ==> StrucEqual(id, fpIsUnion, fp, candIsUnion, c) == Ok(false)
    ensures fpIsUnion != candIsUnion ==> StrucEqual(id, fpIsUnion, fp, candIsUnion, c) == Ok(false)
    ensures id.None? ==> StrucEqual(id, fpIsUnion, fp, candIsUnion, c) == Ok(false)
    ensures StrucEqual(id, fpIsUnion, fp, candIsUnion, c) == Ok(true) ==>
      fp != map[] && fpIsUnion == candIsUnion && id.Some?
  {
  }

  /** EnumCmp: a fingerprint of an existing enum, consumed by a comparison. */
  class EnumCmp {
    /** m_enum_id; None is BADNODE */
    const enumId: Option<nat>
    /** m_consts */
    var consts: map<string, nat>

    /** EnumCmp(enum_t): the constants of the enum, when there is one. */
    constructor (enums: seq<EnumEntity>, id: Option<nat>)
      ensures enumId == (if id.Some? && id.value < |enums| then id else None)
      ensures consts == if enumId.Some? then enums[enumId.value].consts else map[]
    {
      enumId := if id.Some? && id.value < |enums| then id else None;
      consts := if id.Some? && id.value < |enums| then enums[id.value].consts else map[];
    }

    /** find */
    method Find(name: Option<string>, value: nat) returns (found: bool)
      modifies this
      ensures found <==> name.Some? && name.value in old(consts) && old(consts)[name.value] == value
      ensures consts == Erase(old(consts), name, value)
    {
      found := name.Some? && name.value in consts && consts[name.value] == value;
      if found {
        consts := consts - {name.value};
      }
    }

    /** equal */
    method Equal(c: Cands<i64>) returns (r: Result<bool>)
      modifies this
      ensures r == EnumEqual(enumId, old(consts), c)
      ensures consts == if enumId.Some? then EnumWalk(old(consts), c.items, c.fails).fp else old(consts)
    {
      if enumId.None? {
        return Ok(false);
      }
      var i := 0;
      var stopped := false;
      while i < |c.items| && !stopped
        invariant 0 <= i <= |c.items|
        invariant !stopped ==> EnumWalk(consts, c.items[i..], c.fails) == EnumWalk(old(consts), c.items, c.fails)
        invariant stopped ==> EnumWalk(old(consts), c.items, c.fails) == Walked(consts, false)
        decreases |c.items| - i, !stopped
      {
        if c.items[i].value.Err? {
          return Err;
        }
        var found := Find(c.items[i].name, Uval(c.items[i].value.value));
        if found {
          i := i + 1;
        } else {
          stopped := true;
        }
      }
      if !stopped && c.fails {
        return Err;
      }
      r := Ok(consts == map[]);
    }
  }

  /** StrucCmp: a fingerprint of an existing struct or union. */
  class StrucCmp {
    /** m_struc_id; None is BADNODE */
    const strucId: Option<nat>
    /** m_is_union */
    const isUnion: bool
    /** m_members */
    var members: map<string, nat>

    /** StrucCmp(tid_t) */
    constructor (strucs: seq<StrucEntity>, id: Option<nat>)
      ensures strucId == (if id.Some? && id.value < |strucs| then id else None)
      ensures isUnion == (strucId.Some? && strucs[strucId.value].isUnion)
      ensures members == if strucId.Some? then StrucPrint(strucs[strucId.value]) else map[]
    {
      strucId := if id.Some? && id.value < |strucs| then id else None;
      isUnion := id.Some? && id.value < |strucs| && strucs[id.value].isUnion;
      members := if id.Some? && id.value < |strucs| then StrucPrint(strucs[id.value]) else map[];
    }

    /** try_erase */
    method TryErase(name: Option<string>, offset: nat)
      modifies this
      ensures members == Erase(old(members), name, offset)
    {
      if name.Some? && name.value in members && members[name.value] == offset {
        members := members - {name.value};
      }
    }

    /** equal, for a candidate DIE whose tag says whether it is a union */
    method Equal(candIsUnion: bool, c: Cands<u64>) returns (r: Result<bool>)
      modifies this
      ensures r == StrucEqual(strucId, isUnion, old(members), candIsUnion, c)
      ensures members ==
        if old(members) != map[] && isUnion == candIsUnion && strucId.Some?
        then StrucWalk(old(members), isUnion, c.items, c.fails).fp else old(members)
    {
      if members == map[] || isUnion != candIsUnion || strucId.None? {
        return Ok(false);
      }
      for i := 0 to |c.items|
        invariant StrucWalk(members, isUnion, c.items[i..], c.fails) ==
                  StrucWalk(old(members), isUnion, c.items, c.fails)
      {
        if !isUnion && c.items[i].value.Err? {
          return Err;
        }
        var off := if isUnion then 0 else c.items[i].value.value;
        TryErase(c.items[i].name, off);
      }
      if c.fails {
        return Err;
      }
      r := Ok(members == map[]);
    }
  }
}

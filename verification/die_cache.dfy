/**
 * The resolution cache: one die_cache record per DIE offset, kept in a
 * netnode's supvals. Writes only ever add an entry or turn a USELESS entry
 * into a TYPE entry.
 */
module DieCache {
  import opened Wrappers

  datatype DieKind = Useless | Type | Var

  /** die_cache: { type, ordinal, second_pass } */
  datatype CacheEntry = CacheEntry(kind: DieKind, ordinal: nat, secondPass: bool)

  type Cache = map<nat, CacheEntry>

  /** cache_useless: writes only when the offset has no entry. */
  function CacheUseless(c: Cache, off: nat): (c': Cache)
    ensures off in c'
    ensures off !in c ==> c'[off] == CacheEntry(Useless, 0, false)
  {
    if off in c then c else c[off := CacheEntry(Useless, 0, false)]
  }

  /** cache_type: writes when there is no entry or a USELESS one. */
  function CacheType(c: Cache, off: nat, ordinal: nat, secondPass: bool): (c': Cache)
    ensures off in c'
    ensures off !in c || c[off].kind == Useless ==> c'[off] == CacheEntry(Type, ordinal, secondPass)
  {
    if off in c && c[off].kind != Useless then c
    else c[off := CacheEntry(Type, ordinal, secondPass)]
  }

  /** get_cache: the entry, if any. */
  function GetCache(c: Cache, off: nat): (r: Option<CacheEntry>)
    ensures r.Some? <==> off in c
  {
    if off in c then Some(c[off]) else None
  }

  /** get_cache_type: the entry only when it classifies a type. */
  function GetCacheType(c: Cache, off: nat): (r: Option<CacheEntry>)
    ensures r.Some? <==> off in c && c[off].kind == Type
    ensures r.Some? ==> r.value == c[off]
  {
    match GetCache(c, off)
    case Some(e) => if e.kind == Type then Some(e) else None
    case None => None
  }

  /**
   * `c'` only extends `c`: no offset loses its entry, a TYPE or VAR entry
   * never changes, and a USELESS entry may only become something else.
   */
  ghost predicate Extends(c: Cache, c': Cache) {
    && c.Keys <= c'.Keys
    && (forall off :: off in c && c[off].kind != Useless ==> c'[off] == c[off])
  }

  lemma ExtendsReflexive(c: Cache)
    ensures Extends(c, c)
  {
  }

  lemma ExtendsTransitive(c1: Cache, c2: Cache, c3: Cache)
    requires Extends(c1, c2) && Extends(c2, c3)
    ensures Extends(c1, c3)
  {
  }

  /** Neither write downgrades the cache, and neither touches another offset. */
  lemma WritesNeverDowngrade(c: Cache, off: nat, ordinal: nat, secondPass: bool)
    ensures Extends(c, CacheUseless(c, off)) && Extends(c, CacheType(c, off, ordinal, secondPass))
    ensures forall o :: o != off ==> GetCache(CacheUseless(c, off), o) == GetCache(c, o)
    ensures forall o :: o != off ==> GetCache(CacheType(c, off, ordinal, secondPass), o) == GetCache(c, o)
    ensures off in c ==> CacheUseless(c, off) == c
    ensures off in c && c[off].kind != Useless ==> CacheType(c, off, ordinal, secondPass) == c
  {
  }

  /** A type entry, once written, answers get_cache_type for good. */
  lemma TypeEntryIsFinal(c: Cache, c': Cache, off: nat)
    requires Extends(c, c')
    requires GetCacheType(c, off).Some?
    ensures GetCacheType(c', off) == GetCacheType(c, off)
  {
  }

  /** The netnode holding the cache ("$ ELF/DWARF plugin"), as an object updated in place. */
  class ResolutionCache {
    var entries: Cache

    constructor ()
      ensures entries == map[]
    {
      entries := map[];
    }

    /** in_cache */
    method InCache(off: nat) returns (b: bool)
      ensures b <==> off in entries
    {
      b := off in entries;
    }

    method MarkUseless(off: nat)
      modifies this
      ensures entries == CacheUseless(old(entries), off)
      ensures Extends(old(entries), entries)
    {
      var present := InCache(off);
      if !present {
        entries := entries[off := CacheEntry(Useless, 0, false)];
      }
    }

    method MarkType(off: nat, ordinal: nat, secondPass: bool)
      modifies this
      ensures entries == CacheType(old(entries), off, ordinal, secondPass)
      ensures Extends(old(entries), entries)
    {
      var existing := Get(off);
      var doCache := !(existing.Some? && existing.value.kind != Useless);
      if doCache {
        entries := entries[off := CacheEntry(Type, ordinal, secondPass)];
      }
    }

    /** get_cache */
    method Get(off: nat) returns (r: Option<CacheEntry>)
      ensures r == GetCache(entries, off)
    {
      r := if off in entries then Some(entries[off]) else None;
    }

    /** get_cache_type */
    method GetType(off: nat) returns (r: Option<CacheEntry>)
      ensures r == GetCacheType(entries, off)
    {
      r := Get(off);
      if r.Some? && r.value.kind != Type {
        r := None;
      }
    }
  }
}

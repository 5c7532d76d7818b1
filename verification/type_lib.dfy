/**
 * The host's local type library (idati) as the resolver uses it: named,
 * numbered types whose descriptors are compared byte for byte, and the
 * create-or-reuse naming loop of set_simple_die_type.
 */
module TypeLibrary {
  import opened Wrappers

  /** A type_t string; every descriptor the resolver builds has at least one byte. */
  type Descr = d: seq<bv8> | |d| > 0 witness [0]

  datatype TypeRow = TypeRow(ordinal: nat, descr: Descr)

  /**
   * `named` answers get_named_type, `names` answers get_numbered_type_name,
   * `next` is the ordinal alloc_type_ordinal hands out next.
   */
  datatype TypeLib = TypeLib(named: map<string, TypeRow>, names: map<nat, string>, next: nat)

  /** Names and ordinals are in one-to-one correspondence, and every ordinal was allocated. */
  ghost predicate Valid(lib: TypeLib) {
    && (forall n :: n in lib.named ==>
          lib.named[n].ordinal in lib.names && lib.names[lib.named[n].ordinal] == n)
    && (forall o :: o in lib.names ==>
          lib.names[o] in lib.named && lib.named[lib.names[o]].ordinal == o)
    && (forall o :: o in lib.names ==> 0 < o < lib.next)
    && 0 < lib.next
  }

  /** get_numbered_type_name and get_numbered_type for one ordinal. */
  function NumberedType(lib: TypeLib, ordinal: nat): (r: Option<(string, Descr)>)
    ensures r.Some? ==> r.value.0 in lib.named && lib.named[r.value.0].ordinal == ordinal
  {
    if ordinal in lib.names && lib.names[ordinal] in lib.named &&
       lib.named[lib.names[ordinal]].ordinal == ordinal
    then Some((lib.names[ordinal], lib.named[lib.names[ordinal]].descr))
    else None
  }

  /** get_simple_type for a non-NULL name: an existing type of that name and that very descriptor. */
  function GetSimpleType(lib: TypeLib, name: string, d: Descr): (r: Option<nat>)
    ensures r.Some? <==> name in lib.named && lib.named[name].descr == d
    ensures r.Some? ==> r.value == lib.named[name].ordinal
  {
    if name in lib.named && lib.named[name].descr == d then Some(lib.named[name].ordinal) else None
  }

  /** set_numbered_type into a free name (it fails exactly when the name is taken). */
  function Insert(lib: TypeLib, ordinal: nat, name: string, d: Descr): TypeLib
    requires name !in lib.named
  {
    lib.(named := lib.named[name := TypeRow(ordinal, d)], names := lib.names[ordinal := name])
  }

  /** The length of the longest name in `s`. */
  ghost function MaxLen(s: set<string>): (m: nat)
    ensures forall x :: x in s ==> |x| <= m
  {
    if s == {} then 0
    else
      var x :| x in s;
      var m := MaxLen(s - {x});
      if |x| > m then |x| else m
  }

  /** What set_simple_die_type produces: the ordinal, the library after it, and the name used. */
  datatype Saved = Saved(ordinal: nat, lib: TypeLib, name: string)

  /**
   * The retry loop from candidate name `c` with the alloced ordinal `a`:
   * insert when `c` is free; otherwise append '_' and reuse a type that
   * already has the new name and the same descriptor.
   */
  function Retry(lib: TypeLib, c: string, d: Descr, a: nat): Saved
    decreases MaxLen(lib.named.Keys) + 1 - |c|
  {
    if c !in lib.named then Saved(a, Insert(lib, a, c, d), c)
    else
      var c' := c + "_";
      match GetSimpleType(lib, c', d)
      case Some(o) => Saved(o, lib, c')
      case None => Retry(lib, c', d, a)
  }

  /** set_simple_die_type; an absent name starts the loop from the empty string. */
  function SimpleDieType(lib: TypeLib, name: Option<string>, d: Descr): Saved
  {
    if name.Some? && GetSimpleType(lib, name.value, d).Some? then
      Saved(GetSimpleType(lib, name.value, d).value, lib, name.value)
    else
      Retry(lib.(next := lib.next + 1), name.GetOr(""), d, lib.next)
  }

  /** Every character of `s` from position `from` on is an underscore. */
  predicate UnderscoresFrom(s: string, from: nat) {
    forall i :: from <= i < |s| ==> s[i] == '_'
  }

  /**
   * The retry loop ends on `c` followed by underscores; every shorter
   * candidate was taken, and none of those past `c` held an equal type; it
   * either reuses an equal type under the final name or inserts there; and
   * the name is at most one character longer than the longest name.
   */
  lemma {:induction false} RetryOutcome(lib: TypeLib, c: string, d: Descr, a: nat)
    ensures var r := Retry(lib, c, d, a);
      && |c| <= |r.name| && r.name[..|c|] == c && UnderscoresFrom(r.name, |c|)
      && (forall j :: |c| <= j < |r.name| ==> r.name[..j] in lib.named)
      && (forall j :: |c| < j < |r.name| ==> GetSimpleType(lib, r.name[..j], d).None?)
      && ((r.lib == lib && |r.name| > |c| && GetSimpleType(lib, r.name, d) == Some(r.ordinal))
          || (r.name !in lib.named && r.ordinal == a && r.lib == Insert(lib, a, r.name, d)))
      && |r.name| <= if c in lib.named then MaxLen(lib.named.Keys) + 1 else |c|
    decreases MaxLen(lib.named.Keys) + 1 - |c|
  {
    if c in lib.named {
      var c' := c + "_";
      var r := Retry(lib, c, d, a);
      if GetSimpleType(lib, c', d).None? {
        RetryOutcome(lib, c', d, a);
        assert r == Retry(lib, c', d, a);
        assert r.name[..|c'|] == c';
        assert r.name[..|c|] == c' [..|c|];
        forall j | |c| <= j < |r.name| ensures r.name[..j] in lib.named {
          if j == |c| {
            assert r.name[..j] == c;
          }
        }
        forall j | |c| < j < |r.name| ensures GetSimpleType(lib, r.name[..j], d).None? {
          if j == |c'| {
            assert r.name[..j] == c';
          }
        }
      } else {
        assert r.name == c';
      }
    }
  }

  /** The loop never leaves a type it did not touch, and it keeps the library consistent. */
  lemma {:induction false} RetryKeepsValid(lib: TypeLib, c: string, d: Descr, a: nat)
    requires Valid(lib) && 0 < a < lib.next && a !in lib.names
    ensures var r := Retry(lib, c, d, a);
      && Valid(r.lib)
      && r.lib.next == lib.next
      && r.name in r.lib.named && r.lib.named[r.name] == TypeRow(r.ordinal, d)
      && NumberedType(r.lib, r.ordinal) == Some((r.name, d))
      && (forall n :: n in lib.named ==> n in r.lib.named && r.lib.named[n] == lib.named[n])
    decreases MaxLen(lib.named.Keys) + 1 - |c|
  {
    if c in lib.named {
      var c' := c + "_";
      if GetSimpleType(lib, c', d).None? {
        RetryKeepsValid(lib, c', d, a);
      }
    }
  }

  /** set_simple_die_type reuses an equal type of the same name and inserts nothing. */
  lemma SimpleDieTypeReuses(lib: TypeLib, name: string, d: Descr)
    requires name in lib.named && lib.named[name].descr == d
    ensures SimpleDieType(lib, Some(name), d) == Saved(lib.named[name].ordinal, lib, name)
  {
  }

  /**
   * set_simple_die_type always yields a type with the requested descriptor,
   * named after the request plus underscores, without changing any existing
   * type, and keeps the library consistent.
   */
  lemma SimpleDieTypeResult(lib: TypeLib, name: Option<string>, d: Descr)
    requires Valid(lib)
    ensures var r := SimpleDieType(lib, name, d);
      && Valid(r.lib)
      && NumberedType(r.lib, r.ordinal) == Some((r.name, d))
      && |name.GetOr("")| <= |r.name|
      && r.name[..|name.GetOr("")|] == name.GetOr("") && UnderscoresFrom(r.name, |name.GetOr("")|)
      && (forall n :: n in lib.named ==> n in r.lib.named && r.lib.named[n] == lib.named[n])
  {
    var r := SimpleDieType(lib, name, d);
    if !(name.Some? && GetSimpleType(lib, name.value, d).Some?) {
      var lib1 := lib.(next := lib.next + 1);
      assert lib.next !in lib.names;
      RetryKeepsValid(lib1, name.GetOr(""), d, lib.next);
      RetryOutcome(lib1, name.GetOr(""), d, lib.next);
    }
  }

  /** `lib'` keeps every named type of `lib` unchanged and has allocated at least as many ordinals. */
  ghost predicate LibGrows(lib: TypeLib, lib': TypeLib) {
    && (forall n :: n in lib.named ==> n in lib'.named && lib'.named[n] == lib.named[n])
    && lib.next <= lib'.next
  }

  lemma LibGrowsTransitive(a: TypeLib, b: TypeLib, c: TypeLib)
    requires LibGrows(a, b) && LibGrows(b, c)
    ensures LibGrows(a, c)
  {
  }

  /**
   * Whatever the library, set_simple_die_type never changes or removes a
   * named type; on a consistent library it keeps it consistent and the
   * ordinal it reports holds the requested descriptor.
   */
  lemma SimpleDieTypeKeeps(lib: TypeLib, name: Option<string>, d: Descr)
    ensures LibGrows(lib, SimpleDieType(lib, name, d).lib)
    ensures Valid(lib) ==>
      var r := SimpleDieType(lib, name, d);
      Valid(r.lib) && NumberedType(r.lib, r.ordinal) == Some((r.name, d)) && r.ordinal > 0
  {
    if !(name.Some? && GetSimpleType(lib, name.value, d).Some?) {
      RetryOutcome(lib.(next := lib.next + 1), name.GetOr(""), d, lib.next);
    }
    if Valid(lib) {
      SimpleDieTypeResult(lib, name, d);
    }
  }

  /** The names "Foo", "Foo_", ... "Foo" followed by k underscores. */
  function Suffixed(c: string, k: nat): (s: string)
    ensures |s| == |c| + k && s[..|c|] == c && UnderscoresFrom(s, |c|)
  {
    c + seq(k, _ => '_')
  }

  /**
   * Dedup convergence: when "Foo", "Foo_", ... with n-1 underscores all hold
   * types different from the new one and the next name is free, the new
   * type lands exactly on "Foo" with n underscores, after n + 1 attempts.
   */
  lemma DedupConvergence(lib: TypeLib, c: string, d: Descr, n: nat)
    requires Valid(lib)
    requires forall k :: 0 <= k < n ==> Suffixed(c, k) in lib.named && lib.named[Suffixed(c, k)].descr != d
    requires Suffixed(c, n) !in lib.named
    ensures SimpleDieType(lib, Some(c), d).name == Suffixed(c, n)
    ensures SimpleDieType(lib, Some(c), d).ordinal == lib.next
  {
    assert Suffixed(c, 0) == c;
    var lib1 := lib.(next := lib.next + 1);
    var r := Retry(lib1, c, d, lib.next);
    assert SimpleDieType(lib, Some(c), d) == r;
    RetryOutcome(lib1, c, d, lib.next);
    var target := Suffixed(c, n);
    SuffixedPrefix(r.name, c, n);
    assert |r.name| < |target| ==> r.name == Suffixed(c, |r.name| - |c|);
    assert |r.name| == |target| ==> r.name == target;
    if r.lib == lib1 && |r.name| > |c| && GetSimpleType(lib1, r.name, d) == Some(r.ordinal) {
      assert false;
    }
  }

  /** A name made of `c` and underscores starts with every shorter such name. */
  lemma SuffixedPrefix(s: string, c: string, m: nat)
    ensures |s| > |c| + m && s[..|c|] == c && UnderscoresFrom(s, |c|) ==>
      s[..|c| + m] == Suffixed(c, m)
  {
  }

  /** set_simple_die_type: the while(!saved) loop, on the library as a value. */
  method SetSimpleDieType(lib: TypeLib, name: Option<string>, d: Descr) returns (r: Saved)
    ensures r == SimpleDieType(lib, name, d)
  {
    var existing := if name.Some? then GetSimpleType(lib, name.value, d) else None;
    if existing.Some? {
      return Saved(existing.value, lib, name.value);
    }
    var alloced := lib.next;
    var lib1 := lib.(next := lib.next + 1);
    var newName := name.GetOr("");
    var saved := false;
    r := Saved(alloced, lib1, newName);
    while !saved
      invariant !saved ==> Retry(lib1, newName, d, alloced) == SimpleDieType(lib, name, d)
      invariant saved ==> r == SimpleDieType(lib, name, d)
      decreases if saved then 0 else 1, MaxLen(lib1.named.Keys) + 1 - |newName|
    {
      if newName !in lib1.named {
        r := Saved(alloced, Insert(lib1, alloced, newName, d), newName);
        saved := true;
      } else {
        newName := newName + "_";
        var found := GetSimpleType(lib1, newName, d);
        if found.Some? {
          r := Saved(found.value, lib1, newName);
          saved := true;
        }
      }
    }
  }
}

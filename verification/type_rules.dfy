/**
 * The pure synthesis rules of the resolver: enum widths, base-type
 * descriptors, modifier and array derivations. Descriptor bytes are the
 * type_t constants of the IDA SDK's typeinf.hpp.
 */
module TypeRules {
  import opened Wrappers
  import opened Dwarf
  import opened TypeLibrary

  // type_t constants
  const BT_VOID: bv8 := 0x01
  const BT_INT8: bv8 := 0x02
  const BT_INT16: bv8 := 0x03
  const BT_INT32: bv8 := 0x04
  const BT_INT64: bv8 := 0x05
  const BT_INT128: bv8 := 0x06
  const BT_INT: bv8 := 0x07
  const BT_BOOL: bv8 := 0x08
  const BT_FLOAT: bv8 := 0x09
  const BT_PTR: bv8 := 0x0A
  const BTMT_SIGNED: bv8 := 0x10
  const BTMT_USIGNED: bv8 := 0x20
  const BTMT_CHAR: bv8 := 0x30
  const BTMT_DEFBOOL: bv8 := 0x00
  const BTMT_BOOL1: bv8 := 0x10
  const BTMT_BOOL2: bv8 := 0x20
  const BTMT_BOOL4: bv8 := 0x30
  const BTMT_FLOAT: bv8 := 0x00
  const BTMT_DOUBLE: bv8 := 0x10
  const BTMT_LNGDBL: bv8 := 0x20
  const BTMT_SHRTFLT: bv8 := 0x30
  const BTM_CONST: bv8 := 0x40
  const BTM_VOLATILE: bv8 := 0x80
  const BTF_VOID: bv8 := 0x01
  const BTF_TYPEDEF: bv8 := 0x3D
  const TYPE_BASE_MASK: bv8 := 0x0F
  const TYPE_FLAGS_MASK: bv8 := 0x30
  const TYPE_FULL_MASK: bv8 := 0x3F
  const BTF_STRUCT: bv8 := 0x0D
  const BTF_UNION: bv8 := 0x1D
  const BTF_ENUM: bv8 := 0x2D

  /** is_type_typedef, is_type_struni and is_type_enum on a descriptor's first byte. */
  predicate IsTypeTypedef(t: bv8) { t & TYPE_FULL_MASK == BTF_TYPEDEF }
  predicate IsTypeStruni(t: bv8) { t & TYPE_FULL_MASK == BTF_STRUCT || t & TYPE_FULL_MASK == BTF_UNION }
  predicate IsTypeEnum(t: bv8) { t & TYPE_FULL_MASK == BTF_ENUM }

  /** The enum storage widths byteflag() ... owrdflag(). */
  datatype SizeFlag = ByteFlag | WordFlag | DwordFlag | QwordFlag | OwordFlag

  /** get_enum_size: a width of exactly 1, 2, 4, 8 or 16 bytes, else 4 bytes. */
  function EnumSize(size: u64): SizeFlag
  {
    match size
    case 1 => ByteFlag
    case 2 => WordFlag
    case 4 => DwordFlag
    case 8 => QwordFlag
    case 16 => OwordFlag
    case _ => DwordFlag
  }

  /** The number of bytes a width flag stands for. */
  function FlagBytes(f: SizeFlag): nat
  {
    match f
    case ByteFlag => 1
    case WordFlag => 2
    case DwordFlag => 4
    case QwordFlag => 8
    case OwordFlag => 16
  }

  /** An enum keeps its byte size when it is a supported width, and gets 4 bytes otherwise. */
  lemma EnumSizeRoundTrip(size: u64)
    ensures size in {1, 2, 4, 8, 16} ==> FlagBytes(EnumSize(size)) == size
    ensures size !in {1, 2, 4, 8, 16} ==> EnumSize(size) == DwordFlag
  {
  }

  /** The width code of an integer descriptor byte. */
  function IntWidthBits(size: u64): bv8
  {
    match size
    case 1 => BT_INT8
    case 2 => BT_INT16
    case 4 => BT_INT32
    case 8 => BT_INT64
    case 16 => BT_INT128
    case _ => BT_INT
  }

  /**
   * process_base_type's encoding switch as written: the primitive descriptor
   * for an encoding and a byte size, or None when the node stays useless.
   * The character encodings OR BTMT_CHAR over the sign bits.
   */
  function BaseTypeAsWritten(encoding: int, size: u64): Option<Descr>
  {
    if encoding == DW_ATE_boolean then
      Some([BT_BOOL | (match size
                       case 1 => BTMT_BOOL1
                       case 2 => BTMT_BOOL2
                       case 4 => BTMT_BOOL4
                       case _ => BTMT_DEFBOOL)])
    else if encoding == DW_ATE_float then
      Some([BT_FLOAT | (match size
                        case 2 => BTMT_SHRTFLT
                        case 4 => BTMT_FLOAT
                        case 8 => BTMT_DOUBLE
                        case 10 => BTMT_LNGDBL
                        case _ => 0)])
    else if encoding == DW_ATE_signed then Some([BTMT_SIGNED | IntWidthBits(size)])
    else if encoding == DW_ATE_unsigned then Some([BTMT_USIGNED | IntWidthBits(size)])
    else if encoding == DW_ATE_unsigned_char then Some([BTMT_USIGNED | BT_INT8 | BTMT_CHAR])
    else if encoding == DW_ATE_signed_char then Some([BTMT_SIGNED | BT_INT8 | BTMT_CHAR])
    else None
  }

  /** As written, unsigned char and signed char get one and the same descriptor. */
  lemma CharSignednessLost(size: u64)
    ensures BaseTypeAsWritten(DW_ATE_unsigned_char, size) == BaseTypeAsWritten(DW_ATE_signed_char, size)
    ensures BaseTypeAsWritten(DW_ATE_unsigned_char, size) == Some([BTMT_CHAR | BT_INT8])
  {
  }

  /**
   * The base-type descriptor with the character signedness kept: plain
   * (signed) char is BTMT_CHAR | BT_INT8 and unsigned char is
   * BTMT_USIGNED | BT_INT8. Every other encoding is as written.
   */
  function BaseType(encoding: int, size: u64): (r: Option<Descr>)
    ensures r.Some? ==> |r.value| == 1
    ensures encoding != DW_ATE_unsigned_char ==> r == BaseTypeAsWritten(encoding, size)
  {
    if encoding == DW_ATE_unsigned_char then Some([BTMT_USIGNED | BT_INT8])
    else BaseTypeAsWritten(encoding, size)
  }

  /** Only the six supported encodings produce a type; address and complex float do not. */
  lemma BaseTypeRecognized(encoding: int, size: u64)
    ensures BaseType(encoding, size).Some? <==>
      encoding in {DW_ATE_boolean, DW_ATE_float, DW_ATE_signed, DW_ATE_unsigned,
                   DW_ATE_signed_char, DW_ATE_unsigned_char}
  {
  }

  /** The integer a descriptor byte stands for: signed?, byte size (0 for the natural int). */
  function DecodeInt(b: bv8): Option<(bool, nat)>
  {
    var width := b & TYPE_BASE_MASK;
    var sign := b & TYPE_FLAGS_MASK;
    if sign != BTMT_SIGNED && sign != BTMT_USIGNED then None
    else if width == BT_INT8 then Some((sign == BTMT_SIGNED, 1))
    else if width == BT_INT16 then Some((sign == BTMT_SIGNED, 2))
    else if width == BT_INT32 then Some((sign == BTMT_SIGNED, 4))
    else if width == BT_INT64 then Some((sign == BTMT_SIGNED, 8))
    else if width == BT_INT128 then Some((sign == BTMT_SIGNED, 16))
    else if width == BT_INT then Some((sign == BTMT_SIGNED, 0))
    else None
  }

  /**
   * Integer descriptors decode back to their signedness and width; an
   * unsupported width falls back to the natural int of that signedness.
   */
  lemma IntDescriptorRoundTrip(encoding: int, size: u64)
    requires encoding == DW_ATE_signed || encoding == DW_ATE_unsigned
    ensures size in {1, 2, 4, 8, 16} ==>
      DecodeInt(BaseType(encoding, size).value[0]) == Some((encoding == DW_ATE_signed, size as nat))
    ensures size !in {1, 2, 4, 8, 16} ==>
      DecodeInt(BaseType(encoding, size).value[0]) == Some((encoding == DW_ATE_signed, 0))
  {
  }

  /** With the correction, signed and unsigned char decode to different integers. */
  lemma CharSignednessKept(size: u64)
    ensures DecodeInt(BaseType(DW_ATE_unsigned_char, size).value[0]) == Some((false, 1))
    ensures BaseType(DW_ATE_signed_char, size) != BaseType(DW_ATE_unsigned_char, size)
  {
  }

  /**
   * process_typed_modifier's tag switch: the derived name and descriptor for
   * a referent named `name` with descriptor `d`, or None for any other tag.
   */
  function Modified(tag: nat, name: string, d: Descr): Option<(string, Descr)>
  {
    if tag == DW_TAG_const_type then Some((name + " const", [d[0] | BTM_CONST] + d[1..]))
    else if tag == DW_TAG_volatile_type then Some((name + " volatile", [d[0] | BTM_VOLATILE] + d[1..]))
    else if tag == DW_TAG_pointer_type then Some((name + " *", [BT_PTR] + d))
    else None
  }

  /** The referent a pointer descriptor points to. */
  function Pointee(d: Descr): Option<seq<bv8>>
  {
    if d[0] == BT_PTR then Some(d[1..]) else None
  }

  /** A descriptor with the const or volatile bit set, and what it qualifies. */
  function Unqualified(d: Descr, bit: bv8): seq<bv8>
  {
    [d[0] & !bit] + d[1..]
  }

  /**
   * Modifier round trip: the derived type is named after the referent with
   * the qualifier's suffix, its descriptor carries the qualifier, and
   * removing the qualifier gives back the referent; only the three modifier
   * tags derive anything.
   */
  lemma ModifiedRoundTrip(tag: nat, name: string, d: Descr)
    ensures Modified(tag, name, d).Some? <==>
      tag in {DW_TAG_const_type, DW_TAG_volatile_type, DW_TAG_pointer_type}
    ensures tag == DW_TAG_pointer_type ==>
      var (n, p) := Modified(tag, name, d).value;
      n == name + " *" && Pointee(p) == Some(d)
    ensures tag == DW_TAG_const_type ==>
      var (n, q) := Modified(tag, name, d).value;
      && n == name + " const" && |q| == |d| && q[0] & BTM_CONST == BTM_CONST
      && Unqualified(q, BTM_CONST) == Unqualified(d, BTM_CONST)
      && (d[0] & BTM_CONST == 0 ==> Unqualified(q, BTM_CONST) == d)
    ensures tag == DW_TAG_volatile_type ==>
      var (n, q) := Modified(tag, name, d).value;
      && n == name + " volatile" && |q| == |d| && q[0] & BTM_VOLATILE == BTM_VOLATILE
      && Unqualified(q, BTM_VOLATILE) == Unqualified(d, BTM_VOLATILE)
      && (d[0] & BTM_VOLATILE == 0 ==> Unqualified(q, BTM_VOLATILE) == d)
  {
    if tag == DW_TAG_const_type {
      QualifierBit(d[0], BTM_CONST);
    } else if tag == DW_TAG_volatile_type {
      QualifierBit(d[0], BTM_VOLATILE);
    }
  }

  /** Setting a qualifier bit and clearing it again only clears it. */
  lemma QualifierBit(b: bv8, bit: bv8)
    ensures (b | bit) & bit == bit
    ensures (b | bit) & !bit == b & !bit
    ensures b & bit == 0 ==> b & !bit == b
  {
  }

  /** The decimal text of a natural number, as ostringstream prints it. */
  function Decimal(n: nat): (s: string)
    ensures |s| > 0
    decreases n
  {
    if n < 10 then [Digit(n)] else Decimal(n / 10) + [Digit(n % 10)]
  }

  function Digit(d: nat): char
    requires d < 10
  {
    "0123456789"[d]
  }

  predicate IsDigit(c: char) { '0' <= c <= '9' }

  /** Reading decimal text back. */
  function ParseDecimal(s: string): nat
    requires forall i :: 0 <= i < |s| ==> IsDigit(s[i])
  {
    if s == [] then 0
    else
      assert IsDigit(s[|s| - 1]);
      ParseDecimal(s[..|s| - 1]) * 10 + (s[|s| - 1] as int - '0' as int)
  }

  lemma {:induction false} DecimalRoundTrip(n: nat)
    ensures forall i :: 0 <= i < |Decimal(n)| ==> IsDigit(Decimal(n)[i])
    ensures ParseDecimal(Decimal(n)) == n
    decreases n
  {
    if n >= 10 {
      DecimalRoundTrip(n / 10);
      var s := Decimal(n);
      assert s[..|s| - 1] == Decimal(n / 10);
    }
  }

  /** Dwarf_Signed narrowed by static_cast<int> (32 bits, two's complement). */
  function ToInt32(x: i64): (r: int)
    ensures -0x8000_0000 <= r < 0x8000_0000
    ensures -0x8000_0000 <= x < 0x8000_0000 ==> r == x
  {
    var m := x % TWO_32 as int;
    if m < 0x8000_0000 then m else m - TWO_32 as int
  }

  /** process_array's name: "Elem[N]", or "Elem[]" when N is not positive. */
  function ArrayName(elem: string, size: i64): string
  {
    elem + "[" + (if size > 0 then Decimal(size as nat) else "") + "]"
  }

  /** The bracketed part of an array name, read back. */
  function ArrayBound(name: string, elem: string): Option<nat>
  {
    if |name| >= |elem| + 2 && name[..|elem|] == elem && name[|elem|] == '[' && name[|name| - 1] == ']' then
      var inside := name[|elem| + 1 .. |name| - 1];
      if inside == [] then Some(0)
      else if forall i :: 0 <= i < |inside| ==> IsDigit(inside[i]) then Some(ParseDecimal(inside))
      else None
    else None
  }

  /** An array name always carries its element name, and its bound reads back (0 for "[]"). */
  lemma ArrayNameRoundTrip(elem: string, size: i64)
    ensures ArrayBound(ArrayName(elem, size), elem) == Some(if size > 0 then size as nat else 0)
  {
    var name := ArrayName(elem, size);
    var inside := if size > 0 then Decimal(size as nat) else "";
    assert name == elem + "[" + inside + "]";
    assert name[..|elem|] == elem;
    assert name[|elem| + 1 .. |name| - 1] == inside;
    if size > 0 {
      DecimalRoundTrip(size as nat);
    }
  }
}

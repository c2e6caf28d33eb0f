/**
 * SimpleType: the JSON Schema primitive types, a flags enumeration whose
 * members are named "array", "boolean", ... ; `Missing` (0) has no name.
 */
module SimpleTypes {
  import opened Wrappers
  import NamedEnum

  /** The named members, in the order `Enum.GetValues` lists them after `Missing`. */
  datatype SimpleType = Array | Boolean | Integer | Null | Number | Object | String

  /** All named members in ascending value order. */
  function AllTypes(): (r: seq<SimpleType>)
    ensures |r| == 7
  {
    [Array, Boolean, Integer, Null, Number, Object, String]
  }

  function Bit(t: SimpleType): bv64
  {
    match t
    case Array => 0x01
    case Boolean => 0x02
    case Integer => 0x04
    case Null => 0x08
    case Number => 0x10
    case Object => 0x20
    case String => 0x40
  }

  /** The name table of SimpleType, sorted by name. */
  function NameTable(): seq<NamedEnum.Entry>
  {
    [("array", 0x01), ("boolean", 0x02), ("integer", 0x04), ("null", 0x08),
     ("number", 0x10), ("object", 0x20), ("string", 0x40)]
  }

  /** The converter writes and reads single SimpleType members by these names. */
  lemma NameTableExamples()
    ensures NamedEnum.KeysDistinct(NameTable())
    ensures NamedEnum.FirstName(NameTable(), Bit(Integer)) == Some("integer")
    ensures NamedEnum.FirstName(NameTable(), 0) == None
    ensures NamedEnum.ParseNames(NameTable(), ["integer", "number"]) == Some(BitOrTypes(Integer, Number))
    ensures NamedEnum.ParseNames(NameTable(), ["integer", "float"]) == None
  {
    var t := NameTable();
    assert t[1..][1..][1..] == t[3..];
    assert ["integer", "number"][..1] == ["integer"];
    assert ["integer", "float"][..1] == ["integer"];
  }

  /** The JSON name of a named SimpleType member. */
  function NameOf(t: SimpleType): string
  {
    match t
    case Array => "array"
    case Boolean => "boolean"
    case Integer => "integer"
    case Null => "null"
    case Number => "number"
    case Object => "object"
    case String => "string"
  }

  /** Every member's name reads back as its flag. */
  lemma NameLooksUp(t: SimpleType)
    ensures NamedEnum.Lookup(NameTable(), NameOf(t)) == Some(Bit(t))
  {
    NameTableExamples();
    var i := match t
      case Array => 0 case Boolean => 1 case Integer => 2 case Null => 3
      case Number => 4 case Object => 5 case String => 6;
    NamedEnum.LookupEntry(NameTable(), i);
  }

  /** `["boolean", name]` parses to Boolean combined with the named member. */
  lemma BooleanOr(t: SimpleType)
    ensures NamedEnum.ParseNames(NameTable(), ["boolean", NameOf(t)]) == Some(BitOrTypes(Boolean, t))
  {
    NameLooksUp(Boolean);
    NameLooksUp(t);
    assert ["boolean", NameOf(t)][..1] == ["boolean"];
    assert ["boolean"][..0] == [];
  }

  /** A combination of flags is written as the list of its names. */
  lemma FlagNamesExample()
    ensures NamedEnum.Names(NameTable(), BitOrTypes(Integer, Number)) == Some(["integer", "number"])
  {
    var t := NameTable();
    var v := BitOrTypes(Integer, Number);
    assert v == 0x14;
    assert t[..7] == t;
    assert forall k :: 0 < k <= 7 ==> t[..k][..k - 1] == t[..k - 1];
    assert NamedEnum.Overlapping(t[..1], v) == [];
    assert NamedEnum.Overlapping(t[..2], v) == [];
    assert NamedEnum.Overlapping(t[..3], v) == [t[2]];
    assert NamedEnum.Overlapping(t[..4], v) == [t[2]];
    assert NamedEnum.Overlapping(t[..5], v) == [t[2], t[4]];
    assert NamedEnum.Overlapping(t[..7], v) == [t[2], t[4]];
    var es := [t[2], t[4]];
    assert es[..1] == [t[2]] && [t[2]][..0] == [];
    assert NamedEnum.Union([t[2]]) == NamedEnum.BitOr(0, 0x04) == 0x04;
    assert NamedEnum.Union(es) == NamedEnum.BitOr(0x04, 0x10) == 0x14;
    assert NamedEnum.NamesOf(es) == ["integer", "number"];
  }

  function BitOrTypes(a: SimpleType, b: SimpleType): bv64
  {
    NamedEnum.BitOr(Bit(a), Bit(b))
  }
}

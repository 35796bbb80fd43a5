/** FilterEnumType.String (zfilterenumtype_strings.go). The generated code is a
    copy of FilterEnumFlags.String: it keeps its own table with the same six
    flag names and the same "FilterEnumFlags(" prefix, so an enumeration type
    renders exactly like the flags value with the same number. */
module FilterEnumTypeStrings {
  import opened Types
  import BitNames
  import FilterEnumFlagsStrings

  /** _FilterEnumTypeNames: the same six names as the flags table. */
  const FilterEnumTypeNames: seq<string> := [
    "BestTerminatingMatch",
    "Sorted",
    "BootTimeOnly",
    "IncludeBootTime",
    "IncludeDisabled",
    "Reserved1"
  ]

  /** The type table has six non-empty, distinct names free of '|', entry
      for entry the flag table. */
  lemma TypeNamesWellFormed()
    ensures BitNames.WellFormedTable(FilterEnumTypeNames)
    ensures FilterEnumTypeNames == FilterEnumFlagsStrings.FilterEnumFlagsNames
  {
  }

  /** The names String collects for `e`, in ascending bit order. */
  function Names(e: FilterEnumType): seq<string>
  {
    BitNames.Collect(FilterEnumTypeNames, e, BitNames.Width)
  }

  /** The string String returns for `e`: it starts with "FilterEnumFlags(",
      not "FilterEnumType(", and ends with ")". */
  function Render(e: FilterEnumType): (r: string)
    ensures |r| >= 17 && r[..16] == "FilterEnumFlags(" && r[|r| - 1] == ')'
  {
    BitNames.Render("FilterEnumFlags(", FilterEnumTypeNames, e)
  }

  /** FilterEnumType.String: the same loop over its own table. */
  method String(e: FilterEnumType) returns (s: string)
    ensures s == Render(e)
    ensures s == "FilterEnumFlags(" + BitNames.Join(Names(e), "|") + ")"
  {
    var flags: seq<string> := [];
    for i := 0 to |FilterEnumTypeNames|
      invariant flags == BitNames.Collect(FilterEnumTypeNames, e, i)
    {
      if (e >> i) & 1 == 1 {
        flags := flags + [FilterEnumTypeNames[i]];
      }
    }
    s := "FilterEnumFlags(" + BitNames.Join(flags, "|") + ")";
  }

  /** For equal numbers the type renders exactly as the flags value. */
  lemma SameAsFlags(e: FilterEnumType)
    ensures Render(e) == FilterEnumFlagsStrings.Render(e)
    ensures Names(e) == FilterEnumFlagsStrings.Names(e)
  {
    assert FilterEnumTypeNames == FilterEnumFlagsStrings.FilterEnumFlagsNames;
  }

  /** Entry i of the type table is among the names exactly when bit i is set. */
  lemma NameIffBit(e: FilterEnumType, i: nat)
    requires i < |FilterEnumTypeNames|
    ensures FilterEnumTypeNames[i] in Names(e) <==> BitNames.Bit(e, i)
  {
    SameAsFlags(e);
    FilterEnumFlagsStrings.NameIffBit(e, i);
  }

  /** The names are the entries of the set bits, in ascending bit order. */
  lemma NamesAscending(e: FilterEnumType)
    ensures |Names(e)| == |BitNames.SetBits(e, 0, BitNames.Width)|
    ensures forall p :: 0 <= p < |Names(e)| ==>
      BitNames.SetBits(e, 0, BitNames.Width)[p] < |FilterEnumTypeNames|
    ensures forall p :: 0 <= p < |Names(e)| ==>
      Names(e)[p] == FilterEnumTypeNames[BitNames.SetBits(e, 0, BitNames.Width)[p]]
    ensures forall p, q :: 0 <= p < q < |Names(e)| ==>
      BitNames.SetBits(e, 0, BitNames.Width)[p] < BitNames.SetBits(e, 0, BitNames.Width)[q]
  {
    SameAsFlags(e);
    FilterEnumFlagsStrings.NamesAscending(e);
  }

  /** Bits 6 and up have no effect on the output. */
  lemma HighBitsIgnored(e: FilterEnumType)
    ensures Render(e) == Render(e & 0x3F)
  {
    SameAsFlags(e);
    SameAsFlags(e & 0x3F);
    FilterEnumFlagsStrings.HighBitsIgnored(e);
  }

  /** The value 0 renders as "FilterEnumFlags()". */
  lemma Zero()
    ensures Render(0) == "FilterEnumFlags()"
  {
    SameAsFlags(0);
    FilterEnumFlagsStrings.NoFlags(0);
  }
}

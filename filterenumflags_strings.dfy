/** FilterEnumFlags.String (zfilterenumflags_strings.go): the set flags of a
    FilterEnumFlags value by name, joined with '|', inside "FilterEnumFlags(...)". */
module FilterEnumFlagsStrings {
  import opened Types
  import opened Wrappers
  import BitNames

  /** _FilterEnumFlagsNames: the name of bit i is entry i. */
  const FilterEnumFlagsNames: seq<string> := [
    "BestTerminatingMatch",
    "Sorted",
    "BootTimeOnly",
    "IncludeBootTime",
    "IncludeDisabled",
    "Reserved1"
  ]

  lemma NamesWellFormed()
    ensures BitNames.WellFormedTable(FilterEnumFlagsNames)
  {
  }

  /** The names String collects for `e`, in ascending bit order. */
  function Names(e: FilterEnumFlags): seq<string>
  {
    BitNames.Collect(FilterEnumFlagsNames, e, BitNames.Width)
  }

  /** The string String returns for `e`: always "FilterEnumFlags(" ... ")". */
  function Render(e: FilterEnumFlags): (r: string)
    ensures |r| >= 17 && r[..16] == "FilterEnumFlags(" && r[|r| - 1] == ')'
  {
    BitNames.Render("FilterEnumFlags(", FilterEnumFlagsNames, e)
  }

  /** FilterEnumFlags.String: scan bits 0 .. 5, collect the names of the set
      ones, join them with '|' and wrap them. */
  method String(e: FilterEnumFlags) returns (s: string)
    ensures s == Render(e)
    ensures s == "FilterEnumFlags(" + BitNames.Join(Names(e), "|") + ")"
  {
    var flags: seq<string> := [];
    for i := 0 to |FilterEnumFlagsNames|
      invariant flags == BitNames.Collect(FilterEnumFlagsNames, e, i)
    {
      if (e >> i) & 1 == 1 {
        flags := flags + [FilterEnumFlagsNames[i]];
      }
    }
    s := "FilterEnumFlags(" + BitNames.Join(flags, "|") + ")";
  }

  /** Name i is among the output's names exactly when bit i is set. */
  lemma NameIffBit(e: FilterEnumFlags, i: nat)
    requires i < |FilterEnumFlagsNames|
    ensures FilterEnumFlagsNames[i] in Names(e) <==> BitNames.Bit(e, i)
  {
    NamesWellFormed();
    BitNames.CollectMember(FilterEnumFlagsNames, e, |FilterEnumFlagsNames|, i);
  }

  /** The output's names are the entries of the set bits, in ascending bit
      order. */
  lemma NamesAscending(e: FilterEnumFlags)
    ensures |Names(e)| == |BitNames.SetBits(e, 0, BitNames.Width)|
    ensures forall p :: 0 <= p < |Names(e)| ==>
      BitNames.SetBits(e, 0, BitNames.Width)[p] < |FilterEnumFlagsNames|
    ensures forall p :: 0 <= p < |Names(e)| ==>
      Names(e)[p] == FilterEnumFlagsNames[BitNames.SetBits(e, 0, BitNames.Width)[p]]
    ensures forall p, q :: 0 <= p < q < |Names(e)| ==>
      BitNames.SetBits(e, 0, BitNames.Width)[p] < BitNames.SetBits(e, 0, BitNames.Width)[q]
  {
    BitNames.CollectIsSetBits(FilterEnumFlagsNames, e, BitNames.Width);
    BitNames.SetBitsSpec(e, 0, BitNames.Width);
  }

  /** Bits 6 and up have no effect on the output. */
  lemma HighBitsIgnored(e: FilterEnumFlags)
    ensures Render(e) == Render(e & 0x3F)
  {
    BitNames.CollectLowBits(FilterEnumFlagsNames, e, BitNames.Width);
  }

  /** A value with none of the six low bits set renders as "FilterEnumFlags()". */
  lemma NoFlags(e: FilterEnumFlags)
    requires e & 0x3F == 0
    ensures Render(e) == "FilterEnumFlags()"
  {
    HighBitsIgnored(e);
    assert BitNames.Collect(FilterEnumFlagsNames, 0, BitNames.Width) == [];
  }

  /** The output names as many flags as bits 0 .. 5 of `e` has set. */
  lemma NameCount(e: FilterEnumFlags)
    ensures |Names(e)| == BitNames.Ones(e, BitNames.Width)
  {
    BitNames.CollectCount(FilterEnumFlagsNames, e, BitNames.Width);
  }

  /** The output can be read back: it tells exactly which of bits 0 .. 5 are set. */
  lemma ParseString(e: FilterEnumFlags)
    ensures BitNames.Parse("FilterEnumFlags(", FilterEnumFlagsNames, Render(e))
      == Some(BitNames.SetBitSet(e, BitNames.Width))
  {
    NamesWellFormed();
    BitNames.ParseRender("FilterEnumFlags(", FilterEnumFlagsNames, e);
  }

  /** Two values render alike exactly when they agree on bits 0 .. 5. */
  lemma RenderInjective(a: FilterEnumFlags, b: FilterEnumFlags)
    ensures Render(a) == Render(b) <==> forall i :: 0 <= i < BitNames.Width ==> BitNames.Bit(a, i) == BitNames.Bit(b, i)
  {
    if Render(a) == Render(b) {
      ParseString(a);
      ParseString(b);
      forall i | 0 <= i < BitNames.Width
        ensures BitNames.Bit(a, i) == BitNames.Bit(b, i)
      {
        assert i in BitNames.SetBitSet(a, BitNames.Width) <==> i in BitNames.SetBitSet(b, BitNames.Width);
      }
    }
    if forall i :: 0 <= i < BitNames.Width ==> BitNames.Bit(a, i) == BitNames.Bit(b, i) {
      BitNames.CollectSameBits(FilterEnumFlagsNames, a, b, BitNames.Width);
    }
  }
}

/** What the two generated String methods share: listing the names of the set
    bits of a 32-bit value from a name table, joining them with strings.Join,
    and wrapping the result in a type prefix and a closing parenthesis.

    Beside the rendering itself this module gives an independent description of
    the listed names (SetBits) and an inverse (Parse), and proves that both
    agree with the rendering. */
module BitNames {
  import opened Wrappers

  /** Bit i of e, tested as the source does: ((e >> i) & 1) == 1. */
  predicate Bit(e: bv32, i: nat)
    requires i < 32
  {
    (e >> i) & 1 == 1
  }

  /** Both name tables have six entries, one per bit 0 .. 5. */
  const Width: nat := 6

  /** A name table the renderers can use and Parse can invert: one entry per
      bit 0 .. 5, each non-empty, free of the separator and unique. */
  predicate WellFormedTable(table: seq<string>)
  {
    |table| == Width &&
    (forall i :: 0 <= i < |table| ==> table[i] != "" && '|' !in table[i]) &&
    (forall i, j :: 0 <= i < j < |table| ==> table[i] != table[j])
  }

  /** The names of the set bits among bits 0 .. n-1, in the order an upward
      scan over the bits appends them: lowest bit first. */
  function Collect(table: seq<string>, e: bv32, n: nat): (r: seq<string>)
    requires n <= |table| && n <= Width
    ensures |r| <= n
    ensures forall k :: 0 <= k < |r| ==> r[k] in table[..n]
  {
    if n == 0 then []
    else Collect(table, e, n - 1) + (if Bit(e, n - 1) then [table[n - 1]] else [])
  }

  /** The total length of the parts. */
  function TotalLength(parts: seq<string>): nat
  {
    if parts == [] then 0 else |parts[0]| + TotalLength(parts[1..])
  }

  /** strings.Join: the parts with `sep` between consecutive ones. No parts
      give the empty string; otherwise the result starts with the first part
      and is as long as all parts plus one separator between each two
      consecutive ones. */
  function Join(parts: seq<string>, sep: string): (r: string)
    ensures parts == [] ==> r == ""
    ensures parts != [] ==> |r| == TotalLength(parts) + (|parts| - 1) * |sep|
    ensures parts != [] ==> r[..|parts[0]|] == parts[0]
  {
    if |parts| == 0 then ""
    else if |parts| == 1 then parts[0]
    else parts[0] + sep + Join(parts[1..], sep)
  }

  /** The rendering shared by both String methods: the prefix, then the
      names, then a closing parenthesis. */
  function Render(prefix: string, table: seq<string>, e: bv32): (r: string)
    requires |table| == Width
    ensures |r| > |prefix| && r[..|prefix|] == prefix && r[|r| - 1] == ')'
    ensures |r| == |prefix| + |Join(Collect(table, e, Width), "|")| + 1
  {
    prefix + Join(Collect(table, e, |table|), "|") + ")"
  }

  // ---------------------------------------------------------------------
  // An independent description of Collect: the indices of the set bits.

  /** The indices of the set bits in lo .. n-1, ascending, listed from the
      bottom up. */
  function SetBits(e: bv32, lo: nat, n: nat): seq<nat>
    requires n <= Width
    decreases n - lo
  {
    if n <= lo then []
    else (if Bit(e, lo) then [lo] else []) + SetBits(e, lo + 1, n)
  }

  /** SetBits lists exactly the set bits of the range, strictly ascending. */
  lemma {:induction false} SetBitsSpec(e: bv32, lo: nat, n: nat)
    requires n <= Width
    ensures forall p :: 0 <= p < |SetBits(e, lo, n)| ==>
      lo <= SetBits(e, lo, n)[p] < n && Bit(e, SetBits(e, lo, n)[p])
    ensures forall p, q :: 0 <= p < q < |SetBits(e, lo, n)| ==>
      SetBits(e, lo, n)[p] < SetBits(e, lo, n)[q]
    ensures forall k :: lo <= k < n && Bit(e, k) ==> k in SetBits(e, lo, n)
    decreases n - lo
  {
    if lo < n {
      SetBitsSpec(e, lo + 1, n);
    }
  }

  /** Taking one more bit at the top appends its index when it is set. */
  lemma {:induction false} SetBitsSnoc(e: bv32, lo: nat, n: nat)
    requires lo < n <= Width
    ensures SetBits(e, lo, n) == SetBits(e, lo, n - 1) + (if Bit(e, n - 1) then [n - 1] else [])
    decreases n - lo
  {
    if lo < n - 1 {
      SetBitsSnoc(e, lo + 1, n);
    }
  }

  /** The collected names are the table entries at the set-bit indices, in
      ascending bit order. */
  lemma {:induction false} CollectIsSetBits(table: seq<string>, e: bv32, n: nat)
    requires n <= |table| && n <= Width
    ensures |Collect(table, e, n)| == |SetBits(e, 0, n)|
    ensures forall p :: 0 <= p < |SetBits(e, 0, n)| ==>
      SetBits(e, 0, n)[p] < |table| && Collect(table, e, n)[p] == table[SetBits(e, 0, n)[p]]
  {
    SetBitsSpec(e, 0, n);
    if n > 0 {
      CollectIsSetBits(table, e, n - 1);
      SetBitsSnoc(e, 0, n);
    }
  }

  /** Name k is collected exactly when bit k is set. */
  lemma {:induction false} CollectMember(table: seq<string>, e: bv32, n: nat, k: nat)
    requires WellFormedTable(table) && n <= |table|
    requires k < n
    ensures table[k] in Collect(table, e, n) <==> Bit(e, k)
  {
    if k < n - 1 {
      CollectMember(table, e, n - 1, k);
      assert table[n - 1] != table[k];
    } else {
      CollectAvoids(table, e, n - 1, k);
    }
  }

  /** Names from index n on are never collected from the bits below n. */
  lemma {:induction false} CollectAvoids(table: seq<string>, e: bv32, n: nat, k: nat)
    requires WellFormedTable(table) && n <= k < |table|
    ensures table[k] !in Collect(table, e, n)
  {
    if n > 0 {
      CollectAvoids(table, e, n - 1, k);
      assert table[n - 1] != table[k];
    }
  }

  // ---------------------------------------------------------------------
  // Counting: the number of names is the number of set bits.

  /** The number of set bits among the low n bits of x, counted from the
      bottom by shifting. */
  function Ones(x: bv32, n: nat): nat
    requires n <= Width
  {
    if n == 0 then 0
    else (if x & 1 == 1 then 1 else 0) + Ones(x >> 1, n - 1)
  }

  /** Shifting right by one moves bit i + 1 down to bit i. */
  lemma ShiftBit(x: bv32, i: nat)
    requires i + 1 < Width
    ensures Bit(x >> 1, i) == Bit(x, i + 1)
  {
    if i == 0 {
    } else if i == 1 {
    } else if i == 2 {
    } else if i == 3 {
    } else {
      assert i == 4;
    }
  }

  /** Listing the bits of x from lo + 1 is listing those of x >> 1 from lo. */
  lemma {:induction false} SetBitsShift(x: bv32, lo: nat, n: nat)
    requires lo <= n && n + 1 <= Width
    ensures |SetBits(x, lo + 1, n + 1)| == |SetBits(x >> 1, lo, n)|
    decreases n - lo
  {
    if lo < n {
      ShiftBit(x, lo);
      SetBitsShift(x, lo + 1, n);
    }
  }

  lemma {:induction false} SetBitsCount(x: bv32, n: nat)
    requires n <= Width
    ensures |SetBits(x, 0, n)| == Ones(x, n)
  {
    if n > 0 {
      assert Bit(x, 0) == (x & 1 == 1);
      SetBitsShift(x, 0, n - 1);
      SetBitsCount(x >> 1, n - 1);
    }
  }

  /** The number of collected names is the number of set bits below n. */
  lemma CollectCount(table: seq<string>, e: bv32, n: nat)
    requires n <= |table| && n <= Width
    ensures |Collect(table, e, n)| == Ones(e, n)
  {
    CollectIsSetBits(table, e, n);
    SetBitsCount(e, n);
  }

  // ---------------------------------------------------------------------
  // Bits at and above n are not looked at.

  /** Bits 6 and up are never looked at. */
  lemma {:induction false} CollectLowBits(table: seq<string>, e: bv32, n: nat)
    requires n <= |table| && n <= Width
    ensures Collect(table, e, n) == Collect(table, e & 0x3F, n)
  {
    if n > 0 {
      MaskedBit(e, n - 1);
      CollectLowBits(table, e, n - 1);
    }
  }

  lemma MaskedBit(e: bv32, i: nat)
    requires i < Width
    ensures Bit(e & 0x3F, i) == Bit(e, i)
  {
    if i == 0 {
    } else if i == 1 {
    } else if i == 2 {
    } else if i == 3 {
    } else if i == 4 {
    } else {
      assert i == 5;
    }
  }

  /** Values that agree on the bits below n collect the same names. */
  lemma {:induction false} CollectSameBits(table: seq<string>, a: bv32, b: bv32, n: nat)
    requires n <= |table| && n <= Width
    requires forall i :: 0 <= i < n ==> Bit(a, i) == Bit(b, i)
    ensures Collect(table, a, n) == Collect(table, b, n)
  {
    if n > 0 {
      CollectSameBits(table, a, b, n - 1);
    }
  }

  // ---------------------------------------------------------------------
  // The inverse: Fields undoes Join, Parse undoes Render.

  /** The first index of c in s. */
  function FirstIndex(s: string, c: char): (i: nat)
    requires c in s
    ensures i < |s| && s[i] == c && c !in s[..i]
  {
    if s[0] == c then 0
    else
      assert s == [s[0]] + s[1..];
      1 + FirstIndex(s[1..], c)
  }

  /** The pieces of a non-empty s between occurrences of c. */
  function Pieces(s: string, c: char): seq<string>
    decreases |s|
  {
    if c !in s then [s]
    else
      var i := FirstIndex(s, c);
      [s[..i]] + Pieces(s[i + 1..], c)
  }

  /** strings.Split, except that the empty string has no fields. */
  function Fields(s: string, c: char): seq<string>
  {
    if s == "" then [] else Pieces(s, c)
  }

  lemma {:induction false} PiecesJoin(parts: seq<string>, c: char)
    requires parts != []
    requires forall i :: 0 <= i < |parts| ==> c !in parts[i]
    ensures Pieces(Join(parts, [c]), c) == parts
  {
    if |parts| > 1 {
      var s := Join(parts, [c]);
      var rest := Join(parts[1..], [c]);
      assert s == parts[0] + [c] + rest;
      assert s[|parts[0]|] == c;
      var i := FirstIndex(s, c);
      assert s[..i] == parts[0];
      assert s[i + 1..] == rest;
      PiecesJoin(parts[1..], c);
    }
  }

  /** Fields undoes Join when no part is empty or holds the separator. */
  lemma FieldsJoin(parts: seq<string>, c: char)
    requires forall i :: 0 <= i < |parts| ==> parts[i] != "" && c !in parts[i]
    ensures Fields(Join(parts, [c]), c) == parts
  {
    if parts != [] {
      PiecesJoin(parts, c);
      JoinNonEmpty(parts, [c]);
    }
  }

  lemma {:induction false} JoinNonEmpty(parts: seq<string>, sep: string)
    requires parts != [] && parts[0] != ""
    ensures Join(parts, sep) != ""
  {
    assert |parts| > 1 ==> Join(parts, sep) == parts[0] + sep + Join(parts[1..], sep);
  }

  /** The first index of name in table. */
  function IndexOf(table: seq<string>, name: string): (r: Option<nat>)
    ensures r.Some? ==> r.value < |table| && table[r.value] == name
    ensures r.None? ==> name !in table
  {
    if table == [] then None
    else if table[0] == name then Some(0)
    else match IndexOf(table[1..], name)
      case None => None
      case Some(i) => Some(i + 1)
  }

  /** The bit positions the names stand for; None for an unknown name. */
  function Decode(table: seq<string>, names: seq<string>): Option<set<nat>>
  {
    if names == [] then Some({})
    else
      match Decode(table, names[..|names| - 1])
      case None => None
      case Some(bits) =>
        match IndexOf(table, names[|names| - 1])
        case None => None
        case Some(i) => Some(bits + {i})
  }

  /** Reads back a rendered string: the prefix, the names joined by '|', ')'. */
  function Parse(prefix: string, table: seq<string>, s: string): Option<set<nat>>
  {
    if |s| < |prefix| + 1 || s[..|prefix|] != prefix || s[|s| - 1] != ')' then None
    else Decode(table, Fields(s[|prefix|..|s| - 1], '|'))
  }

  /** The positions of the set bits below n. */
  function SetBitSet(e: bv32, n: nat): set<nat>
    requires n <= Width
  {
    set i: nat | i < n && Bit(e, i)
  }

  lemma IndexOfUnique(table: seq<string>, k: nat)
    requires WellFormedTable(table) && k < |table|
    ensures IndexOf(table, table[k]) == Some(k)
  {
    assert table[k] in table;
  }

  /** The set bits below n + 1 are those below n and possibly n. */
  lemma SetBitSetStep(e: bv32, n: nat)
    requires n < Width
    ensures SetBitSet(e, n + 1) == SetBitSet(e, n) + (if Bit(e, n) then {n} else {})
  {
  }

  /** Appending a known name adds its index to the decoded bits. */
  lemma DecodeAppend(table: seq<string>, names: seq<string>, k: nat)
    requires WellFormedTable(table) && k < |table|
    requires Decode(table, names).Some?
    ensures Decode(table, names + [table[k]]) == Some(Decode(table, names).value + {k})
  {
    var longer := names + [table[k]];
    assert longer[..|longer| - 1] == names;
    IndexOfUnique(table, k);
  }

  /** Decoding the collected names gives back the set bits below n. */
  lemma {:induction false} DecodeCollect(table: seq<string>, e: bv32, n: nat)
    requires WellFormedTable(table) && n <= |table|
    ensures Decode(table, Collect(table, e, n)) == Some(SetBitSet(e, n))
  {
    if n > 0 {
      DecodeCollect(table, e, n - 1);
      SetBitSetStep(e, n - 1);
      if Bit(e, n - 1) {
        assert Collect(table, e, n) == Collect(table, e, n - 1) + [table[n - 1]];
        DecodeAppend(table, Collect(table, e, n - 1), n - 1);
        assert SetBitSet(e, n) == SetBitSet(e, n - 1) + {n - 1};
      } else {
        assert Collect(table, e, n) == Collect(table, e, n - 1);
        assert SetBitSet(e, n) == SetBitSet(e, n - 1);
      }
    } else {
      assert SetBitSet(e, 0) == {};
    }
  }

  /** Parse strips the prefix and the closing parenthesis and decodes what
      lies between. */
  lemma ParseFrame(prefix: string, table: seq<string>, inner: string)
    ensures Parse(prefix, table, prefix + inner + ")") == Decode(table, Fields(inner, '|'))
  {
    var s := prefix + inner + ")";
    assert s[..|prefix|] == prefix;
    assert s[|prefix|..|s| - 1] == inner;
  }

  /** Parse inverts Render: the string gives back which of the six bits are set. */
  lemma ParseRender(prefix: string, table: seq<string>, e: bv32)
    requires WellFormedTable(table)
    ensures Parse(prefix, table, Render(prefix, table, e)) == Some(SetBitSet(e, Width))
  {
    var names := Collect(table, e, Width);
    ParseFrame(prefix, table, Join(names, "|"));
    FieldsJoin(names, '|');
    DecodeCollect(table, e, Width);
  }
}

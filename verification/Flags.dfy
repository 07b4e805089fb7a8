/** src/flag.c and src/lookup.c: bit sets that grow as needed, and their text forms, lists of names from a
    table separated by commas. */
module Flags {
  import opened Text

  // ---------------------------------------------------------------- words

  /** 1 << k */
  function Mask(k: nat): bv32
    requires k < 32
  {
    if k == 0 then 1 else Mask(k - 1) << 1
  }

  predicate Meets(w: bv32, a: bv32) {
    w & a != 0
  }

  function OrWord(w: bv32, v: bv32): bv32 {
    w | v
  }

  function XorWord(w: bv32, v: bv32): bv32 {
    w ^ v
  }

  function WithoutWord(w: bv32, v: bv32): bv32 {
    w & !v
  }

  predicate WordHas(w: bv32, k: nat)
    requires k < 32
  {
    Meets(w, Mask(k))
  }

  predicate OneBit(a: bv32) {
    a == 0x01 || a == 0x02 || a == 0x04 || a == 0x08 || a == 0x10 || a == 0x20 || a == 0x40 || a == 0x80
  }

  lemma {:induction false} Masks(k: nat)
    requires k < 8
    ensures Mask(k) == if k == 0 then 0x01 else if k == 1 then 0x02 else if k == 2 then 0x04 else if k == 3 then 0x08
                       else if k == 4 then 0x10 else if k == 5 then 0x20 else if k == 6 then 0x40 else 0x80
  {
    if k > 0 {
      Masks(k - 1);
    }
  }

  lemma {:induction false} MasksDiffer(j: nat, k: nat)
    requires j < 8 && k < 8
    ensures OneBit(Mask(j)) && (Mask(j) == Mask(k) <==> j == k)
  {
    Masks(j);
    Masks(k);
    hide Mask;
  }

  lemma {:induction false} OneBitOfWord(w: bv32, a: bv32)
    requires OneBit(a)
    ensures w & a == 0 || w & a == a
  {
    if a == 0x01 { assert w & 0x01 == 0 || w & 0x01 == 0x01; }
    else if a == 0x02 { assert w & 0x02 == 0 || w & 0x02 == 0x02; }
    else if a == 0x04 { assert w & 0x04 == 0 || w & 0x04 == 0x04; }
    else if a == 0x08 { assert w & 0x08 == 0 || w & 0x08 == 0x08; }
    else if a == 0x10 { assert w & 0x10 == 0 || w & 0x10 == 0x10; }
    else if a == 0x20 { assert w & 0x20 == 0 || w & 0x20 == 0x20; }
    else if a == 0x40 { assert w & 0x40 == 0 || w & 0x40 == 0x40; }
    else { assert w & 0x80 == 0 || w & 0x80 == 0x80; }
  }

  lemma {:induction false} OneBitsMeet(a: bv32, b: bv32)
    requires OneBit(a) && OneBit(b)
    ensures Meets(b, a) <==> a == b
  {
    if a == b {
      assert a & a == a && a != 0;
    } else {
      OneBitOfWord(b, a);
      OneBitOfWord(a, b);
      assert b & a == a & b && a != 0 && b != 0;
    }
  }

  lemma {:induction false} OrMeets(w: bv32, v: bv32, a: bv32)
    ensures Meets(OrWord(w, v), a) <==> Meets(w, a) || Meets(v, a)
  {
    assert (w | v) & a == (w & a) | (v & a);
  }

  lemma {:induction false} XorMeets(w: bv32, v: bv32, a: bv32)
    requires OneBit(a)
    ensures Meets(XorWord(w, v), a) <==> (Meets(w, a) != Meets(v, a))
  {
    assert (w ^ v) & a == (w & a) ^ (v & a);
    OneBitOfWord(w, a);
    OneBitOfWord(v, a);
    assert a ^ a == 0 && (a ^ 0) == a && (0 ^ a) == a && (0 as bv32) ^ 0 == 0;
  }

  lemma {:induction false} WithoutOther(w: bv32, b: bv32, a: bv32)
    requires b & a == 0
    ensures w & !b & a == w & a
  {
  }

  lemma {:induction false} WithoutSame(w: bv32, a: bv32)
    ensures w & !a & a == 0
  {
  }

  lemma {:induction false} WithoutMeets(w: bv32, b: bv32, a: bv32)
    requires OneBit(a) && OneBit(b)
    ensures Meets(WithoutWord(w, b), a) <==> Meets(w, a) && a != b
  {
    if a == b {
      WithoutSame(w, a);
    } else {
      OneBitsMeet(a, b);
      assert b & a == 0;
      WithoutOther(w, b, a);
    }
  }

  lemma {:induction false} NothingMeets(a: bv32)
    ensures !Meets(0, a)
  {
  }

  /** What the operations on words do to each place. */
  lemma {:induction false} WordOps(w: bv32, v: bv32, j: nat, k: nat)
    requires j < 8 && k < 8
    ensures WordHas(OrWord(w, Mask(k)), j) <==> WordHas(w, j) || j == k
    ensures WordHas(WithoutWord(w, Mask(k)), j) <==> WordHas(w, j) && j != k
    ensures WordHas(XorWord(w, Mask(k)), j) <==> (WordHas(w, j) != (j == k))
    ensures WordHas(OrWord(w, v), j) <==> WordHas(w, j) || WordHas(v, j)
    ensures WordHas(XorWord(w, v), j) <==> (WordHas(w, j) != WordHas(v, j))
    ensures !WordHas(0, j)
  {
    hide Mask, Meets, OrWord, XorWord, WithoutWord, OneBit;
    MasksDiffer(j, k);
    MasksDiffer(k, j);
    OneBitsMeet(Mask(j), Mask(k));
    OrMeets(w, Mask(k), Mask(j));
    OrMeets(w, v, Mask(j));
    XorMeets(w, Mask(k), Mask(j));
    XorMeets(w, v, Mask(j));
    WithoutMeets(w, Mask(k), Mask(j));
    NothingMeets(Mask(j));
  }

  /** Only the eight places that bits are kept in are used; init_flag is the one operation that could fill others. */
  predicate Narrow(ws: seq<bv32>) {
    forall i :: 0 <= i < |ws| ==> ws[i] <= 0xFF
  }

  lemma {:induction false} NarrowOps(w: bv32, v: bv32)
    requires w <= 0xFF
    ensures v <= 0xFF ==> OrWord(w, v) <= 0xFF
    ensures v <= 0xFF ==> XorWord(w, v) <= 0xFF
    ensures WithoutWord(w, v) <= 0xFF
  {
  }

  lemma {:induction false} NarrowMask(k: nat)
    requires k < 8
    ensures Mask(k) <= 0xFF
  {
    Masks(k);
    hide Mask;
  }

  // ---------------------------------------------------------------- the set that words stand for

  function Members(ws: seq<bv32>): (s: set<nat>)
    ensures forall b: nat :: b in s <==> b / 8 < |ws| && WordHas(ws[b / 8], b % 8)
  {
    set b: nat | b < 8 * |ws| && WordHas(ws[b / 8], b % 8)
  }

  /** The words that resize_bits leaves: zeros up to the new size. */
  function Padded(ws: seq<bv32>, size: nat): (r: seq<bv32>)
    ensures |r| == if size < |ws| then |ws| else size + 1
    ensures ws <= r && forall i :: |ws| <= i < |r| ==> r[i] == 0
    ensures Members(r) == Members(ws)
  {
    var r := if size < |ws| then ws else ws + seq(size + 1 - |ws|, _ => 0);
    PaddingIsEmpty(ws, r);
    r
  }

  lemma {:induction false} PaddingIsEmpty(ws: seq<bv32>, r: seq<bv32>)
    requires ws <= r && forall i :: |ws| <= i < |r| ==> r[i] == 0
    ensures Members(r) == Members(ws)
  {
    forall b: nat
      ensures b in Members(r) <==> b in Members(ws)
    {
      if |ws| <= b / 8 < |r| {
        WordOps(0, 0, b % 8, 0);
      }
    }
  }

  function Toggled(s: set<nat>, t: set<nat>): set<nat> {
    (s - t) + (t - s)
  }

  lemma {:induction false} SetMembers(ws: seq<bv32>, bit: nat)
    requires bit / 8 < |ws|
    ensures Members(ws[bit / 8 := OrWord(ws[bit / 8], Mask(bit % 8))]) == Members(ws) + {bit}
  {
    var ws' := ws[bit / 8 := OrWord(ws[bit / 8], Mask(bit % 8))];
    hide WordHas, Mask, OrWord, XorWord, WithoutWord;
    forall b: nat
      ensures b in Members(ws') <==> b in Members(ws) || b == bit
    {
      if b / 8 == bit / 8 {
        WordOps(ws[bit / 8], 0, b % 8, bit % 8);
      }
    }
  }

  lemma {:induction false} ClearMembers(ws: seq<bv32>, bit: nat)
    requires bit / 8 < |ws|
    ensures Members(ws[bit / 8 := WithoutWord(ws[bit / 8], Mask(bit % 8))]) == Members(ws) - {bit}
  {
    var ws' := ws[bit / 8 := WithoutWord(ws[bit / 8], Mask(bit % 8))];
    hide WordHas, Mask, OrWord, XorWord, WithoutWord;
    forall b: nat
      ensures b in Members(ws') <==> b in Members(ws) && b != bit
    {
      if b / 8 == bit / 8 {
        WordOps(ws[bit / 8], 0, b % 8, bit % 8);
      }
    }
  }

  lemma {:induction false} ToggleMembers(ws: seq<bv32>, bit: nat)
    requires bit / 8 < |ws|
    ensures Members(ws[bit / 8 := XorWord(ws[bit / 8], Mask(bit % 8))]) == Toggled(Members(ws), {bit})
  {
    var ws' := ws[bit / 8 := XorWord(ws[bit / 8], Mask(bit % 8))];
    hide WordHas, Mask, OrWord, XorWord, WithoutWord;
    forall b: nat
      ensures b in Members(ws') <==> ((b in Members(ws)) != (b == bit))
    {
      if b / 8 == bit / 8 {
        WordOps(ws[bit / 8], 0, b % 8, bit % 8);
      }
    }
  }

  lemma {:induction false} JoinMembers(ws: seq<bv32>, vs: seq<bv32>, r: seq<bv32>)
    requires |vs| <= |ws| == |r|
    requires forall i :: 0 <= i < |r| ==> r[i] == if i < |vs| then OrWord(ws[i], vs[i]) else ws[i]
    ensures Members(r) == Members(ws) + Members(vs)
  {
    hide WordHas, Mask, OrWord, XorWord, WithoutWord;
    forall b: nat
      ensures b in Members(r) <==> b in Members(ws) || b in Members(vs)
    {
      if b / 8 < |vs| {
        WordOps(ws[b / 8], vs[b / 8], b % 8, 0);
      }
    }
  }

  lemma {:induction false} ToggleAllMembers(ws: seq<bv32>, vs: seq<bv32>, r: seq<bv32>)
    requires |vs| <= |ws| == |r|
    requires forall i :: 0 <= i < |r| ==> r[i] == if i < |vs| then XorWord(ws[i], vs[i]) else ws[i]
    ensures Members(r) == Toggled(Members(ws), Members(vs))
  {
    hide WordHas, Mask, OrWord, XorWord, WithoutWord;
    forall b: nat
      ensures b in Members(r) <==> ((b in Members(ws)) != (b in Members(vs)))
    {
      if b / 8 < |vs| {
        WordOps(ws[b / 8], vs[b / 8], b % 8, 0);
      }
    }
  }

  lemma {:induction false} JoinNarrow(ws: seq<bv32>, vs: seq<bv32>, r: seq<bv32>)
    requires |vs| <= |ws| == |r|
    requires forall i :: 0 <= i < |r| ==> r[i] == if i < |vs| then OrWord(ws[i], vs[i]) else ws[i]
    ensures Narrow(ws) && Narrow(vs) ==> Narrow(r)
  {
    if Narrow(ws) && Narrow(vs) {
      forall i | 0 <= i < |r|
        ensures r[i] <= 0xFF
      {
        if i < |vs| {
          NarrowOps(ws[i], vs[i]);
        }
      }
    }
  }

  lemma {:induction false} ToggleAllNarrow(ws: seq<bv32>, vs: seq<bv32>, r: seq<bv32>)
    requires |vs| <= |ws| == |r|
    requires forall i :: 0 <= i < |r| ==> r[i] == if i < |vs| then XorWord(ws[i], vs[i]) else ws[i]
    ensures Narrow(ws) && Narrow(vs) ==> Narrow(r)
  {
    if Narrow(ws) && Narrow(vs) {
      forall i | 0 <= i < |r|
        ensures r[i] <= 0xFF
      {
        if i < |vs| {
          NarrowOps(ws[i], vs[i]);
        }
      }
    }
  }

  class Flag {
    var bits: seq<bv32>

    function Set(): set<nat>
      reads this
    {
      Members(bits)
    }

    /** new_flag */
    constructor ()
      ensures Set() == {} && Narrow(bits)
    {
      bits := [];
    }

    /** resize_bits: called with a size that is too big for the words there are. */
    method ResizeBits(size: nat)
      requires size >= |bits|
      modifies this
      ensures |bits| == size + 1 && bits == Padded(old(bits), size) && Set() == old(Set())
      ensures old(Narrow(bits)) ==> Narrow(bits)
    {
      var oldsize := |bits|;
      ghost var was := bits;
      while oldsize < size + 1
        invariant |was| <= oldsize == |bits| <= size + 1
        invariant was <= bits && forall i :: |was| <= i < |bits| ==> bits[i] == 0
      {
        bits := bits + [0];
        oldsize := oldsize + 1;
      }
      assert bits == Padded(was, size);
    }

    /** set_bit */
    method SetBit(bit: nat)
      modifies this
      ensures Set() == old(Set()) + {bit}
      ensures old(Narrow(bits)) ==> Narrow(bits)
    {
      var pos := bit / 8;
      if pos >= |bits| {
        ResizeBits(pos);
      }
      SetMembers(bits, bit);
      NarrowMask(bit % 8);
      if bits[pos] <= 0xFF {
        NarrowOps(bits[pos], Mask(bit % 8));
      }
      bits := bits[pos := OrWord(bits[pos], Mask(bit % 8))];
    }

    /** remove_bit */
    method RemoveBit(bit: nat)
      modifies this
      ensures Set() == old(Set()) - {bit}
      ensures old(Narrow(bits)) ==> Narrow(bits)
    {
      var pos := bit / 8;
      if pos >= |bits| {
        return;
      }
      ClearMembers(bits, bit);
      NarrowMask(bit % 8);
      if bits[pos] <= 0xFF {
        NarrowOps(bits[pos], Mask(bit % 8));
      }
      bits := bits[pos := WithoutWord(bits[pos], Mask(bit % 8))];
    }

    /** toggle_bit */
    method ToggleBit(bit: nat)
      modifies this
      ensures Set() == Toggled(old(Set()), {bit})
      ensures forall b: nat :: b in Set() <==> ((b in old(Set())) != (b == bit))
      ensures old(Narrow(bits)) ==> Narrow(bits)
    {
      var pos := bit / 8;
      if pos >= |bits| {
        ResizeBits(pos);
      }
      ToggleMembers(bits, bit);
      NarrowMask(bit % 8);
      if bits[pos] <= 0xFF {
        NarrowOps(bits[pos], Mask(bit % 8));
      }
      bits := bits[pos := XorWord(bits[pos], Mask(bit % 8))];
    }

    /** set_flags; the two flags may be the same one. */
    method SetFlags(val: Flag)
      modifies this
      ensures Set() == old(Set()) + old(val.Set())
      ensures old(Narrow(bits)) && old(Narrow(val.bits)) ==> Narrow(bits)
    {
      if |val.bits| > |bits| {
        ResizeBits(|val.bits| - 1);
      }
      ghost var ws, vs := bits, val.bits;
      hide OrWord, XorWord, Members, Narrow;
      var i := 0;
      while i < |val.bits|
        invariant 0 <= i <= |vs| == |val.bits| <= |ws| == |bits|
        invariant forall j :: i <= j < |vs| ==> val.bits[j] == vs[j]
        invariant forall j :: 0 <= j < |ws| ==> bits[j] == if j < i then OrWord(ws[j], vs[j]) else ws[j]
      {
        bits := bits[i := OrWord(bits[i], val.bits[i])];
        i := i + 1;
      }
      JoinMembers(ws, vs, bits);
      JoinNarrow(ws, vs, bits);
    }

    /** toggle_flags; the two flags may be the same one. */
    method ToggleFlags(val: Flag)
      modifies this
      ensures Set() == Toggled(old(Set()), old(val.Set()))
      ensures forall b: nat :: b in Set() <==> ((b in old(Set())) != (b in old(val.Set())))
      ensures old(Narrow(bits)) && old(Narrow(val.bits)) ==> Narrow(bits)
    {
      if |val.bits| > |bits| {
        ResizeBits(|val.bits| - 1);
      }
      ghost var ws, vs := bits, val.bits;
      hide OrWord, XorWord, Members, Narrow;
      var i := 0;
      while i < |val.bits|
        invariant 0 <= i <= |vs| == |val.bits| <= |ws| == |bits|
        invariant forall j :: i <= j < |vs| ==> val.bits[j] == vs[j]
        invariant forall j :: 0 <= j < |ws| ==> bits[j] == if j < i then XorWord(ws[j], vs[j]) else ws[j]
      {
        bits := bits[i := XorWord(bits[i], val.bits[i])];
        i := i + 1;
      }
      ToggleAllMembers(ws, vs, bits);
      ToggleAllNarrow(ws, vs, bits);
    }

    /** is_set */
    method IsSet(bit: nat) returns (yes: bool)
      ensures yes <==> bit in Set()
    {
      var pos := bit / 8;
      if pos >= |bits| {
        return false;
      }
      return Meets(bits[pos], Mask(bit % 8));
    }
  }
  // ---------------------------------------------------------------- tables and text

  datatype Lookup = Lookup(name: string, value: nat)

  const NOT_FOUND := -1

  /** The value of the first entry that the text is a prefix of, ignoring case. */
  function ValueOf(table: seq<Lookup>, arg: string): (v: int)
    ensures v >= NOT_FOUND
  {
    if table == [] || arg == [] then NOT_FOUND
    else if IsPrefix(arg, table[0].name) then table[0].value
    else ValueOf(table[1..], arg)
  }

  /** value_lookup */
  method ValueLookup(table: seq<Lookup>, arg: string) returns (value: int)
    ensures value == ValueOf(table, arg)
  {
    if arg == [] {
      return NOT_FOUND;
    }
    var t := table;
    while t != []
      invariant ValueOf(t, arg) == ValueOf(table, arg)
    {
      var differs := StrPrefix(arg, t[0].name);
      if !differs {
        return t[0].value;
      }
      t := t[1..];
    }
    return NOT_FOUND;
  }

  /** The values that a list of names stands for. */
  function ValuesOf(table: seq<Lookup>, names: seq<string>): set<nat> {
    if names == [] then {}
    else (if ValueOf(table, names[0]) < 0 then {} else {ValueOf(table, names[0])}) + ValuesOf(table, names[1..])
  }

  /** How many of the names find a value. */
  function Found(table: seq<Lookup>, names: seq<string>): nat {
    if names == [] then 0 else (if ValueOf(table, names[0]) < 0 then 0 else 1) + Found(table, names[1..])
  }

  lemma {:induction false} FoundInJoin(table: seq<Lookup>, names: seq<string>, name: string)
    ensures Found(table, names + [name]) == Found(table, names) + if ValueOf(table, name) >= 0 then 1 else 0
  {
    if names == [] {
      assert names + [name] == [name] && [name][1..] == [];
    } else {
      assert (names + [name])[1..] == names[1..] + [name];
      FoundInJoin(table, names[1..], name);
    }
  }

  ghost function FoundAt(table: seq<Lookup>, names: seq<string>): set<int> {
    set i | 0 <= i < |names| && ValueOf(table, names[i]) >= 0
  }

  /** The names that stand for a value are counted one by one. */
  lemma {:induction false} FoundCounted(table: seq<Lookup>, names: seq<string>)
    ensures Found(table, names) == |FoundAt(table, names)|
  {
    if names != [] {
      var n := |names| - 1;
      FoundCounted(table, names[..n]);
      FoundInJoin(table, names[..n], names[n]);
      assert names == names[..n] + [names[n]];
      hide ValueOf, Found;
      assert FoundAt(table, names) - {n} == FoundAt(table, names[..n]);
    }
  }

  /** parse_flags; the result counts the names that were found. */
  method ParseFlags(flags: Flag, format: string, table: seq<Lookup>) returns (res: nat)
    modifies flags
    ensures flags.Set() == old(flags.Set()) + ValuesOf(table, Tokens(format, ","))
    ensures res == Found(table, Tokens(format, ","))
    ensures old(Narrow(flags.bits)) ==> Narrow(flags.bits)
  {
    res := 0;
    if format == [] {
      return;
    }
    var names := Tokens(format, ",");
    while names != []
      invariant flags.Set() + ValuesOf(table, names) == old(flags.Set()) + ValuesOf(table, Tokens(format, ","))
      invariant res + Found(table, names) == Found(table, Tokens(format, ","))
      invariant old(Narrow(flags.bits)) ==> Narrow(flags.bits)
    {
      var f := ValueLookup(table, names[0]);
      if f != NOT_FOUND {
        flags.SetBit(f);
        res := res + 1;
      }
      names := names[1..];
    }
  }

  /** The names of the entries whose values are set. */
  function SetNames(table: seq<Lookup>, s: set<nat>): seq<string> {
    if table == [] then []
    else (if table[0].value in s then [table[0].name] else []) + SetNames(table[1..], s)
  }

  /** The values of the table's entries. */
  function TableValues(table: seq<Lookup>): set<nat> {
    if table == [] then {} else {table[0].value} + TableValues(table[1..])
  }

  function Listed(names: seq<string>): string {
    if names == [] then "" else names[0] + "," + Listed(names[1..])
  }

  /** The text of a set: the names with commas between them, or a word for none. */
  function Formatted(table: seq<Lookup>, s: set<nat>): string {
    var text := Listed(SetNames(table, s));
    if text == "" then "None" else text[..|text| - 1]
  }

  /** The names are those of the entries in the set, in the table's order. */
  lemma {:induction false} LastName(table: seq<Lookup>, e: Lookup, s: set<nat>)
    ensures SetNames(table + [e], s) == SetNames(table, s) + if e.value in s then [e.name] else []
    ensures SetNames([], s) == []
  {
    if table == [] {
      assert table + [e] == [e] && [e][1..] == [];
    } else {
      var all := table + [e];
      assert all[0] == table[0] && all[1..] == table[1..] + [e];
      var first := if table[0].value in s then [table[0].name] else [];
      assert SetNames(all, s) == first + SetNames(all[1..], s) && SetNames(table, s) == first + SetNames(table[1..], s);
      LastName(table[1..], e, s);
      hide SetNames;
    }
  }

  /** How a set of two entries is printed. */
  lemma {:induction false} PrintedSet(a: Lookup, b: Lookup, s: set<nat>)
    requires a.name != "" && b.name != ""
    ensures Formatted([a, b], s) == if a.value in s && b.value in s then a.name + "," + b.name
                                    else if a.value in s then a.name
                                    else if b.value in s then b.name
                                    else "None"
  {
    var names := SetNames([a, b], s);
    LastName([], a, s);
    LastName([a], b, s);
    assert [] + [a] == [a] && [a] + [b] == [a, b];
    hide SetNames;
    assert Listed([]) == "";
    ListedMore([], a.name);
    ListedMore([], b.name);
    ListedMore([a.name], b.name);
    assert [] + [a.name] == [a.name] && [] + [b.name] == [b.name];
    hide Listed;
  }

  lemma {:induction false} ListedMore(names: seq<string>, name: string)
    ensures Listed(names + [name]) == Listed(names) + name + ","
  {
    if names == [] {
      assert names + [name] == [name] && [name][1..] == [];
      assert Listed([name]) == name + "," + "";
    } else {
      assert (names + [name])[1..] == names[1..] + [name];
      ListedMore(names[1..], name);
    }
  }

  /** format_flags */
  method FormatFlags(flags: Flag, table: seq<Lookup>) returns (res: string)
    ensures res == Formatted(table, flags.Set())
  {
    res := "";
    var t := table;
    ghost var done: seq<string>, s := [], flags.Set();
    hide Members;
    while t != []
      invariant done + SetNames(t, s) == SetNames(table, s)
      invariant res == Listed(done)
    {
      hide Listed;
      var yes := flags.IsSet(t[0].value);
      if yes {
        ListedMore(done, t[0].name);
        done := done + [t[0].name];
        res := res + t[0].name + ",";
      }
      t := t[1..];
    }
    assert done + [] == done;
    if res != "" {
      res := res[..|res| - 1];
    } else {
      res := "None";
    }
  }

  // ---------------------------------------------------------------- round trips

  predicate GoodName(name: string) {
    name != [] && ',' !in name
  }

  predicate GoodTable(table: seq<Lookup>) {
    forall e :: e in table ==> GoodName(e.name)
  }

  lemma {:induction false} CutLastComma(name: string, tail: string)
    ensures tail == "" ==> (name + "," + tail)[..|name + "," + tail| - 1] == name + ""
    ensures tail != "" ==>
      (name + "," + tail)[..|name + "," + tail| - 1] == name + ("," + tail[..|tail| - 1])
  {
  }

  /** The names that are listed after a name, without the last comma. */
  function AfterName(more: seq<string>): (s: string)
    requires more == [] || Listed(more) != ""
  {
    if more == [] then "" else "," + Listed(more)[..|Listed(more)| - 1]
  }

  lemma {:induction false} ListedUncut(name: string, more: seq<string>)
    requires name != "" && (more == [] || Listed(more) != "")
    ensures Listed([name] + more) != ""
    ensures Listed([name] + more)[..|Listed([name] + more)| - 1] == name + AfterName(more)
  {
    assert ([name] + more)[1..] == more;
    var tail := Listed(more);
    assert Listed([name] + more) == name + "," + tail && (more == [] ==> tail == "");
    assert AfterName(more) == if tail == "" then "" else "," + tail[..|tail| - 1];
    hide *;
    CutLastComma(name, tail);
  }

  lemma {:induction false} TokensUncut(name: string, more: seq<string>)
    requires GoodName(name) && (more == [] || Listed(more) != "")
    requires more != [] ==> Tokens(Listed(more)[..|Listed(more)| - 1], ",") == more
    ensures Tokens(name + AfterName(more), ",") == [name] + more
  {
    assert Free(name, ",") && Tokens("", ",") == [];
    hide Tokens, Listed, Free;
    FirstToken(name, AfterName(more), ",");
    if more != [] {
      var rest := Listed(more)[..|Listed(more)| - 1];
      assert AfterName(more) == [','] + rest;
      SkipDelimiter(',', rest, ",");
    }
  }

  /** Cutting a list without its last comma gives the names again. */
  lemma {:induction false} NamesOfList(names: seq<string>)
    requires names != [] && forall n :: n in names ==> GoodName(n)
    ensures Listed(names) != ""
    ensures Tokens(Listed(names)[..|Listed(names)| - 1], ",") == names
  {
    var name, more := names[0], names[1..];
    assert GoodName(name) && names == [name] + more;
    hide Tokens, Listed, AfterName;
    if more != [] {
      assert forall n :: n in more ==> n in names;
      NamesOfList(more);
    }
    ListedUncut(name, more);
    TokensUncut(name, more);
  }

  lemma {:induction false} SetNamesAreGood(table: seq<Lookup>, s: set<nat>)
    requires GoodTable(table)
    ensures forall n :: n in SetNames(table, s) ==> GoodName(n)
  {
    if table != [] {
      assert GoodName(table[0].name);
      SetNamesAreGood(table[1..], s);
    }
  }

  /** Every name finds a value that it was listed for. */
  predicate Unambiguous(table: seq<Lookup>) {
    forall e :: e in table ==> ValueOf(table, e.name) == e.value
  }

  /** The word for none finds nothing. */
  predicate NoneIsNoName(table: seq<Lookup>) {
    forall e :: e in table ==> !IsPrefix("None", e.name)
  }

  lemma {:induction false} NoneFound(table: seq<Lookup>, arg: string)
    requires arg != []
    ensures ValueOf(table, arg) < 0 <==> forall e :: e in table ==> !IsPrefix(arg, e.name)
  {
    if table != [] {
      NoneFound(table[1..], arg);
      assert table == [table[0]] + table[1..];
    }
  }

  lemma {:induction false} ValuesOfNames(table: seq<Lookup>, part: seq<Lookup>, s: set<nat>)
    requires Unambiguous(table) && forall e :: e in part ==> e in table
    ensures ValuesOf(table, SetNames(part, s)) == s * TableValues(part)
  {
    if part != [] {
      assert part[0] in table;
      ValuesOfNames(table, part[1..], s);
      var rest := SetNames(part[1..], s);
      if part[0].value in s {
        assert ([part[0].name] + rest)[1..] == rest;
      } else {
        assert [] + rest == rest;
      }
    }
  }

  /** What a flag's text says when it is parsed into a fresh flag. */
  function Reparsed(table: seq<Lookup>, s: set<nat>): set<nat> {
    ValuesOf(table, Tokens(Formatted(table, s), ","))
  }

  lemma {:induction false} ReparsedNames(table: seq<Lookup>, s: set<nat>)
    requires GoodTable(table) && SetNames(table, s) != []
    ensures Reparsed(table, s) == ValuesOf(table, SetNames(table, s))
  {
    SetNamesAreGood(table, s);
    NamesOfList(SetNames(table, s));
  }

  lemma {:induction false} ReparsedNone(table: seq<Lookup>, s: set<nat>)
    requires SetNames(table, s) == []
    ensures Reparsed(table, s) == if ValueOf(table, "None") < 0 then {} else {ValueOf(table, "None")}
  {
    var n := "None";
    assert n + "" == n;
    FirstToken(n, "", ",");
    assert Tokens(n, ",") == [n] + [] == [n];
    assert Formatted(table, s) == n;
    assert [n][1..] == [] && ValuesOf(table, []) == {};
    var v := if ValueOf(table, n) < 0 then {} else {ValueOf(table, n)};
    assert v + {} == v;
  }

  lemma {:induction false} NoNamesNoValues(table: seq<Lookup>, s: set<nat>)
    ensures SetNames(table, s) == [] <==> s * TableValues(table) == {}
  {
    if table != [] {
      NoNamesNoValues(table[1..], s);
      assert table[0].value in s ==> table[0].value in s * TableValues(table);
      assert s * TableValues(table) == s * {table[0].value} + s * TableValues(table[1..]);
    }
  }

  /** The round trip of one set. */
  lemma {:induction false} TextRoundTrip(table: seq<Lookup>, s: set<nat>)
    requires GoodTable(table) && Unambiguous(table) && NoneIsNoName(table)
    ensures Reparsed(table, s) == s * TableValues(table)
  {
    NoNamesNoValues(table, s);
    if SetNames(table, s) == [] {
      ReparsedNone(table, s);
      NoneFound(table, "None");
    } else {
      ReparsedNames(table, s);
      ValuesOfNames(table, table, s);
    }
  }

  lemma {:induction false} AllWithOneValue(table: seq<Lookup>, part: seq<Lookup>, e: Lookup)
    requires e in part
    ensures ValueOf(table, e.name) >= 0 ==> ValueOf(table, e.name) in ValuesOf(table, SetNames(part, {e.value}))
    ensures SetNames(part, {e.value}) != []
    ensures e.value in TableValues(part)
  {
    var rest := SetNames(part[1..], {e.value});
    if part[0] == e {
      assert ([e.name] + rest)[1..] == rest;
    } else {
      assert e in part[1..];
      AllWithOneValue(table, part[1..], e);
      if part[0].value == e.value {
        assert ([part[0].name] + rest)[1..] == rest;
      } else {
        assert [] + rest == rest;
      }
    }
  }

  lemma {:induction false} FindsItself(table: seq<Lookup>, e: Lookup)
    requires e in table && e.name != []
    ensures ValueOf(table, e.name) >= 0
  {
    NoneFound(table, e.name);
    assert IsPrefix(e.name, e.name);
  }

  /** The text form keeps every set exactly for the tables whose names are told apart by their first match and
      are not what the word for none abbreviates. */
  lemma {:induction false} RoundTripsExactly(table: seq<Lookup>)
    requires GoodTable(table)
    ensures (forall s: set<nat> :: Reparsed(table, s) == s * TableValues(table)) <==>
              Unambiguous(table) && NoneIsNoName(table)
  {
    if Unambiguous(table) && NoneIsNoName(table) {
      forall s: set<nat>
        ensures Reparsed(table, s) == s * TableValues(table)
      {
        TextRoundTrip(table, s);
      }
    } else if NoneIsNoName(table) {
      var e :| e in table && ValueOf(table, e.name) != e.value;
      BreaksFor(table, e);
    } else {
      NoneFound(table, "None");
      NoNamesNoValues(table, {});
      ReparsedNone(table, {});
      assert Reparsed(table, {}) != {} * TableValues(table);
    }
  }

  /** A name that finds another value breaks the round trip of its own value. */
  lemma {:induction false} BreaksFor(table: seq<Lookup>, e: Lookup)
    requires GoodTable(table) && e in table && ValueOf(table, e.name) != e.value
    ensures Reparsed(table, {e.value}) != {e.value} * TableValues(table)
  {
    FindsItself(table, e);
    AllWithOneValue(table, table, e);
    ReparsedNames(table, {e.value});
    assert ValueOf(table, e.name) in Reparsed(table, {e.value});
    assert ValueOf(table, e.name) !in {e.value};
  }

  /** No name is a prefix of an earlier one. */
  predicate PrefixFree(table: seq<Lookup>) {
    forall i, j :: 0 <= i < j < |table| ==> !IsPrefix(table[j].name, table[i].name)
  }

  lemma {:induction false} PrefixFreeFinds(table: seq<Lookup>, j: nat)
    requires j < |table| && PrefixFree(table) && table[j].name != []
    ensures ValueOf(table, table[j].name) == table[j].value
  {
    if j > 0 {
      assert !IsPrefix(table[j].name, table[0].name);
      PrefixFreeFinds(table[1..], j - 1);
    }
  }

  lemma {:induction false} PrefixFreeIsUnambiguous(table: seq<Lookup>)
    requires GoodTable(table) && PrefixFree(table)
    ensures Unambiguous(table)
  {
    forall e | e in table
      ensures ValueOf(table, e.name) == e.value
    {
      var j :| 0 <= j < |table| && table[j] == e;
      PrefixFreeFinds(table, j);
    }
  }

  /** Printing a flag and parsing the text into a fresh one. */
  method CopyThroughText(flags: Flag, table: seq<Lookup>) returns (copy: Flag)
    requires GoodTable(table) && PrefixFree(table) && NoneIsNoName(table)
    ensures fresh(copy) && copy.Set() == flags.Set() * TableValues(table)
  {
    var text := FormatFlags(flags, table);
    copy := new Flag();
    PrefixFreeIsUnambiguous(table);
    TextRoundTrip(table, flags.Set());
    var _ := ParseFlags(copy, text, table);
  }

  // ---------------------------------------------------------------- the tables that are saved

  const AFFECT_FLAGS: seq<Lookup> := [
    Lookup("blindness", 0), Lookup("invisibility", 1), Lookup("detect_evil", 2), Lookup("detect_invis", 3),
    Lookup("detect_magic", 4), Lookup("detect_hidden", 5), Lookup("detect_good", 6), Lookup("sactuary", 7),
    Lookup("faerie_fire", 8), Lookup("infrared", 9), Lookup("curse", 10), Lookup("poison", 11),
    Lookup("protect_evil", 12), Lookup("protect_good", 13), Lookup("sneak", 14), Lookup("hide", 15),
    Lookup("sleep", 16), Lookup("charm", 17), Lookup("flying", 18), Lookup("pass_door", 19), Lookup("haste", 20),
    Lookup("calm", 21), Lookup("plague", 22), Lookup("weaken", 23), Lookup("dark_vision", 24),
    Lookup("berserk", 25), Lookup("regeneration", 26), Lookup("slow", 27)
  ]
  const PLR_FLAGS: seq<Lookup> := [
    Lookup("ticksoff", 1), Lookup("brief", 2), Lookup("hints", 3), Lookup("automapoff", 4)
  ]
  const NPC_FLAGS: seq<Lookup> := [
    Lookup("sentinel", 0), Lookup("scavenger", 1), Lookup("aggressive", 2), Lookup("wimpy", 3), Lookup("stay_area", 4)
  ]
  const ROOM_FLAGS: seq<Lookup> := [Lookup("noexplore", 2), Lookup("safe", 0), Lookup("no_recall", 1)]
  const AREA_FLAGS: seq<Lookup> := [Lookup("noexplore", 0), Lookup("changed", 1)]
  const EXIT_FLAGS: seq<Lookup> := [Lookup("closed", 1), Lookup("locked", 2)]
  const ACCOUNT_FLAGS: seq<Lookup> := [Lookup("coloroff", 0)]
  const CHANNEL_FLAGS: seq<Lookup> := [Lookup("chat", 0), Lookup("admin", 1)]
  const RACE_FLAGS: seq<Lookup> := [Lookup("pcrace", 0)]

  /** A table whose flags survive being saved as text. */
  predicate Saves(table: seq<Lookup>) {
    GoodTable(table) && PrefixFree(table) && NoneIsNoName(table)
  }

  predicate Differ(a: string, b: string, k: nat) {
    k < |a| && k < |b| && Lower(a[k]) != Lower(b[k])
  }

  function Letter(name: string, k: nat): char {
    if k < |name| then Lower(name[k]) else '\0'
  }

  /** Which of the affects' flags a name is, from a few of its letters. */
  function AffectOf(name: string): nat {
    var a, b, c := Letter(name, 0), Letter(name, 1), Letter(name, 2);
    if a == 'b' then if b == 'l' then 0 else 25
    else if a == 'i' then if c == 'v' then 1 else 9
    else if a == 'd' then if b == 'a' then 24 else Detected(Letter(name, 7))
    else if a == 's' then if b == 'a' then 7 else if b == 'n' then 14 else if c == 'e' then 16 else 27
    else if a == 'f' then if b == 'a' then 8 else 18
    else if a == 'c' then if b == 'u' then 10 else if b == 'h' then 17 else 21
    else if a == 'p' then
      if b == 'o' then 11 else if b == 'a' then 19 else if b == 'l' then 22
      else if Letter(name, 8) == 'e' then 12 else 13
    else if a == 'h' then if b == 'i' then 15 else 20
    else if a == 'w' then 23 else 26
  }

  function Detected(c: char): nat {
    if c == 'e' then 2 else if c == 'i' then 3 else if c == 'm' then 4 else if c == 'h' then 5 else 6
  }

  /** The name is long enough for the letters that decide. */
  predicate Decided(name: string) {
    && |name| >= 4
    && (Letter(name, 0) == 'd' && Letter(name, 1) != 'a' ==> |name| >= 9)
    && (Letter(name, 0) == 'p' && Letter(name, 1) !in {'o', 'a', 'l'} ==> |name| >= 9)
  }

  lemma {:induction false} SameAffect(a: string, b: string)
    requires Decided(a) && IsPrefix(a, b)
    ensures AffectOf(a) == AffectOf(b)
  {
    forall k: nat | k < |a|
      ensures Letter(a, k) == Letter(b, k)
    {
    }
    assert Letter(a, 0) == Letter(b, 0) && Letter(a, 1) == Letter(b, 1) && Letter(a, 2) == Letter(b, 2);
    assert |a| >= 9 ==> Letter(a, 7) == Letter(b, 7) && Letter(a, 8) == Letter(b, 8);
    hide Letter, IsPrefix;
  }

  lemma {:induction false} FirstAffects(k: nat)
    requires k < 7
    ensures Decided(AFFECT_FLAGS[k].name) && AffectOf(AFFECT_FLAGS[k].name) == k
  {
  }

  lemma {:induction false} SecondAffects(k: nat)
    requires 7 <= k < 14
    ensures Decided(AFFECT_FLAGS[k].name) && AffectOf(AFFECT_FLAGS[k].name) == k
  {
  }

  lemma {:induction false} ThirdAffects(k: nat)
    requires 14 <= k < 21
    ensures Decided(AFFECT_FLAGS[k].name) && AffectOf(AFFECT_FLAGS[k].name) == k
  {
  }

  lemma {:induction false} LastAffects(k: nat)
    requires 21 <= k < 28
    ensures Decided(AFFECT_FLAGS[k].name) && AffectOf(AFFECT_FLAGS[k].name) == k
  {
  }

  lemma {:induction false} AffectIs(k: nat)
    requires k < 28
    ensures Decided(AFFECT_FLAGS[k].name) && AffectOf(AFFECT_FLAGS[k].name) == k
  {
    hide Decided, AffectOf;
    if k < 7 {
      FirstAffects(k);
    } else if k < 14 {
      SecondAffects(k);
    } else if k < 21 {
      ThirdAffects(k);
    } else {
      LastAffects(k);
    }
  }

  /** The word for none does not abbreviate the name. */
  predicate NotNone(name: string) {
    Differ("None", name, 0) || Differ("None", name, 2)
  }

  /** Names that a look at three characters tells apart, and apart from the word for none. */
  predicate ToldApart(table: seq<Lookup>) {
    && (forall i, j :: 0 <= i < j < |table| ==>
          var a, b := table[j].name, table[i].name;
          Differ(a, b, 0) || Differ(a, b, 1) || Differ(a, b, 2))
    && (forall i :: 0 <= i < |table| ==> NotNone(table[i].name))
  }

  lemma {:induction false} ToldApartSaves(table: seq<Lookup>)
    requires GoodTable(table) && ToldApart(table)
    ensures Saves(table)
  {
    forall i, j | 0 <= i < j < |table|
      ensures !IsPrefix(table[j].name, table[i].name)
    {
      var a, b := table[j].name, table[i].name;
      assert Differ(a, b, 0) || Differ(a, b, 1) || Differ(a, b, 2);
    }
    forall i | 0 <= i < |table|
      ensures !IsPrefix("None", table[i].name)
    {
      assert Differ("None", table[i].name, 0) || Differ("None", table[i].name, 2);
    }
  }

  lemma {:induction false} FirstAffectsGood(k: nat)
    requires k < 7
    ensures GoodName(AFFECT_FLAGS[k].name)
  {
    assert ',' !in AFFECT_FLAGS[k].name;
  }

  lemma {:induction false} SecondAffectsGood(k: nat)
    requires 7 <= k < 14
    ensures GoodName(AFFECT_FLAGS[k].name)
  {
    assert ',' !in AFFECT_FLAGS[k].name;
  }

  lemma {:induction false} ThirdAffectsGood(k: nat)
    requires 14 <= k < 21
    ensures GoodName(AFFECT_FLAGS[k].name)
  {
    assert ',' !in AFFECT_FLAGS[k].name;
  }

  lemma {:induction false} LastAffectsGood(k: nat)
    requires 21 <= k < |AFFECT_FLAGS|
    ensures GoodName(AFFECT_FLAGS[k].name)
  {
    assert ',' !in AFFECT_FLAGS[k].name;
  }

  lemma {:induction false} AffectNameIsGood(k: nat)
    requires k < |AFFECT_FLAGS|
    ensures GoodName(AFFECT_FLAGS[k].name)
  {
    hide GoodName;
    if k < 7 {
      FirstAffectsGood(k);
    } else if k < 14 {
      SecondAffectsGood(k);
    } else if k < 21 {
      ThirdAffectsGood(k);
    } else {
      LastAffectsGood(k);
    }
  }

  lemma {:induction false} AffectNameIsNotNone(k: nat)
    requires k < |AFFECT_FLAGS|
    ensures !IsPrefix("None", AFFECT_FLAGS[k].name)
  {
    assert Differ("None", AFFECT_FLAGS[k].name, 0);
  }

  /** The affects' flags survive being saved. */
  lemma {:induction false} AffectFlagsSave()
    ensures Saves(AFFECT_FLAGS)
  {
    hide GoodName, IsPrefix;
    assert |AFFECT_FLAGS| == 28;
    forall k | 0 <= k < |AFFECT_FLAGS|
      ensures GoodName(AFFECT_FLAGS[k].name) && !IsPrefix("None", AFFECT_FLAGS[k].name)
    {
      AffectNameIsGood(k);
      AffectNameIsNotNone(k);
    }
    forall i, j | 0 <= i < j < |AFFECT_FLAGS|
      ensures !IsPrefix(AFFECT_FLAGS[j].name, AFFECT_FLAGS[i].name)
    {
      hide Decided, AffectOf;
      AffectIs(i);
      AffectIs(j);
      if IsPrefix(AFFECT_FLAGS[j].name, AFFECT_FLAGS[i].name) {
        SameAffect(AFFECT_FLAGS[j].name, AFFECT_FLAGS[i].name);
      }
    }
  }

  /** The flags of players survive being saved. */
  lemma {:induction false} PlrFlagsSave()
    ensures Saves(PLR_FLAGS)
  {
    hide Differ, GoodName;
    forall k | 0 <= k < |PLR_FLAGS|
      ensures GoodName(PLR_FLAGS[k].name) && NotNone(PLR_FLAGS[k].name)
    {
      PlrNames(k);
    }
    forall i, j | 0 <= i < j < |PLR_FLAGS|
      ensures var a, b := PLR_FLAGS[j].name, PLR_FLAGS[i].name; Differ(a, b, 0) || Differ(a, b, 1) || Differ(a, b, 2)
    {
      PlrNamesDiffer(i, j);
    }
    ToldApartSaves(PLR_FLAGS);
  }

  lemma {:induction false} PlrNames(k: nat)
    requires k < |PLR_FLAGS|
    ensures GoodName(PLR_FLAGS[k].name) && NotNone(PLR_FLAGS[k].name)
  {
  }

  lemma {:induction false} PlrNamesDiffer(i: nat, j: nat)
    requires i < j < |PLR_FLAGS|
    ensures var a, b := PLR_FLAGS[j].name, PLR_FLAGS[i].name; Differ(a, b, 0) || Differ(a, b, 1) || Differ(a, b, 2)
  {
  }

  /** The flags of npcs survive being saved. */
  lemma {:induction false} NpcFlagsSave()
    ensures Saves(NPC_FLAGS)
  {
    hide Differ, GoodName;
    forall k | 0 <= k < |NPC_FLAGS|
      ensures GoodName(NPC_FLAGS[k].name) && NotNone(NPC_FLAGS[k].name)
    {
      NpcNames(k);
    }
    forall i, j | 0 <= i < j < |NPC_FLAGS|
      ensures var a, b := NPC_FLAGS[j].name, NPC_FLAGS[i].name; Differ(a, b, 0) || Differ(a, b, 1) || Differ(a, b, 2)
    {
      NpcNamesDiffer(i, j);
    }
    ToldApartSaves(NPC_FLAGS);
  }

  lemma {:induction false} NpcNames(k: nat)
    requires k < |NPC_FLAGS|
    ensures GoodName(NPC_FLAGS[k].name) && NotNone(NPC_FLAGS[k].name)
  {
  }

  lemma {:induction false} NpcNamesDiffer(i: nat, j: nat)
    requires i < j < |NPC_FLAGS|
    ensures var a, b := NPC_FLAGS[j].name, NPC_FLAGS[i].name; Differ(a, b, 0) || Differ(a, b, 1) || Differ(a, b, 2)
  {
  }

  /** The flags of rooms survive being saved. */
  lemma {:induction false} RoomFlagsSave()
    ensures Saves(ROOM_FLAGS)
  {
    hide Differ, GoodName;
    forall k | 0 <= k < |ROOM_FLAGS|
      ensures GoodName(ROOM_FLAGS[k].name) && NotNone(ROOM_FLAGS[k].name)
    {
      RoomNames(k);
    }
    forall i, j | 0 <= i < j < |ROOM_FLAGS|
      ensures var a, b := ROOM_FLAGS[j].name, ROOM_FLAGS[i].name; Differ(a, b, 0) || Differ(a, b, 1) || Differ(a, b, 2)
    {
      RoomNamesDiffer(i, j);
    }
    ToldApartSaves(ROOM_FLAGS);
  }

  lemma {:induction false} RoomNames(k: nat)
    requires k < |ROOM_FLAGS|
    ensures GoodName(ROOM_FLAGS[k].name) && NotNone(ROOM_FLAGS[k].name)
  {
  }

  lemma {:induction false} RoomNamesDiffer(i: nat, j: nat)
    requires i < j < |ROOM_FLAGS|
    ensures var a, b := ROOM_FLAGS[j].name, ROOM_FLAGS[i].name; Differ(a, b, 0) || Differ(a, b, 1) || Differ(a, b, 2)
  {
  }

  /** The flags of areas survive being saved. */
  lemma {:induction false} AreaFlagsSave()
    ensures Saves(AREA_FLAGS)
  {
    ToldApartSaves(AREA_FLAGS);
  }

  /** The flags of exits survive being saved. */
  lemma {:induction false} ExitFlagsSave()
    ensures Saves(EXIT_FLAGS)
  {
    ToldApartSaves(EXIT_FLAGS);
  }

  /** The flags of accounts survive being saved. */
  lemma {:induction false} AccountFlagsSave()
    ensures Saves(ACCOUNT_FLAGS)
  {
    ToldApartSaves(ACCOUNT_FLAGS);
  }

  /** The flags of channels survive being saved. */
  lemma {:induction false} ChannelFlagsSave()
    ensures Saves(CHANNEL_FLAGS)
  {
    ToldApartSaves(CHANNEL_FLAGS);
  }

  /** The flags of races survive being saved. */
  lemma {:induction false} RaceFlagsSave()
    ensures Saves(RACE_FLAGS)
  {
    ToldApartSaves(RACE_FLAGS);
  }

  /** The players' settings are bits of the account's flags, whose table has none of their values: none of them
      survives being saved. */
  lemma {:induction false} SettingsAreLost(s: set<nat>)
    ensures Reparsed(ACCOUNT_FLAGS, s) == s * {0}
    ensures TableValues(PLR_FLAGS) == {1, 2, 3, 4} && Reparsed(ACCOUNT_FLAGS, s) !! TableValues(PLR_FLAGS)
  {
    AccountFlagsSave();
    SettingsTables();
    hide GoodTable, PrefixFree, NoneIsNoName, Unambiguous, Reparsed, TableValues;
    PrefixFreeIsUnambiguous(ACCOUNT_FLAGS);
    TextRoundTrip(ACCOUNT_FLAGS, s);
  }

  lemma {:induction false} SettingsTables()
    ensures TableValues(ACCOUNT_FLAGS) == {0} && TableValues(PLR_FLAGS) == {1, 2, 3, 4}
  {
    var a, b, c, d := PLR_FLAGS[0], PLR_FLAGS[1], PLR_FLAGS[2], PLR_FLAGS[3];
    assert PLR_FLAGS == [a, b, c, d];
  }
}

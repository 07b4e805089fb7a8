/** src/affect.c, src/util.c, src/server/command.c and the tick of src/server/update.c: affects change a
    character's attributes when they take hold and change them back when they end. The ledger says
    that the attributes never drift from the affects in force. */
module Affects {
  import opened Text

  const MAX_STAT := 6
  const MAX_DAM := 18
  const DAM_SLASH := 2

  /** Which function an affect's callback is: the additive ones of src/affect.c. */
  datatype Callback =
    | NoCallback | ApplyStat(stat: nat) | ApplyResists | ApplySex | ApplyLevel | ApplyMana | ApplyMove | ApplyHit
  {
    predicate Valid() {
      ApplyStat? ==> stat < MAX_STAT
    }
  }

  datatype Affect = Affect(modifier: int, callback: Callback, duration: int, level: int)

  /** An attribute that affects can change. */
  datatype Attribute = Stat(stat: nat) | Resist(dam: nat) | Sex | Level | Mana | Move | Hit

  /** By how much an affect in force moves an attribute. */
  function Shift(a: Affect, at: Attribute): int {
    match a.callback
    case NoCallback => 0
    case ApplyStat(s) => if at == Stat(s) then a.modifier else 0
    case ApplyResists => if at.Resist? && at.dam <= DAM_SLASH then a.modifier else 0
    case ApplySex => if at == Sex then a.modifier else 0
    case ApplyLevel => if at == Level then a.modifier else 0
    case ApplyMana => if at == Mana then a.modifier else 0
    case ApplyMove => if at == Move then a.modifier else 0
    case ApplyHit => if at == Hit then a.modifier else 0
  }

  function Total(affects: seq<Affect>, at: Attribute): int {
    if affects == [] then 0 else Shift(affects[0], at) + Total(affects[1..], at)
  }

  /** One turn of the tick's loop: what is done grows by what is kept. */
  lemma {:induction false} TickStep(affects: seq<Affect>, i: nat, fades: seq<bool>)
    requires i < |affects| && |fades| == |affects| - i
    ensures var kept := if affects[i].duration == 0 then [] else [Aged(affects[i], fades[0])];
            var now, j := affects[..i] + kept + affects[i + 1..], i + |kept|;
            now[..j] + Ticked(now[j..], fades[1..]) == affects[..i] + Ticked(affects[i..], fades)
  {
    var kept := if affects[i].duration == 0 then [] else [Aged(affects[i], fades[0])];
    var now, j := affects[..i] + kept + affects[i + 1..], i + |kept|;
    assert affects[i..][1..] == affects[i + 1..] == now[j..];
    assert now[..j] == affects[..i] + kept;
  }

  type WearLoc = int

  const WEAR_NONE: WearLoc := 0
  const WEAR_WRIST: WearLoc := 8
  const WEAR_WRIST_2: WearLoc := 9
  const WEAR_FINGER: WearLoc := 10
  const WEAR_FINGER_2: WearLoc := 11
  const WEAR_SHIELD: WearLoc := 19
  const WEAR_HOLD: WearLoc := 21
  const WEAR_FLOAT: WearLoc := 22

  datatype Item = Item(affects: seq<Affect>, wearLoc: WearLoc, wearFlags: WearLoc, level: int)

  function ItemShift(o: Item, at: Attribute): int {
    if o.wearLoc == WEAR_NONE then 0 else Total(o.affects, at)
  }

  function TotalWorn(items: seq<Item>, at: Attribute): int {
    if items == [] then 0 else ItemShift(items[0], at) + TotalWorn(items[1..], at)
  }

  predicate ValidAffects(affects: seq<Affect>) {
    forall a :: a in affects ==> a.callback.Valid()
  }

  predicate ValidItems(items: seq<Item>) {
    forall o :: o in items ==> ValidAffects(o.affects)
  }

  /** At most one carried item is worn at each place. */
  predicate OnePerSlot(items: seq<Item>) {
    forall i, j :: 0 <= i < j < |items| && items[i].wearLoc != WEAR_NONE ==> items[i].wearLoc != items[j].wearLoc
  }

  lemma {:induction false} TotalOfUpdate(items: seq<Item>, k: nat, o: Item, at: Attribute)
    requires k < |items|
    ensures TotalWorn(items[k := o], at) == TotalWorn(items, at) - ItemShift(items[k], at) + ItemShift(o, at)
  {
    if k == 0 {
      assert items[0 := o][1..] == items[1..];
    } else {
      assert items[k := o][1..] == items[1..][k - 1 := o];
      TotalOfUpdate(items[1..], k - 1, o, at);
    }
  }

  lemma {:induction false} TotalOfRemoval(s: seq<Affect>, i: nat, at: Attribute)
    requires i < |s|
    ensures Total(s[..i] + s[i + 1..], at) == Total(s, at) - Shift(s[i], at)
  {
    if i == 0 {
      assert s[..0] + s[1..] == s[1..];
    } else {
      assert (s[..i] + s[i + 1..])[1..] == s[1..][..i - 1] + s[1..][i..];
      TotalOfRemoval(s[1..], i - 1, at);
    }
  }

  lemma {:induction false} TotalWithoutItem(s: seq<Item>, i: nat, at: Attribute)
    requires i < |s|
    ensures TotalWorn(s[..i] + s[i + 1..], at) == TotalWorn(s, at) - ItemShift(s[i], at)
  {
    if i == 0 {
      assert s[..0] + s[1..] == s[1..];
    } else {
      assert (s[..i] + s[i + 1..])[1..] == s[1..][..i - 1] + s[1..][i..];
      TotalWithoutItem(s[1..], i - 1, at);
    }
  }

  lemma {:induction false} TotalOfPart(s: seq<Affect>, i: nat, at: Attribute)
    requires i < |s|
    ensures Total(s[..i + 1], at) == Total(s[..i], at) + Shift(s[i], at)
  {
    if i == 0 {
      assert s[..1][1..] == [] && s[..0] == [];
    } else {
      assert s[..i + 1][1..] == s[1..][..i] && s[..i][1..] == s[1..][..i - 1];
      TotalOfPart(s[1..], i - 1, at);
    }
  }

  lemma {:induction false} SameShiftsSameTotal(s: seq<Affect>, i: nat, a: Affect, at: Attribute)
    requires i < |s| && Shift(a, at) == Shift(s[i], at)
    ensures Total(s[i := a], at) == Total(s, at)
  {
    if i == 0 {
      assert s[0 := a][1..] == s[1..];
    } else {
      assert s[i := a][1..] == s[1..][i - 1 := a];
      SameShiftsSameTotal(s[1..], i - 1, a, at);
    }
  }

  /** What the tick does to a list of affects: counts down, drops what has run out, keeps what is permanent. */
  function Ticked(affects: seq<Affect>, fades: seq<bool>): seq<Affect>
    requires |fades| == |affects|
  {
    if affects == [] then []
    else
      var a := affects[0];
      (if a.duration == 0 then [] else [Aged(a, fades[0])]) + Ticked(affects[1..], fades[1..])
  }

  function Aged(a: Affect, fade: bool): Affect {
    if a.duration > 0 then a.(duration := a.duration - 1, level := if fade && a.level > 0 then a.level - 1 else a.level)
    else a
  }

  // ---------------------------------------------------------------- what the operations make of affects and items

  predicate Occupied(items: seq<Item>, loc: WearLoc) {
    exists j :: 0 <= j < |items| && items[j].wearLoc == loc
  }

  /** Where an object with these flags can go, the first choice first. */
  function Slots(flags: WearLoc): seq<WearLoc> {
    if flags == WEAR_WRIST then [WEAR_WRIST, WEAR_WRIST_2]
    else if flags == WEAR_FINGER then [WEAR_FINGER, WEAR_FINGER_2]
    else if SingleSlot(flags) then [flags]
    else []
  }

  /** The flags with a case of their own in wear_obj, apart from wrist and finger: none for WEAR_HOLD. */
  predicate SingleSlot(flags: WearLoc) {
    1 <= flags <= 7 || 12 <= flags <= 20 || flags == WEAR_FLOAT
  }

  predicate AnyFree(items: seq<Item>, slots: seq<WearLoc>) {
    exists l :: l in slots && !Occupied(items, l)
  }

  function FirstFree(items: seq<Item>, slots: seq<WearLoc>): (l: WearLoc)
    requires AnyFree(items, slots)
    ensures l in slots && !Occupied(items, l)
  {
    if !Occupied(items, slots[0]) then slots[0] else FirstFree(items, slots[1..])
  }

  function Cleared(items: seq<Item>, loc: WearLoc): (r: seq<Item>)
    ensures |r| == |items|
    ensures forall j :: 0 <= j < |items| ==>
      r[j] == if items[j].wearLoc == loc then items[j].(wearLoc := WEAR_NONE) else items[j]
  {
    seq(|items|, j requires 0 <= j < |items| =>
      if items[j].wearLoc == loc then items[j].(wearLoc := WEAR_NONE) else items[j])
  }

  /** wear_obj in one step: the object goes to its first free place, or with fReplace to its first place, whose
      object then comes off. */
  function AfterWear(items: seq<Item>, k: nat, fReplace: bool, usable: bool): (r: seq<Item>)
    requires k < |items| && items[k].wearLoc == WEAR_NONE
    ensures |r| == |items|
  {
    var slots := Slots(items[k].wearFlags);
    if !usable || slots == [] then items
    else if AnyFree(items, slots) then items[k := items[k].(wearLoc := FirstFree(items, slots))]
    else if fReplace then Cleared(items, slots[0])[k := items[k].(wearLoc := slots[0])]
    else items
  }

  /** The level and the class decide whether the object can be used at all. */
  predicate Usable(o: Item, level: int, fMana: bool) {
    level >= o.level && (o.wearFlags == WEAR_SHIELD ==> !fMana) && (o.wearFlags == WEAR_FLOAT ==> fMana)
  }

  /** Wearing leaves two objects at no place, ends with the object worn exactly when it can be used and has a
      place that is free or may be cleared, and takes off at most one object, only when no place was free. */
  lemma {:induction false} WearIsModest(items: seq<Item>, k: nat, fReplace: bool, usable: bool)
    requires k < |items| && items[k].wearLoc == WEAR_NONE && OnePerSlot(items)
    ensures var r, slots := AfterWear(items, k, fReplace, usable), Slots(items[k].wearFlags);
            && OnePerSlot(r)
            && (r[k].wearLoc != WEAR_NONE <==> usable && slots != [] && (fReplace || AnyFree(items, slots)))
            && (r[k].wearLoc != WEAR_NONE ==> r[k].wearLoc in slots)
            && (forall i :: 0 <= i < |items| && i != k && r[i] != items[i] ==>
                  fReplace && !AnyFree(items, slots) && r[i] == items[i].(wearLoc := WEAR_NONE))
            && (forall i, j :: 0 <= i < j < |items| && i != k && j != k ==> r[i] == items[i] || r[j] == items[j])
  {
    var r, slots := AfterWear(items, k, fReplace, usable), Slots(items[k].wearFlags);
    if usable && slots != [] && !AnyFree(items, slots) && fReplace {
      assert forall i :: 0 <= i < |items| && i != k ==> r[i] == Cleared(items, slots[0])[i];
    }
  }

  lemma {:induction false} FreeOfOne(items: seq<Item>, loc: WearLoc)
    ensures AnyFree(items, [loc]) <==> !Occupied(items, loc)
    ensures !Occupied(items, loc) ==> FirstFree(items, [loc]) == loc && Cleared(items, loc) == items
  {
    assert loc in [loc];
    assert !Occupied(items, loc) ==> forall j :: 0 <= j < |items| ==> Cleared(items, loc)[j] == items[j];
  }

  lemma {:induction false} FreeOfTwo(items: seq<Item>, first: WearLoc, second: WearLoc)
    ensures AnyFree(items, [first, second]) <==> !Occupied(items, first) || !Occupied(items, second)
    ensures !Occupied(items, first) ==> FirstFree(items, [first, second]) == first
    ensures Occupied(items, first) && !Occupied(items, second) ==> FirstFree(items, [first, second]) == second
  {
    assert first in [first, second] && second in [first, second];
    FreeOfOne(items, second);
    assert [first, second][1..] == [second];
  }

  lemma {:induction false} NothingWorn(items: seq<Item>, at: Attribute)
    requires forall o :: o in items ==> o.wearLoc == WEAR_NONE
    ensures TotalWorn(items, at) == 0
  {
    if items != [] {
      NothingWorn(items[1..], at);
    }
  }

  // ---------------------------------------------------------------- the ledger as sums

  /** The modifiers of the affects with a callback, added up. */
  function Sum(affects: seq<Affect>, callback: Callback): int {
    if affects == [] then 0
    else (if affects[0].callback == callback then affects[0].modifier else 0) + Sum(affects[1..], callback)
  }

  /** The same over the affects of the items that are worn. */
  function SumWorn(items: seq<Item>, callback: Callback): int {
    if items == [] then 0
    else (if items[0].wearLoc != 0 then Sum(items[0].affects, callback) else 0) + SumWorn(items[1..], callback)
  }

  /** The callback that moves an attribute; of the resistances only the first three are moved. */
  function Moves(at: Attribute): Callback {
    match at
    case Stat(s) => ApplyStat(s)
    case Resist(d) => if d <= 2 then ApplyResists else NoCallback
    case Sex => ApplySex
    case Level => ApplyLevel
    case Mana => ApplyMana
    case Move => ApplyMove
    case Hit => ApplyHit
  }

  lemma {:induction false} TotalIsSum(affects: seq<Affect>, at: Attribute)
    ensures Total(affects, at) == if Moves(at) == NoCallback then 0 else Sum(affects, Moves(at))
  {
    if affects != [] {
      TotalIsSum(affects[1..], at);
    }
  }

  lemma {:induction false} TotalWornIsSum(items: seq<Item>, at: Attribute)
    ensures TotalWorn(items, at) == if Moves(at) == NoCallback then 0 else SumWorn(items, Moves(at))
  {
    if items != [] {
      TotalIsSum(items[0].affects, at);
      TotalWornIsSum(items[1..], at);
    }
  }

  // ---------------------------------------------------------------- where an object goes

  /** Everything stays as it was except object k, which is worn at the place, and what was worn there. */
  predicate WornAt(items: seq<Item>, r: seq<Item>, k: nat, loc: WearLoc)
    requires k < |items|
  {
    && |r| == |items| && r[k] == items[k].(wearLoc := loc)
    && forall j :: 0 <= j < |items| && j != k ==>
         r[j] == if items[j].wearLoc == loc then items[j].(wearLoc := 0) else items[j]
  }

  /** Wrists are 8 and 9, fingers 10 and 11: the first one if it is free, else the second one if it is free, else the
      first one if it may be cleared. Nothing is held in 21, and every other place of the body is its own. */
  lemma {:induction false} WornWhere(items: seq<Item>, k: nat, fReplace: bool)
    requires k < |items| && items[k].wearLoc == 0
    ensures var r, f := AfterWear(items, k, fReplace, true), items[k].wearFlags;
            if f == 8 || f == 10
            then if !Occupied(items, f) then WornAt(items, r, k, f)
                 else if !Occupied(items, f + 1) then WornAt(items, r, k, f + 1)
                 else if fReplace then WornAt(items, r, k, f)
                 else r == items
            else if 1 <= f <= 22 && f != 9 && f != 11 && f != 21
            then if fReplace || !Occupied(items, f) then WornAt(items, r, k, f) else r == items
            else r == items
    ensures AfterWear(items, k, fReplace, false) == items
  {
    var f := items[k].wearFlags;
    hide AfterWear, FirstFree, AnyFree, Occupied;
    AfterWearIs(items, k, fReplace);
    FreeOfOne(items, f);
    FreeOfTwo(items, f, f + 1);
    if !Occupied(items, f) {
      NobodyThere(items, f);
    }
    if !Occupied(items, f + 1) {
      NobodyThere(items, f + 1);
    }
  }

  lemma {:induction false} AfterWearIs(items: seq<Item>, k: nat, fReplace: bool)
    requires k < |items| && items[k].wearLoc == 0
    ensures var r, slots := AfterWear(items, k, fReplace, true), Slots(items[k].wearFlags);
            r == if slots == [] then items
                 else if AnyFree(items, slots) then items[k := items[k].(wearLoc := FirstFree(items, slots))]
                 else if fReplace then Cleared(items, slots[0])[k := items[k].(wearLoc := slots[0])]
                 else items
    ensures AfterWear(items, k, fReplace, false) == items
  {
  }

  lemma {:induction false} NobodyThere(items: seq<Item>, loc: WearLoc)
    requires !Occupied(items, loc)
    ensures forall j :: 0 <= j < |items| ==> items[j].wearLoc != loc
  {
  }

  // ---------------------------------------------------------------- wearing everything

  /** The level of a character with these affects and items, whose attributes are in order. */
  function LevelWith(affects: seq<Affect>, items: seq<Item>, baseLevel: int): int {
    baseLevel + Total(affects, Level) + TotalWorn(items, Level)
  }

  /** Whether wear all puts the object on that comes after the first k, which have been tried. */
  predicate Tries(affects: seq<Affect>, items: seq<Item>, k: nat, canSee: seq<bool>, baseLevel: int, fMana: bool)
    requires k < |items| == |canSee|
  {
    && items[k].wearLoc == WEAR_NONE && canSee[k]
    && Usable(items[k], LevelWith(affects, items, baseLevel), fMana) && AnyFree(items, Slots(items[k].wearFlags))
  }

  /** Nothing happens to an object, except that one that was not worn may be put on at a place of its own kind. */
  predicate PutOn(was: Item, o: Item) {
    o == was || (was.wearLoc == WEAR_NONE && o == was.(wearLoc := o.wearLoc) && o.wearLoc in Slots(o.wearFlags))
  }

  /** The items after wear all has tried the first k: an object that is put on can change the level that decides
      about the next. */
  function WornUpTo(affects: seq<Affect>, items: seq<Item>, k: nat, canSee: seq<bool>, baseLevel: int, fMana: bool):
      (r: seq<Item>)
    requires k <= |items| == |canSee|
    ensures |r| == |items| && forall j :: k <= j < |items| ==> r[j] == items[j]
  {
    if k == 0 then items
    else
      var was := WornUpTo(affects, items, k - 1, canSee, baseLevel, fMana);
      if Tries(affects, was, k - 1, canSee, baseLevel, fMana)
      then was[k - 1 := was[k - 1].(wearLoc := FirstFree(was, Slots(was[k - 1].wearFlags)))] else was
  }

  lemma {:induction false} WornNext(affects: seq<Affect>, items: seq<Item>, k: nat, canSee: seq<bool>,
      baseLevel: int, fMana: bool)
    requires k < |items| == |canSee|
    ensures var was := WornUpTo(affects, items, k, canSee, baseLevel, fMana);
            WornUpTo(affects, items, k + 1, canSee, baseLevel, fMana) ==
              if was[k].wearLoc == WEAR_NONE && canSee[k]
              then AfterWear(was, k, false, Usable(was[k], LevelWith(affects, was, baseLevel), fMana)) else was
  {
    hide Usable, LevelWith;
  }

  /** What has been tried stays, and a place that was taken stays taken. */
  lemma {:induction false} WornStays(affects: seq<Affect>, items: seq<Item>, j: nat, k: nat, canSee: seq<bool>,
      baseLevel: int, fMana: bool)
    requires j <= k <= |items| == |canSee|
    ensures var r, s := WornUpTo(affects, items, j, canSee, baseLevel, fMana),
                        WornUpTo(affects, items, k, canSee, baseLevel, fMana);
            && (forall i :: 0 <= i < j ==> s[i] == r[i])
            && (forall l :: l != WEAR_NONE && Occupied(r, l) ==> Occupied(s, l))
  {
    if j < k {
      WornStays(affects, items, j, k - 1, canSee, baseLevel, fMana);
      var was, s := WornUpTo(affects, items, k - 1, canSee, baseLevel, fMana),
                    WornUpTo(affects, items, k, canSee, baseLevel, fMana);
      hide WornUpTo, LevelWith, Usable, FirstFree, Slots;
      forall l | l != WEAR_NONE && Occupied(was, l)
        ensures Occupied(s, l)
      {
        var i :| 0 <= i < |was| && was[i].wearLoc == l;
        assert s[i].wearLoc == l;
      }
    }
  }

  /** Wear all leaves an object off that was not worn exactly when it cannot be seen, or cannot be used at the level
      of its turn, or has no place that is free then; and a place that was not free then is not free at the end. */
  lemma {:induction false} WornInTheEnd(affects: seq<Affect>, items: seq<Item>, j: nat, canSee: seq<bool>,
      baseLevel: int, fMana: bool)
    requires j < |items| == |canSee| && items[j].wearLoc == WEAR_NONE
    ensures var r, s := WornUpTo(affects, items, j, canSee, baseLevel, fMana),
                        WornUpTo(affects, items, |items|, canSee, baseLevel, fMana);
            && (s[j].wearLoc == WEAR_NONE <==>
                  || !canSee[j]
                  || !Usable(items[j], LevelWith(affects, r, baseLevel), fMana)
                  || !AnyFree(r, Slots(items[j].wearFlags)))
            && (!AnyFree(r, Slots(items[j].wearFlags)) ==> !AnyFree(s, Slots(items[j].wearFlags)))
  {
    var r := WornUpTo(affects, items, j, canSee, baseLevel, fMana);
    WornStays(affects, items, j + 1, |items|, canSee, baseLevel, fMana);
    WornStays(affects, items, j, |items|, canSee, baseLevel, fMana);
    assert WEAR_NONE !in Slots(items[j].wearFlags);
    hide LevelWith, Usable, Slots, Occupied;
  }

  // ---------------------------------------------------------------- runs

  datatype Sheet = Sheet(affects: seq<Affect>, carrying: seq<Item>)

  datatype Op =
    | Gain(paf: Affect) | Lose(i: nat) | Enchant(k: nat, paf: Affect)
    | Equip(k: nat, loc: WearLoc) | Unequip(k: nat) | Get(o: Item) | Drop(k: nat)
    | Wear(k: nat, fReplace: bool) | Remove(loc: WearLoc) | TryAll(canSee: seq<bool>) | Pulse(fades: seq<bool>)

  /** What the callers see to: indexes that exist, only additive affects, and objects that are not worn when they
      are equipped, picked up or given away. */
  predicate Legal(s: Sheet, op: Op) {
    match op
    case Gain(paf) => paf.callback.Valid()
    case Lose(i) => s.affects == [] || i < |s.affects|
    case Enchant(k, paf) => k < |s.carrying| && paf.callback.Valid()
    case Equip(k, loc) => k < |s.carrying| && s.carrying[k].wearLoc == WEAR_NONE && loc != WEAR_NONE
    case Unequip(k) => k < |s.carrying|
    case Get(o) => ValidAffects(o.affects) && o.wearLoc == WEAR_NONE
    case Drop(k) => k < |s.carrying| && s.carrying[k].wearLoc == WEAR_NONE
    case Wear(k, _) => k < |s.carrying| && s.carrying[k].wearLoc == WEAR_NONE
    case Remove(loc) => loc != WEAR_NONE
    case TryAll(canSee) => |canSee| == |s.carrying|
    case Pulse(fades) => |fades| == |s.affects|
  }

  function After(s: Sheet, op: Op, baseLevel: int, fMana: bool): Sheet
    requires Legal(s, op)
  {
    var a, c := s.affects, s.carrying;
    match op
    case Gain(paf) => s.(affects := [paf] + a)
    case Lose(i) => s.(affects := if a == [] then [] else a[..i] + a[i + 1..])
    case Enchant(k, paf) => s.(carrying := c[k := c[k].(affects := [paf] + c[k].affects)])
    case Equip(k, loc) => if Occupied(c, loc) then s else s.(carrying := c[k := c[k].(wearLoc := loc)])
    case Unequip(k) => s.(carrying := c[k := c[k].(wearLoc := WEAR_NONE)])
    case Get(o) => s.(carrying := [o] + c)
    case Drop(k) => s.(carrying := c[..k] + c[k + 1..])
    case Wear(k, fReplace) =>
      s.(carrying := AfterWear(c, k, fReplace, Usable(c[k], LevelWith(a, c, baseLevel), fMana)))
    case Remove(loc) => s.(carrying := Cleared(c, loc))
    case TryAll(canSee) => s.(carrying := WornUpTo(a, c, |c|, canSee, baseLevel, fMana))
    case Pulse(fades) => s.(affects := Ticked(a, fades))
  }

  predicate LegalRun(s: Sheet, ops: seq<Op>, baseLevel: int, fMana: bool)
    decreases ops
  {
    ops == [] || (Legal(s, ops[0]) && LegalRun(After(s, ops[0], baseLevel, fMana), ops[1..], baseLevel, fMana))
  }

  function AfterAll(s: Sheet, ops: seq<Op>, baseLevel: int, fMana: bool): Sheet
    requires LegalRun(s, ops, baseLevel, fMana)
    decreases ops
  {
    if ops == [] then s else AfterAll(After(s, ops[0], baseLevel, fMana), ops[1..], baseLevel, fMana)
  }

  // ---------------------------------------------------------------- how long an affect lasts

  /** What is left of an affect after n ticks: it has counted down by n unless it is permanent, its level may have
      fallen by as much but not below zero, and it does what it did. */
  predicate Left(a: Affect, r: Affect, n: nat) {
    && r.modifier == a.modifier && r.callback == a.callback
    && r.duration == (if a.duration < 0 then a.duration else a.duration - n)
    && a.level - n <= r.level <= a.level && (a.level >= 0 ==> r.level >= 0)
    && (a.level < 0 || a.duration < 0 ==> r.level == a.level)
  }

  /** After n ticks exactly those are left that are permanent or had n ticks to go, in their order. */
  predicate Outlast(affects: seq<Affect>, rest: seq<Affect>, n: nat) {
    if affects == [] then rest == []
    else if affects[0].duration < 0 || affects[0].duration >= n
    then rest != [] && Left(affects[0], rest[0], n) && Outlast(affects[1..], rest[1..], n)
    else Outlast(affects[1..], rest, n)
  }

  lemma {:induction false} OneTick(affects: seq<Affect>, fades: seq<bool>)
    requires |fades| == |affects|
    ensures Outlast(affects, Ticked(affects, fades), 1)
  {
    if affects != [] {
      OneTick(affects[1..], fades[1..]);
      var a, rest := affects[0], Ticked(affects[1..], fades[1..]);
      if a.duration != 0 {
        assert Ticked(affects, fades)[1..] == rest;
      } else {
        assert Ticked(affects, fades) == rest;
      }
    }
  }

  lemma {:induction false} OutlastNothing(affects: seq<Affect>)
    ensures Outlast(affects, affects, 0)
  {
    if affects != [] {
      OutlastNothing(affects[1..]);
    }
  }

  lemma {:induction false} OutlastBoth(affects: seq<Affect>, mid: seq<Affect>, rest: seq<Affect>, n: nat, m: nat)
    requires Outlast(affects, mid, n) && Outlast(mid, rest, m)
    ensures Outlast(affects, rest, n + m)
  {
    if affects != [] {
      var a := affects[0];
      if a.duration < 0 || a.duration >= n {
        var tail := if mid[0].duration < 0 || mid[0].duration >= m then rest[1..] else rest;
        OutlastBoth(affects[1..], mid[1..], tail, n, m);
      } else {
        OutlastBoth(affects[1..], mid, rest, n, m);
      }
    }
  }

  lemma {:induction false} NoneOutlast(affects: seq<Affect>, rest: seq<Affect>, n: nat)
    requires Outlast(affects, rest, n) && forall a :: a in affects ==> 0 <= a.duration < n
    ensures rest == []
  {
    if affects != [] {
      assert affects[0] in affects;
      NoneOutlast(affects[1..], rest, n);
    }
  }

  predicate OnlyTicks(ops: seq<Op>) {
    forall op :: op in ops ==> op.Pulse?
  }

  /** After any number of ticks exactly those affects are left that outlast them, and nothing else has changed. */
  lemma {:induction false} TicksLeave(s: Sheet, ops: seq<Op>, baseLevel: int, fMana: bool)
    requires LegalRun(s, ops, baseLevel, fMana) && OnlyTicks(ops)
    ensures var r := AfterAll(s, ops, baseLevel, fMana);
            Outlast(s.affects, r.affects, |ops|) && r.carrying == s.carrying
    decreases ops
  {
    if ops == [] {
      OutlastNothing(s.affects);
    } else {
      assert ops[0] in ops;
      var next := After(s, ops[0], baseLevel, fMana);
      OneTick(s.affects, ops[0].fades);
      TicksLeave(next, ops[1..], baseLevel, fMana);
      hide Outlast, After;
      OutlastBoth(s.affects, next.affects, AfterAll(s, ops, baseLevel, fMana).affects, 1, |ops| - 1);
    }
  }

  /** More ticks than every affect has to go leave none. */
  lemma {:induction false} TicksEndAll(s: Sheet, ops: seq<Op>, baseLevel: int, fMana: bool)
    requires LegalRun(s, ops, baseLevel, fMana) && OnlyTicks(ops)
    requires forall a :: a in s.affects ==> 0 <= a.duration < |ops|
    ensures AfterAll(s, ops, baseLevel, fMana) == Sheet([], s.carrying)
  {
    TicksLeave(s, ops, baseLevel, fMana);
    NoneOutlast(s.affects, AfterAll(s, ops, baseLevel, fMana).affects, |ops|);
  }

  // ---------------------------------------------------------------- storage

  /** A column of a stored object. */
  datatype Column = Column(name: string, value: int)

  /** new_object */
  const NEW_OBJECT := Item([], WEAR_NONE, WEAR_NONE, 0)

  /** The columns of save_object that are modelled; there is none for the place or for the affects. */
  function SavedColumns(o: Item): seq<Column> {
    [Column("wearFlags", o.wearFlags), Column("level", o.level)]
  }

  function WithColumn(o: Item, c: Column): Item {
    if SameName(c.name, "level") then o.(level := c.value)
    else if SameName(c.name, "wearFlags") then o.(wearFlags := c.value)
    else o
  }

  function WithColumns(o: Item, columns: seq<Column>): Item
    decreases columns
  {
    if columns == [] then o else WithColumns(WithColumn(o, columns[0]), columns[1..])
  }

  function LoadedItem(columns: seq<Column>): Item {
    WithColumns(NEW_OBJECT, columns)
  }

  /** load_obj_columns */
  method LoadColumns(columns: seq<Column>) returns (obj: Item)
    ensures obj == LoadedItem(columns)
  {
    obj := NEW_OBJECT;
    var rest := columns;
    while rest != []
      invariant WithColumns(obj, rest) == LoadedItem(columns)
      decreases rest
    {
      var other := StrCmp(rest[0].name, "level");
      if !other {
        obj := obj.(level := rest[0].value);
      } else {
        other := StrCmp(rest[0].name, "wearFlags");
        if !other {
          obj := obj.(wearFlags := rest[0].value);
        }
      }
      rest := rest[1..];
    }
  }

  /** Whatever the columns are, they restore neither a place nor an affect. */
  lemma {:induction false} NothingRestored(columns: seq<Column>, o: Item)
    ensures WithColumns(o, columns).wearLoc == o.wearLoc && WithColumns(o, columns).affects == o.affects
    decreases columns
  {
    if columns != [] {
      NothingRestored(columns[1..], WithColumn(o, columns[0]));
    }
  }

  /** The columns are told apart by their names. */
  lemma {:induction false} LoadedByName(o: Item, n: int)
    ensures WithColumns(o, [Column("level", n)]) == o.(level := n)
    ensures WithColumns(o, [Column("wearFlags", n)]) == o.(wearFlags := n)
  {
    assert [Column("level", n)][1..] == [] && [Column("wearFlags", n)][1..] == [];
    assert !SameName("wearFlags", "level");
    assert SameName("wearFlags", "wearFlags") && SameName("level", "level");
  }

  /** Saving and loading takes an object off and takes its affects away; it keeps an object exactly when it was not
      worn and had none. */
  lemma {:induction false} SavedUnworn(o: Item)
    ensures LoadedItem(SavedColumns(o)) == o.(wearLoc := WEAR_NONE, affects := [])
    ensures LoadedItem(SavedColumns(o)) == o <==> o.wearLoc == WEAR_NONE && o.affects == []
  {
    var cs := SavedColumns(o);
    assert !SameName("wearFlags", "level");
    assert SameName("wearFlags", "wearFlags") && SameName("level", "level");
    assert cs[1..] == [Column("level", o.level)] && cs[1..][1..] == [];
    assert WithColumns(NEW_OBJECT, cs) == WithColumns(NEW_OBJECT.(wearFlags := o.wearFlags), cs[1..]);
  }

  lemma {:induction false} FirstSlot(items: seq<Item>, o: Item)
    requires OnePerSlot(items)
    ensures OnePerSlot([o] + items) <==> o.wearLoc == WEAR_NONE || !Occupied(items, o.wearLoc)
  {
    var all := [o] + items;
    if o.wearLoc != WEAR_NONE && Occupied(items, o.wearLoc) {
      var j :| 0 <= j < |items| && items[j].wearLoc == o.wearLoc;
      assert all[0] == o && all[j + 1] == items[j];
    }
    assert forall j :: 0 <= j < |items| ==> all[j + 1] == items[j];
  }

  /** The attributes of a new character. */
  function Unaffected(at: Attribute, level: int): int {
    match at
    case Stat(_) => 0
    case Resist(d) => if d < MAX_DAM then 100 else 0
    case Sex => 0
    case Level => level
    case Mana => 100
    case Move => 100
    case Hit => 100
  }

  class Character {
    var statMods: seq<int>
    var resists: seq<int>
    var sex: int
    var level: int
    var maxMana: int
    var maxMove: int
    var maxHit: int
    var affects: seq<Affect>
    var carrying: seq<Item>
    /** Whether the character's first class uses mana, which decides about shields and floating objects. */
    const fMana: bool
    /** The attributes without any affect. */
    ghost const base: Attribute -> int

    predicate Valid()
      reads this
    {
      && |statMods| == MAX_STAT && |resists| == MAX_DAM
      && ValidAffects(affects) && ValidItems(carrying) && OnePerSlot(carrying)
    }

    function Value(at: Attribute): int
      reads this
    {
      match at
      case Stat(s) => if s < |statMods| then statMods[s] else 0
      case Resist(d) => if d < |resists| then resists[d] else 0
      case Sex => sex
      case Level => level
      case Mana => maxMana
      case Move => maxMove
      case Hit => maxHit
    }

    /** Every attribute is what it would be without affects, plus the affects on the character and on
        what the character wears. */
    ghost predicate Ledger()
      reads this
    {
      forall at: Attribute :: Value(at) == base(at) + Total(affects, at) + TotalWorn(carrying, at)
    }

    constructor (level: int, fMana: bool)
      ensures Valid() && Ledger() && affects == [] && carrying == []
      ensures forall at: Attribute :: base(at) == Unaffected(at, level)
      ensures (forall s :: 0 <= s < 6 ==> statMods[s] == 0) && (forall d :: 0 <= d < 18 ==> resists[d] == 100)
      ensures sex == 0 && this.level == level && maxMana == maxMove == maxHit == 100
    {
      statMods, resists := seq(MAX_STAT, _ => 0), seq(MAX_DAM, _ => 100);
      sex, this.level, maxMana, maxMove, maxHit := 0, level, 100, 100, 100;
      affects, carrying, this.fMana := [], [], fMana;
      base := (at: Attribute) => Unaffected(at, level);
    }

    /** affect_modify: calls the affect's callback to add or to take back its modifier. */
    method AffectModify(paf: Affect, fAdd: bool)
      requires |statMods| == MAX_STAT && |resists| == MAX_DAM && paf.callback.Valid()
      modifies this
      ensures |statMods| == MAX_STAT && |resists| == MAX_DAM && affects == old(affects) && carrying == old(carrying)
      ensures forall at: Attribute :: Value(at) == old(Value(at)) + if fAdd then Shift(paf, at) else -Shift(paf, at)
    {
      var mod := if fAdd then paf.modifier else 0 - paf.modifier;
      match paf.callback
      case NoCallback =>
      case ApplyStat(s) => statMods := statMods[s := statMods[s] + mod];
      case ApplyResists =>
        var i := 0;
        while i <= DAM_SLASH
          invariant 0 <= i <= DAM_SLASH + 1 && |resists| == MAX_DAM
          invariant forall d :: 0 <= d < MAX_DAM ==> resists[d] == old(resists)[d] + if d < i then mod else 0
          invariant statMods == old(statMods) && sex == old(sex) && level == old(level) && maxMana == old(maxMana)
          invariant maxMove == old(maxMove) && maxHit == old(maxHit) && affects == old(affects)
              && carrying == old(carrying)
        {
          resists := resists[i := resists[i] + mod];
          i := i + 1;
        }
      case ApplySex => sex := sex + mod;
      case ApplyLevel => level := level + mod;
      case ApplyMana => maxMana := maxMana + mod;
      case ApplyMove => maxMove := maxMove + mod;
      case ApplyHit => maxHit := maxHit + mod;
    }

    /** The loops of equip_char and unequip_char over an object's affects. */
    method ModifyAll(pafs: seq<Affect>, fAdd: bool)
      requires |statMods| == MAX_STAT && |resists| == MAX_DAM && ValidAffects(pafs)
      modifies this
      ensures |statMods| == MAX_STAT && |resists| == MAX_DAM && affects == old(affects) && carrying == old(carrying)
      ensures forall at: Attribute :: Value(at) == old(Value(at)) + if fAdd then Total(pafs, at) else -Total(pafs, at)
    {
      var i := 0;
      while i < |pafs|
        invariant 0 <= i <= |pafs|
        invariant |statMods| == MAX_STAT && |resists| == MAX_DAM && affects == old(affects) && carrying == old(carrying)
        invariant forall at: Attribute ::
          Value(at) == old(Value(at)) + if fAdd then Total(pafs[..i], at) else -Total(pafs[..i], at)
      {
        ghost var before := i;
        AffectModify(pafs[i], fAdd);
        forall at: Attribute
          ensures Total(pafs[..i + 1], at) == Total(pafs[..i], at) + Shift(pafs[i], at)
        {
          TotalOfPart(pafs, i, at);
        }
        i := i + 1;
      }
      assert pafs[..i] == pafs;
    }

    /** affect_to_char: links the affect and lets it take hold. */
    method AffectToChar(paf: Affect)
      requires Valid() && paf.callback.Valid()
      modifies this
      ensures Valid() && affects == [paf] + old(affects) && carrying == old(carrying)
      ensures forall at: Attribute :: Value(at) == old(Value(at)) + Shift(paf, at)
      ensures old(Ledger()) ==> Ledger()
    {
      affects := [paf] + affects;
      AffectModify(paf, true);
    }

    /** affect_remove: takes the affect back and unlinks it. */
    method AffectRemove(i: nat)
      requires Valid() && (affects == [] || i < |affects|)
      modifies this
      ensures Valid() && carrying == old(carrying)
      ensures affects == if old(affects) == [] then [] else old(affects)[..i] + old(affects)[i + 1..]
      ensures old(Ledger()) ==> Ledger()
    {
      if affects == [] {
        return;
      }
      AffectModify(affects[i], false);
      forall at: Attribute
        ensures Total(affects[..i] + affects[i + 1..], at) == Total(affects, at) - Shift(affects[i], at)
      {
        TotalOfRemoval(affects, i, at);
      }
      affects := affects[..i] + affects[i + 1..];
    }

    /** affect_to_obj for a carried object: an affect on a worn object takes hold at once. */
    method AffectToObj(k: nat, paf: Affect)
      requires Valid() && k < |carrying| && paf.callback.Valid()
      modifies this
      ensures Valid() && affects == old(affects)
      ensures carrying == old(carrying)[k := old(carrying)[k].(affects := [paf] + old(carrying)[k].affects)]
      ensures old(Ledger()) ==> Ledger()
    {
      var o := carrying[k].(affects := [paf] + carrying[k].affects);
      forall at: Attribute
        ensures TotalWorn(carrying[k := o], at) ==
                TotalWorn(carrying, at) - ItemShift(carrying[k], at) + ItemShift(o, at)
      {
        TotalOfUpdate(carrying, k, o, at);
      }
      carrying := carrying[k := o];
      if carrying[k].wearLoc != WEAR_NONE {
        AffectModify(paf, true);
      }
    }

    /** get_eq_char: the first object at the place, |carrying| for NULL. */
    method GetEqChar(iWear: WearLoc) returns (k: nat)
      ensures k <= |carrying| && (k < |carrying| ==> carrying[k].wearLoc == iWear)
      ensures k < |carrying| <==> Occupied(carrying, iWear)
    {
      k := 0;
      while k < |carrying|
        invariant 0 <= k <= |carrying|
        invariant forall j :: 0 <= j < k ==> carrying[j].wearLoc != iWear
      {
        if carrying[k].wearLoc == iWear {
          return;
        }
        k := k + 1;
      }
    }

    /** equip_char: does nothing when the place is taken. The ledger stays right for an object that was not worn. */
    method EquipChar(k: nat, iWear: WearLoc)
      requires Valid() && k < |carrying| && iWear != WEAR_NONE
      modifies this
      ensures Valid() && affects == old(affects)
      ensures carrying == if old(Occupied(carrying, iWear)) then old(carrying)
                          else old(carrying)[k := old(carrying)[k].(wearLoc := iWear)]
      ensures old(Occupied(carrying, iWear)) ==> forall at: Attribute :: Value(at) == old(Value(at))
      ensures old(Ledger()) && !old(Occupied(carrying, iWear)) ==>
        (Ledger() <==> forall at: Attribute :: ItemShift(old(carrying)[k], at) == 0)
    {
      var worn := GetEqChar(iWear);
      if worn < |carrying| {
        return;
      }
      var o := carrying[k].(wearLoc := iWear);
      forall at: Attribute
        ensures TotalWorn(carrying[k := o], at) ==
                TotalWorn(carrying, at) - ItemShift(carrying[k], at) + ItemShift(o, at)
      {
        TotalOfUpdate(carrying, k, o, at);
      }
      ghost var was := carrying;
      carrying := carrying[k := o];
      ModifyAll(carrying[k].affects, true);
      assert old(Ledger()) ==> forall at: Attribute ::
        Value(at) == base(at) + Total(affects, at) + TotalWorn(carrying, at) + ItemShift(was[k], at);
    }

    /** unequip_char: the exact undoing of equip_char. */
    method UnequipChar(k: nat)
      requires Valid() && k < |carrying|
      modifies this
      ensures Valid() && affects == old(affects)
      ensures carrying == old(carrying)[k := old(carrying)[k].(wearLoc := WEAR_NONE)]
      ensures old(Ledger()) ==> Ledger()
    {
      if carrying[k].wearLoc == WEAR_NONE {
        return;
      }
      ModifyAll(carrying[k].affects, false);
      var o := carrying[k].(wearLoc := WEAR_NONE);
      forall at: Attribute
        ensures TotalWorn(carrying[k := o], at) ==
                TotalWorn(carrying, at) - ItemShift(carrying[k], at) + ItemShift(o, at)
      {
        TotalOfUpdate(carrying, k, o, at);
      }
      carrying := carrying[k := o];
    }

    /** obj_to_char: adds nothing, so the ledger stays right exactly when the object has no place left from before or
        its affects cancel out; two objects get one place exactly when that place is taken. */
    method ObjToChar(o: Item)
      requires Valid() && ValidAffects(o.affects)
      modifies this
      ensures affects == old(affects) && carrying == [o] + old(carrying)
      ensures Valid() <==> o.wearLoc == WEAR_NONE || !old(Occupied(carrying, o.wearLoc))
      ensures forall at: Attribute :: Value(at) == old(Value(at))
      ensures old(Ledger()) ==> (Ledger() <==> forall at: Attribute :: ItemShift(o, at) == 0)
    {
      ghost var was := carrying;
      carrying := [o] + carrying;
      FirstSlot(was, o);
      assert old(Ledger()) ==> forall at: Attribute ::
        Value(at) == base(at) + Total(affects, at) + TotalWorn(carrying, at) - ItemShift(o, at);
    }

    /** obj_from_char: takes nothing back, so the ledger stays right exactly when nothing was in force. */
    method ObjFromChar(k: nat)
      requires Valid() && k < |carrying|
      modifies this
      ensures Valid() && affects == old(affects) && carrying == old(carrying)[..k] + old(carrying)[k + 1..]
      ensures forall at: Attribute :: Value(at) == old(Value(at))
      ensures old(Ledger()) ==> (Ledger() <==> forall at: Attribute :: ItemShift(old(carrying)[k], at) == 0)
    {
      forall at: Attribute
        ensures TotalWorn(carrying[..k] + carrying[k + 1..], at) == TotalWorn(carrying, at) - ItemShift(carrying[k], at)
      {
        TotalWithoutItem(carrying, k, at);
      }
      ghost var was := carrying;
      carrying := carrying[..k] + carrying[k + 1..];
      assert old(Ledger()) ==> forall at: Attribute ::
        Value(at) == base(at) + Total(affects, at) + TotalWorn(carrying, at) + ItemShift(was[k], at);
    }

    /** The loading of one carried object. Nothing that is loaded sets its place or its affects, so it is never
        equipped and the ledger stays right. */
    method LoadObject(columns: seq<Column>)
      requires Valid()
      modifies this
      ensures Valid() && affects == old(affects) && carrying == [LoadedItem(columns)] + old(carrying)
      ensures carrying[0].wearLoc == WEAR_NONE && carrying[0].affects == []
      ensures forall at: Attribute :: Value(at) == old(Value(at))
      ensures old(Ledger()) ==> Ledger()
    {
      var obj := LoadColumns(columns);
      NothingRestored(columns, NEW_OBJECT);
      carrying := [obj] + carrying;
      if obj.wearLoc != WEAR_NONE {
        assert false;  // where the source would equip the object
      }
    }

    /** One affect's turn: it ages, runs out or is permanent. */
    method TickAffect(i: nat, fade: bool) returns (next: nat)
      requires Valid() && i < |affects|
      modifies this
      ensures Valid() && carrying == old(carrying)
      ensures var a := old(affects)[i]; var kept := if a.duration == 0 then [] else [Aged(a, fade)];
              affects == old(affects)[..i] + kept + old(affects)[i + 1..] && next == i + |kept|
      ensures var a := old(affects)[i];
              if a.duration == 0 then affects == old(affects)[..i] + old(affects)[i + 1..]
              else |affects| == |old(affects)| && Left(a, affects[i], 1)
      ensures old(Ledger()) ==> Ledger()
    {
      var paf := affects[i];
      if paf.duration > 0 {
        var aged := paf.(duration := paf.duration - 1);
        if fade && aged.level > 0 {
          aged := aged.(level := aged.level - 1);
        }
        forall at: Attribute
          ensures Total(affects[i := aged], at) == Total(affects, at)
        {
          SameShiftsSameTotal(affects, i, aged, at);
        }
        affects := affects[i := aged];
        return i + 1;
      } else if paf.duration == 0 {
        AffectRemove(i);
        return i;
      }
      return i + 1;
    }

    /** The loop of character_update over the affects; fades are the outcomes of its dice. */
    method Tick(fades: seq<bool>)
      requires Valid() && |fades| == |affects|
      modifies this
      ensures Valid() && affects == Ticked(old(affects), fades) && carrying == old(carrying)
      ensures Outlast(old(affects), affects, 1)
      ensures old(Ledger()) ==> Ledger()
    {
      OneTick(affects, fades);
      var i, n := 0, 0;
      assert fades[0..] == fades && affects[0..] == affects;
      while n < |fades|
        invariant 0 <= n <= |fades| && 0 <= i <= |affects| && |affects| - i == |fades| - n
        invariant affects[..i] + Ticked(affects[i..], fades[n..]) == Ticked(old(affects), fades)
        invariant Valid() && carrying == old(carrying)
        invariant old(Ledger()) ==> Ledger()
      {
        hide *;
        TickStep(affects, i, fades[n..]);
        i := TickAffect(i, fades[n]);
        n := n + 1;
      }
      assert affects[..i] + [] == affects;
    }

    /** Every attribute, with the affects of its own callback added up. */
    lemma LedgerInFull(stat: nat, dam: nat)
      requires Valid() && Ledger() && stat < 6 && dam < 18
      ensures statMods[stat] ==
              base(Stat(stat)) + Sum(affects, ApplyStat(stat)) + SumWorn(carrying, ApplyStat(stat))
      ensures resists[dam] ==
              base(Resist(dam)) + if dam < 3 then Sum(affects, ApplyResists) + SumWorn(carrying, ApplyResists) else 0
      ensures sex == base(Sex) + Sum(affects, ApplySex) + SumWorn(carrying, ApplySex)
      ensures level == base(Level) + Sum(affects, ApplyLevel) + SumWorn(carrying, ApplyLevel)
      ensures maxMana == base(Mana) + Sum(affects, ApplyMana) + SumWorn(carrying, ApplyMana)
      ensures maxMove == base(Move) + Sum(affects, ApplyMove) + SumWorn(carrying, ApplyMove)
      ensures maxHit == base(Hit) + Sum(affects, ApplyHit) + SumWorn(carrying, ApplyHit)
    {
      assert Value(Stat(stat)) == statMods[stat] && Value(Resist(dam)) == resists[dam];
      assert Value(Sex) == sex && Value(Level) == level;
      assert Value(Mana) == maxMana && Value(Move) == maxMove && Value(Hit) == maxHit;
      forall at: Attribute
        ensures Total(affects, at) == if Moves(at) == NoCallback then 0 else Sum(affects, Moves(at))
        ensures TotalWorn(carrying, at) == if Moves(at) == NoCallback then 0 else SumWorn(carrying, Moves(at))
      {
        TotalIsSum(affects, at);
        TotalWornIsSum(carrying, at);
      }
      assert Moves(Stat(stat)) == ApplyStat(stat);
      assert Moves(Resist(dam)) == if dam < 3 then ApplyResists else NoCallback;
    }

    /** remove_obj: makes room at a place, or says that it may not. */
    method RemoveObj(iWear: WearLoc, fReplace: bool) returns (free: bool)
      requires Valid() && iWear != WEAR_NONE
      modifies this
      ensures Valid() && affects == old(affects)
      ensures free == (fReplace || !old(Occupied(carrying, iWear)))
      ensures carrying == if fReplace then Cleared(old(carrying), iWear) else old(carrying)
      ensures old(Ledger()) ==> Ledger()
    {
      var k := GetEqChar(iWear);
      if k == |carrying| {
        assert Cleared(carrying, iWear) == carrying;
        return true;
      }
      if !fReplace {
        return false;
      }
      assert Cleared(carrying, iWear) == carrying[k := carrying[k].(wearLoc := WEAR_NONE)];
      UnequipChar(k);
      return true;
    }

    /** wear_obj for an object that is carried and not worn, the only ones its callers pick. */
    method WearObj(k: nat, fReplace: bool)
      requires Valid() && k < |carrying| && carrying[k].wearLoc == WEAR_NONE
      modifies this
      ensures Valid() && affects == old(affects)
      ensures carrying == AfterWear(old(carrying), k, fReplace, Usable(old(carrying)[k], old(level), fMana))
      ensures old(level) < old(carrying)[k].level ==> carrying == old(carrying)
      ensures old(carrying)[k].wearFlags == (if fMana then 19 else 22) ==> carrying == old(carrying)
      ensures old(level) >= old(carrying)[k].level && old(carrying)[k].wearFlags != (if fMana then 19 else 22) ==>
                carrying == AfterWear(old(carrying), k, fReplace, true)
      ensures old(Ledger()) ==> Ledger()
    {
      var obj := carrying[k];
      if level < obj.level {
        return;
      }
      if (obj.wearFlags == WEAR_SHIELD && fMana) || (obj.wearFlags == WEAR_FLOAT && !fMana) {
        return;
      }
      if SingleSlot(obj.wearFlags) {
        WearAt(k, obj.wearFlags, fReplace);
      } else if obj.wearFlags == WEAR_WRIST {
        WearAtEither(k, WEAR_WRIST, WEAR_WRIST_2, fReplace);
      } else if obj.wearFlags == WEAR_FINGER {
        WearAtEither(k, WEAR_FINGER, WEAR_FINGER_2, fReplace);
      }
    }

    /** A case of wear_obj's switch for a single place. */
    method WearAt(k: nat, loc: WearLoc, fReplace: bool)
      requires Valid() && k < |carrying| && carrying[k].wearLoc == WEAR_NONE && Slots(carrying[k].wearFlags) == [loc]
      requires loc != WEAR_NONE
      modifies this
      ensures Valid() && affects == old(affects)
      ensures carrying == AfterWear(old(carrying), k, fReplace, true)
      ensures old(Ledger()) ==> Ledger()
    {
      var free := RemoveObj(loc, fReplace);
      FreeOfOne(old(carrying), loc);
      if !free {
        return;
      }
      EquipUnworn(k, loc);
    }

    /** The cases of wear_obj's switch for a pair of places. */
    method WearAtEither(k: nat, first: WearLoc, second: WearLoc, fReplace: bool)
      requires Valid() && k < |carrying| && carrying[k].wearLoc == WEAR_NONE
      requires Slots(carrying[k].wearFlags) == [first, second] && first != WEAR_NONE && second != WEAR_NONE
          && first != second
      modifies this
      ensures Valid() && affects == old(affects)
      ensures carrying == AfterWear(old(carrying), k, fReplace, true)
      ensures old(Ledger()) ==> Ledger()
    {
      FreeOfTwo(carrying, first, second);
      var atFirst := GetEqChar(first);
      var atSecond := GetEqChar(second);
      if atFirst < |carrying| && atSecond < |carrying| {
        var free := RemoveObj(first, fReplace);
        if !free {
          free := RemoveObj(second, fReplace);
          if !free {
            return;
          }
        }
      }
      atFirst := GetEqChar(first);
      if atFirst == |carrying| {
        EquipUnworn(k, first);
        return;
      }
      atSecond := GetEqChar(second);
      if atSecond == |carrying| {
        EquipUnworn(k, second);
      }
    }

    /** Equips an object that was not worn at a place that is free. */
    method EquipUnworn(k: nat, loc: WearLoc)
      requires Valid() && k < |carrying| && carrying[k].wearLoc == WEAR_NONE && loc != WEAR_NONE
          && !Occupied(carrying, loc)
      modifies this
      ensures Valid() && affects == old(affects)
      ensures carrying == old(carrying)[k := old(carrying)[k].(wearLoc := loc)]
      ensures old(Ledger()) ==> Ledger()
    {
      EquipChar(k, loc);
    }

    lemma LevelOfLedger()
      ensures Ledger() ==> level == LevelWith(affects, carrying, base(Level))
    {
      assert level == Value(Level);
    }

    /** The body of the loop of wear all: one carried object. */
    method TryObject(k: nat, canSee: bool)
      requires Valid() && k < |carrying|
      modifies this
      ensures Valid() && affects == old(affects) && |carrying| == |old(carrying)|
      ensures forall j :: 0 <= j < |carrying| && j != k ==> carrying[j] == old(carrying)[j]
      ensures PutOn(old(carrying)[k], carrying[k])
      ensures old(Ledger()) ==>
        Ledger() && carrying ==
          if old(carrying)[k].wearLoc == WEAR_NONE && canSee
          then AfterWear(old(carrying), k, false,
                         Usable(old(carrying)[k], LevelWith(affects, old(carrying), base(Level)), fMana))
          else old(carrying)
    {
      if carrying[k].wearLoc == WEAR_NONE && canSee {
        LevelOfLedger();
        WearIsModest(carrying, k, false, Usable(carrying[k], level, fMana));
        hide Usable, LevelWith;
        WearObj(k, false);
      }
    }

    /** Wear all has tried the first k objects of these; ledger says whether the attributes were in order before. */
    ghost predicate Tried(was: seq<Item>, k: nat, canSee: seq<bool>, ledger: bool)
      reads this
    {
      && Valid() && k <= |was| == |canSee| == |carrying|
      && (forall j :: 0 <= j < |was| ==> if j < k then PutOn(was[j], carrying[j]) else carrying[j] == was[j])
      && (ledger ==> Ledger() && carrying == WornUpTo(affects, was, k, canSee, base(Level), fMana))
    }

    method TryNext(k: nat, canSee: seq<bool>, ghost was: seq<Item>, ghost ledger: bool)
      requires k < |was| && Tried(was, k, canSee, ledger)
      modifies this
      ensures affects == old(affects) && Tried(was, k + 1, canSee, ledger)
    {
      WornNext(affects, was, k, canSee, base(Level), fMana);
      hide PutOn, WornUpTo, Valid, Ledger, AfterWear, Usable, LevelWith;
      TryObject(k, canSee[k]);
    }

    /** wear all: tries every carried object without taking anything off. */
    method WearAll(canSee: seq<bool>)
      requires Valid() && |canSee| == |carrying|
      modifies this
      ensures Valid() && affects == old(affects) && |carrying| == |old(carrying)|
      ensures forall j :: 0 <= j < |carrying| ==> PutOn(old(carrying)[j], carrying[j])
      ensures old(Ledger()) ==>
        Ledger() && carrying == WornUpTo(affects, old(carrying), |canSee|, canSee, base(Level), fMana)
    {
      ghost var was, ledger := carrying, Ledger();
      hide PutOn, WornUpTo, Valid, Ledger;
      var k := 0;
      NoneTried(canSee);
      while k < |carrying|
        invariant 0 <= k <= |carrying| == |was|
        invariant affects == old(affects) && Tried(was, k, canSee, ledger)
      {
        hide Tried;
        AllThere(was, k, canSee, ledger);
        TryNext(k, canSee, was, ledger);
        AllThere(was, k + 1, canSee, ledger);
        k := k + 1;
      }
    }

    lemma NoneTried(canSee: seq<bool>)
      requires Valid() && |canSee| == |carrying|
      ensures Tried(carrying, 0, canSee, Ledger())
    {
    }

    lemma AllThere(was: seq<Item>, k: nat, canSee: seq<bool>, ledger: bool)
      requires Tried(was, k, canSee, ledger)
      ensures |carrying| == |was|
    {
    }

    /** Taking off everything and letting every affect go leaves the attributes as if there had been none. */
    method UndoAll()
      requires Valid() && Ledger()
      modifies this
      ensures Valid() && affects == [] && |carrying| == |old(carrying)|
      ensures forall o :: o in carrying ==> o.wearLoc == WEAR_NONE
      ensures forall at: Attribute :: Value(at) == base(at)
    {
      while affects != []
        invariant Valid() && Ledger() && |carrying| == |old(carrying)|
        decreases |affects|
      {
        AffectRemove(0);
      }
      var k := 0;
      while k < |carrying|
        invariant 0 <= k <= |carrying| == |old(carrying)|
        invariant Valid() && Ledger() && affects == []
        invariant forall j :: 0 <= j < k ==> carrying[j].wearLoc == WEAR_NONE
      {
        UnequipChar(k);
        k := k + 1;
      }
      forall at: Attribute
        ensures TotalWorn(carrying, at) == 0
      {
        NothingWorn(carrying, at);
      }
    }

    function Now(): Sheet
      reads this
    {
      Sheet(affects, carrying)
    }

    /** One operation of a run. */
    method Perform(op: Op)
      requires Valid() && Ledger() && Legal(Now(), op)
      modifies this
      ensures Valid() && Ledger() && Now() == After(old(Now()), op, base(Level), fMana)
    {
      assert level == Value(Level);
      match op {
        case Gain(paf) => AffectToChar(paf);
        case Lose(i) => AffectRemove(i);
        case Enchant(k, paf) => AffectToObj(k, paf);
        case Equip(k, loc) => EquipChar(k, loc);
        case Unequip(k) => UnequipChar(k);
        case Get(o) => ObjToChar(o);
        case Drop(k) => ObjFromChar(k);
        case Wear(k, fReplace) => WearObj(k, fReplace);
        case Remove(loc) => var _ := RemoveObj(loc, true);
        case TryAll(canSee) => WearAll(canSee);
        case Pulse(fades) => Tick(fades);
      }
    }

    /** The affects of a character run out: after enough ticks every attribute is what it is without them. */
    method WaitOut(ops: seq<Op>)
      requires Valid() && Ledger() && LegalRun(Now(), ops, base(Level), fMana) && OnlyTicks(ops)
      requires forall a :: a in affects ==> 0 <= a.duration < |ops|
      modifies this
      ensures Valid() && Ledger() && affects == [] && carrying == old(carrying)
      ensures forall at: Attribute :: Value(at) == base(at) + TotalWorn(carrying, at)
    {
      TicksEndAll(Now(), ops, base(Level), fMana);
      Run(ops);
    }

    /** Whole runs: the ledger holds throughout, so every attribute is settled by what is left on the character. */
    method Run(ops: seq<Op>)
      requires Valid() && Ledger() && LegalRun(Now(), ops, base(Level), fMana)
      modifies this
      ensures Valid() && Ledger() && Now() == AfterAll(old(Now()), ops, base(Level), fMana)
      ensures forall at: Attribute :: Value(at) == base(at) + Total(Now().affects, at) + TotalWorn(Now().carrying, at)
      decreases ops
    {
      if ops != [] {
        Perform(ops[0]);
        Run(ops[1..]);
      }
    }
  }
}

/** src/explored.c: the set of explored rooms, its size, and the run lengths it is saved as. */
module Explored {
  import opened Flags
  import opened Shared
  import opened Text

  const ID_HASH := 256

  // ---------------------------------------------------------------- run lengths

  /** What is printed for the rooms still to come after a run of count equal ones. */
  function Runs(bit: bool, count: nat, seen: seq<bool>): string
    decreases seen
  {
    if seen == [] then "," + Digits(count) + ",-1"
    else if seen[0] == bit then Runs(bit, count + 1, seen[1..])
    else "," + Digits(count) + Runs(seen[0], 1, seen[1..])
  }

  function Seen(rooms: seq<nat>, explored: set<nat>): (s: seq<bool>)
    ensures |s| == |rooms| && forall k :: 0 <= k < |rooms| ==> s[k] == (rooms[k] in explored)
  {
    seq(|rooms|, k requires 0 <= k < |rooms| => rooms[k] in explored)
  }

  function Flatten(buckets: seq<seq<nat>>): seq<nat> {
    if buckets == [] then [] else buckets[0] + Flatten(buckets[1..])
  }

  function Encoded(rooms: seq<nat>, explored: set<nat>): string {
    "0" + Runs(false, 1, Seen(rooms, explored))
  }

  lemma {:induction false} FlattenFrom(buckets: seq<seq<nat>>, h: nat)
    requires h < |buckets|
    ensures Flatten(buckets[h..]) == buckets[h] + Flatten(buckets[h + 1..])
  {
    assert buckets[h..][1..] == buckets[h + 1..];
  }

  /** get_explored_rle: goes through the room table bucket by bucket. */
  method GetExploredRle(explored: Flag, roomHash: seq<seq<nat>>) returns (out: string)
    ensures out == Encoded(Flatten(roomHash), explored.Set())
  {
    ghost var s, all := explored.Set(), Flatten(roomHash);
    hide Members;
    var bit, count, hash := false, 1, 0;
    out := "0";
    assert roomHash[0..] == roomHash;
    while hash < |roomHash|
      invariant 0 <= hash <= |roomHash|
      invariant out + Runs(bit, count, Seen(Flatten(roomHash[hash..]), s)) == Encoded(all, s)
    {
      FlattenFrom(roomHash, hash);
      ghost var later := Flatten(roomHash[hash + 1..]);
      var rooms := roomHash[hash];
      assert rooms[0..] == rooms;
      out, bit, count := EncodeBucket(explored, rooms, later, s, out, bit, count);
      hash := hash + 1;
    }
    assert Seen([], s) == [];
    out := out + "," + Text.Digits(count) + ",-1";
  }

  /** The inner loop of get_explored_rle. */
  method EncodeBucket(explored: Flag, rooms: seq<nat>, ghost later: seq<nat>, ghost s: set<nat>, soFar: string,
      b: bool, c: nat)
    returns (out: string, bit: bool, count: nat)
    requires s == explored.Set()
    ensures out + Runs(bit, count, Seen(later, s)) == soFar + Runs(b, c, Seen(rooms + later, s))
  {
    hide Members;
    out, bit, count := soFar, b, c;
    var i := 0;
    assert rooms[0..] + later == rooms + later;
    while i < |rooms|
      invariant 0 <= i <= |rooms|
      invariant out + Runs(bit, count, Seen(rooms[i..] + later, s)) == soFar + Runs(b, c, Seen(rooms + later, s))
    {
      ghost var rest := rooms[i + 1..] + later;
      assert rooms[i..] + later == [rooms[i]] + rest;
      assert Seen(rooms[i..] + later, s) == [rooms[i] in s] + Seen(rest, s);
      var yes := explored.IsSet(rooms[i]);
      if yes == bit {
        count := count + 1;
      } else {
        out := out + "," + Text.Digits(count);
        count := 1;
        bit := yes;
      }
      i := i + 1;
    }
    assert rooms[i..] + later == later;
  }

  predicate InRange(k: nat, pos: nat, count: nat) {
    pos <= k < pos + count
  }

  function Interval(pos: nat, count: nat): (s: set<nat>)
    ensures forall k: nat :: k in s <==> pos <= k < pos + count
  {
    set k: nat | k < pos + count && InRange(k, pos, count)
  }

  /** What the decoder sets for the run lengths that are left. */
  function DecodeRuns(counts: seq<string>, bit: int, pos: nat): set<nat>
    decreases counts
  {
    if counts == [] || !LooksNumeric(counts[0]) then {}
    else
      var count := Atoi(counts[0]);
      if count < 0 then {}
      else if count == 0 then DecodeRuns(counts[1..], bit, pos)
      else
        (if bit == 1 then Interval(pos, count) else {})
          + DecodeRuns(counts[1..], if bit == 1 then 0 else 1, pos + count)
  }

  function Decoded(str: string): set<nat> {
    var parts := Tokens(str, ",");
    if parts == [] || !LooksNumeric(parts[0]) then {} else DecodeRuns(parts[1..], Atoi(parts[0]), 0)
  }

  /** convert_explored_rle */
  method ConvertExploredRle(explored: Flag, str: string)
    modifies explored
    ensures explored.Set() == old(explored.Set()) + Decoded(str)
    ensures old(Narrow(explored.bits)) ==> Narrow(explored.bits)
  {
    ghost var before := explored.Set();
    hide Members, Narrow;
    var parts := Tokens(str, ",");
    if parts == [] {
      return;
    }
    var kind := IsNumber(parts[0]);
    if kind == 0 {
      return;
    }
    var bit, count, pos := Atoi(parts[0]), 0, 0;
    parts := parts[1..];
    while parts != []
      invariant explored.Set() + DecodeRuns(parts, bit, pos) == before + Decoded(str)
      invariant old(Narrow(explored.bits)) ==> Narrow(explored.bits)
    {
      kind := IsNumber(parts[0]);
      if kind == 0 {
        break;
      }
      count := Atoi(parts[0]);
      if count < 0 {
        break;
      }
      if count > 0 {
        DecodeRun(explored, bit, pos, count);
        pos := pos + count;
        bit := if bit == 1 then 0 else 1;
      }
      parts := parts[1..];
    }
  }

  /** One run: the loop that sets the positions, whose first pass is always taken as count is positive. */
  method DecodeRun(explored: Flag, bit: int, pos: nat, count: nat)
    modifies explored
    ensures explored.Set() == old(explored.Set()) + if bit == 1 then Interval(pos, count) else {}
    ensures old(Narrow(explored.bits)) ==> Narrow(explored.bits)
  {
    ghost var before := explored.Set();
    hide Members, Narrow;
    var index := pos;
    while index < pos + count
      invariant pos <= index <= pos + count
      invariant explored.Set() == before + if bit == 1 then Interval(pos, index - pos) else {}
      invariant old(Narrow(explored.bits)) ==> Narrow(explored.bits)
    {
      if bit == 1 {
        explored.SetBit(index);
        assert Interval(pos, index + 1 - pos) == Interval(pos, index - pos) + {index};
      }
      index := index + 1;
    }
  }

  // ---------------------------------------------------------------- the round trip

  /** The run lengths as the decoder's tokens. */
  function RunTokens(bit: bool, count: nat, seen: seq<bool>): seq<string>
    decreases seen
  {
    if seen == [] then [Digits(count), "-1"]
    else if seen[0] == bit then RunTokens(bit, count + 1, seen[1..])
    else [Digits(count)] + RunTokens(seen[0], 1, seen[1..])
  }

  lemma {:induction false} RunsStartWithComma(bit: bool, count: nat, seen: seq<bool>)
    ensures Runs(bit, count, seen) != "" && Runs(bit, count, seen)[0] == ','
    decreases seen
  {
    if seen != [] && seen[0] == bit {
      RunsStartWithComma(bit, count + 1, seen[1..]);
    }
  }

  lemma {:induction false} CutAtComma(word: string, rest: string)
    requires word != "" && Free(word, ",") && (rest != "" ==> rest[0] == ',')
    ensures Tokens("," + word + rest, ",") == [word] + Tokens(rest, ",")
  {
    assert "," + word + rest == [','] + (word + rest);
    SkipDelimiter(',', word + rest, ",");
    FirstToken(word, rest, ",");
  }

  lemma {:induction false} RunsCut(bit: bool, count: nat, seen: seq<bool>)
    ensures Tokens(Runs(bit, count, seen), ",") == RunTokens(bit, count, seen)
    decreases seen
  {
    assert forall c :: c in Digits(count) ==> IsDigit(c);
    if seen == [] {
      CutAtComma(Digits(count), ",-1");
      CutAtComma("-1", "");
      assert ",-1" == "," + "-1" + "";
      assert Runs(bit, count, seen) == "," + Digits(count) + ",-1";
      assert ["-1"] + [] == ["-1"];
    } else if seen[0] == bit {
      RunsCut(bit, count + 1, seen[1..]);
    } else {
      RunsCut(seen[0], 1, seen[1..]);
      RunsStartWithComma(seen[0], 1, seen[1..]);
      CutAtComma(Digits(count), Runs(seen[0], 1, seen[1..]));
    }
  }

  /** The positions, from a given one on, that are to be set. */
  predicate SeenAt(seen: seq<bool>, pos: nat, k: nat) {
    pos <= k < pos + |seen| && seen[k - pos]
  }

  function Positions(seen: seq<bool>, pos: nat): (s: set<nat>)
    ensures forall k: nat :: k in s <==> pos <= k < pos + |seen| && seen[k - pos]
  {
    set k: nat | k < pos + |seen| && SeenAt(seen, pos, k)
  }

  lemma {:induction false} DigitsAreNumeric(n: nat)
    ensures LooksNumeric(Digits(n)) && Atoi(Digits(n)) == n
  {
    AtoiOfDigits(n);
    var d := Digits(n);
    assert IsDigit(d[0]) by { assert d[0] in d; }
  }

  lemma {:induction false} MinusOneEnds(bit: int, pos: nat)
    ensures DecodeRuns(["-1"], bit, pos) == {}
  {
    assert "-1"[1..] == "1" && "1"[1..] == "";
    assert ReadDigits("1", 0) == ReadDigits("", 1) == 1;
    assert Atoi("-1") == -1;
  }

  lemma {:induction false} OneRunDecoded(count: nat, counts: seq<string>, bit: int, pos: nat)
    requires count > 0
    ensures DecodeRuns([Digits(count)] + counts, bit, pos) ==
            (if bit == 1 then Interval(pos, count) else {}) + DecodeRuns(counts, if bit == 1 then 0 else 1, pos + count)
  {
    DigitsAreNumeric(count);
    assert ([Digits(count)] + counts)[1..] == counts;
  }

  /** A run of no rooms is passed over, and anything that is no number ends the decoding. */
  lemma {:induction false} NoRunDecoded(word: string, counts: seq<string>, bit: int, pos: nat)
    ensures DecodeRuns([Digits(0)] + counts, bit, pos) == DecodeRuns(counts, bit, pos)
    ensures !LooksNumeric(word) ==> DecodeRuns([word] + counts, bit, pos) == {}
  {
    DigitsAreNumeric(0);
    assert ([Digits(0)] + counts)[1..] == counts;
  }

  /** Decoding the printed runs sets the run's own positions and those of the rooms still to come. */
  lemma {:induction false} RunsDecoded(bit: bool, count: nat, seen: seq<bool>, pos: nat)
    requires count > 0
    ensures DecodeRuns(RunTokens(bit, count, seen), if bit then 1 else 0, pos) ==
            (if bit then Interval(pos, count) else {}) + Positions(seen, pos + count)
    decreases seen
  {
    var b := if bit then 1 else 0;
    hide DecodeRuns;
    if seen == [] {
      assert RunTokens(bit, count, seen) == [Digits(count)] + ["-1"];
      OneRunDecoded(count, ["-1"], b, pos);
      MinusOneEnds(1 - b, pos + count);
    } else if seen[0] == bit {
      RunsDecoded(bit, count + 1, seen[1..], pos);
      assert Interval(pos, count + 1) == Interval(pos, count) + {pos + count};
      StepPositions(seen, pos + count);
    } else {
      RunsDecoded(seen[0], 1, seen[1..], pos + count);
      OneRunDecoded(count, RunTokens(seen[0], 1, seen[1..]), b, pos);
      assert Interval(pos + count, 1) == {pos + count};
      StepPositions(seen, pos + count);
    }
  }

  lemma {:induction false} StepPositions(seen: seq<bool>, pos: nat)
    requires seen != []
    ensures Positions(seen, pos) == (if seen[0] then {pos} else {}) + Positions(seen[1..], pos + 1)
  {
    forall k: nat
      ensures k in Positions(seen, pos) <==> k in (if seen[0] then {pos} else {}) + Positions(seen[1..], pos + 1)
    {
      if k != pos && pos <= k < pos + |seen| {
        assert seen[1..][k - pos - 1] == seen[k - pos];
      }
    }
  }

  /** Loading what was saved: position k is set exactly when the k-th room of the table, counted from one, was
      explored. */
  lemma {:induction false} RleRoundTrip(rooms: seq<nat>, explored: set<nat>)
    ensures Decoded(Encoded(rooms, explored)) == Positions(Seen(rooms, explored), 1)
  {
    var seen := Seen(rooms, explored);
    var runs := Runs(false, 1, seen);
    RunsStartWithComma(false, 1, seen);
    FirstToken("0", runs, ",");
    RunsCut(false, 1, seen);
    var parts := Tokens("0" + runs, ",");
    assert parts == ["0"] + RunTokens(false, 1, seen);
    assert parts[1..] == RunTokens(false, 1, seen);
    DigitsAreNumeric(0);
    assert Digits(0) == "0";
    RunsDecoded(false, 1, seen, 0);
  }

  lemma {:induction false} SameAgain(bit: bool, count: nat, same: seq<bool>, rest: seq<bool>)
    requires forall b :: b in same ==> b == bit
    ensures Runs(bit, count, same + rest) == Runs(bit, count + |same|, rest)
    decreases |same|
  {
    if same == [] {
      assert same + rest == rest;
    } else {
      assert (same + rest)[1..] == same[1..] + rest && same[0] in same;
      assert forall b :: b in same[1..] ==> b in same;
      SameAgain(bit, count + 1, same[1..], rest);
    }
  }

  /** How the explored rooms are printed: a zero, the number of rooms before the first explored one and one more, the
      lengths of the runs of explored and of other rooms in turn, and minus one. */
  lemma {:induction false} PrintedRuns(before: seq<bool>, yes: seq<bool>, no: seq<bool>)
    requires yes != [] && no != []
    requires (forall b :: b in before ==> !b) && (forall b :: b in yes ==> b) && (forall b :: b in no ==> !b)
    ensures "0" + Runs(false, 1, before + yes + no) ==
            "0," + Digits(1 + |before|) + "," + Digits(|yes|) + "," + Digits(|no|) + ",-1"
  {
    hide Digits;
    assert before + yes + no == before + (yes + no);
    SameAgain(false, 1, before, yes + no);
    assert yes[0] in yes && (yes + no)[0] == true;
    assert (yes + no)[1..] == yes[1..] + no;
    assert forall b :: b in yes[1..] ==> b in yes;
    SameAgain(true, 1, yes[1..], no);
    assert no[0] in no && no[0] == false;
    assert forall b :: b in no[1..] ==> b in no;
    SameAgain(false, 1, no[1..], []);
    assert no[1..] + [] == no[1..];
  }

  predicate NumberedInOrder(rooms: seq<nat>) {
    forall k :: 0 <= k < |rooms| ==> rooms[k] == k + 1
  }

  function Existing(rooms: seq<nat>): set<nat> {
    set r | r in rooms
  }

  /** Loading gives back what was explored of the existing rooms, whatever was explored, exactly when the room
      table lists the rooms by number from one on. */
  lemma {:induction false} RestoresExactly(rooms: seq<nat>)
    requires NoDuplicates(rooms)
    ensures (forall s: set<nat> :: Decoded(Encoded(rooms, s)) == s * Existing(rooms)) <==> NumberedInOrder(rooms)
  {
    if NumberedInOrder(rooms) {
      forall s: set<nat>
        ensures Decoded(Encoded(rooms, s)) == s * Existing(rooms)
      {
        RestoresNumbered(rooms, s);
      }
    } else {
      var k :| 0 <= k < |rooms| && rooms[k] != k + 1;
      RleRoundTrip(rooms, {rooms[k]});
      assert k + 1 in Positions(Seen(rooms, {rooms[k]}), 1);
      assert k + 1 !in {rooms[k]} * Existing(rooms);
    }
  }

  lemma {:induction false} RestoresNumbered(rooms: seq<nat>, s: set<nat>)
    requires NumberedInOrder(rooms)
    ensures Decoded(Encoded(rooms, s)) == s * Existing(rooms)
  {
    RleRoundTrip(rooms, s);
    hide Decoded, Encoded;
    forall r: nat
      ensures r in Positions(Seen(rooms, s), 1) <==> r in s * Existing(rooms)
    {
      if 1 <= r <= |rooms| {
        assert rooms[r - 1] == r;
      }
    }
  }

  /** A room table: each bucket holds the rooms whose number it is the remainder of. */
  predicate IsRoomTable(roomHash: seq<seq<nat>>, rooms: set<nat>) {
    && |roomHash| == ID_HASH
    && (forall h, r :: 0 <= h < ID_HASH && r in roomHash[h] ==> r in rooms && r % ID_HASH == h)
    && (forall r :: r in rooms ==> r in roomHash[r % ID_HASH])
    && (forall h :: 0 <= h < ID_HASH ==> NoDuplicates(roomHash[h]))
  }

  /** The numbers from lo to n. */
  function UpTo(lo: nat, n: nat): (s: seq<nat>)
    ensures |s| == (if lo <= n then n - lo + 1 else 0) && forall k :: 0 <= k < |s| ==> s[k] == lo + k
    decreases n + 1 - lo
  {
    if lo <= n then [lo] + UpTo(lo + 1, n) else []
  }

  lemma {:induction false} FewRoomsFrom(roomHash: seq<seq<nat>>, n: nat, h: nat)
    requires n < ID_HASH && IsRoomTable(roomHash, Interval(1, n)) && 1 <= h <= ID_HASH
    ensures Flatten(roomHash[h..]) == UpTo(h, n)
    decreases ID_HASH - h
  {
    if h < ID_HASH {
      FlattenFrom(roomHash, h);
      FewRoomsFrom(roomHash, n, h + 1);
      BucketOf(roomHash, n, h);
    }
  }

  lemma {:induction false} FirstTwoDiffer(b: seq<nat>)
    requires NoDuplicates(b)
    ensures |b| > 1 ==> b[0] != b[1]
  {
  }

  lemma {:induction false} BucketOf(roomHash: seq<seq<nat>>, n: nat, h: nat)
    requires n < ID_HASH && IsRoomTable(roomHash, Interval(1, n)) && h < ID_HASH
    ensures roomHash[h] == if 1 <= h <= n then [h] else []
  {
    var b := roomHash[h];
    forall i | 0 <= i < |b|
      ensures b[i] == h && 1 <= h <= n
    {
      assert b[i] in roomHash[h];
      assert b[i] in Interval(1, n) && b[i] % ID_HASH == h;
    }
    assert |b| > 0 ==> b[0] == h && 1 <= h <= n;
    if 1 <= h <= n {
      assert h in Interval(1, n) && h % ID_HASH == h;
      assert h in b;
      FirstTwoDiffer(b);
    }
  }

  /** Fewer rooms than buckets, numbered from one on, always survive saving and loading. */
  lemma {:induction false} FewRoomsRestored(roomHash: seq<seq<nat>>, n: nat, s: set<nat>)
    requires n < ID_HASH && IsRoomTable(roomHash, Interval(1, n))
    ensures Decoded(Encoded(Flatten(roomHash), s)) == s * Interval(1, n)
  {
    hide Decoded, Encoded, Flatten, IsRoomTable;
    FewRoomsListed(roomHash, n);
    RestoresNumbered(UpTo(1, n), s);
    ExistingUpTo(n);
  }

  lemma {:induction false} FewRoomsListed(roomHash: seq<seq<nat>>, n: nat)
    requires n < ID_HASH && IsRoomTable(roomHash, Interval(1, n))
    ensures Flatten(roomHash) == UpTo(1, n)
  {
    FlattenFrom(roomHash, 0);
    BucketOf(roomHash, n, 0);
    FewRoomsFrom(roomHash, n, 1);
    assert roomHash[0..] == roomHash;
    hide Flatten, IsRoomTable;
  }

  lemma {:induction false} ExistingUpTo(n: nat)
    ensures Existing(UpTo(1, n)) == Interval(1, n)
  {
    forall r: nat
      ensures r in Existing(UpTo(1, n)) <==> r in Interval(1, n)
    {
      if 1 <= r <= n {
        assert UpTo(1, n)[r - 1] == r;
      }
    }
  }

  lemma {:induction false} InBucket(roomHash: seq<seq<nat>>, rooms: set<nat>, h: nat, r: nat)
    requires IsRoomTable(roomHash, rooms) && h < ID_HASH && r in roomHash[h]
    ensures r in rooms && r % ID_HASH == h
  {
  }

  /** With as many rooms as buckets a room with a multiple of their number comes first, and room one does not. */
  lemma {:induction false} ManyRoomsStartLate(roomHash: seq<seq<nat>>, n: nat)
    requires n >= ID_HASH && IsRoomTable(roomHash, Interval(1, n))
    ensures var rooms := Flatten(roomHash); rooms != [] && rooms[0] != 1
  {
    assert ID_HASH in Interval(1, n) && ID_HASH % ID_HASH == 0;
    var b := roomHash[0];
    assert ID_HASH in b;
    InBucket(roomHash, Interval(1, n), 0, b[0]);
    assert Flatten(roomHash) == b + Flatten(roomHash[1..]);
  }

  /** Rooms numbered from one to n survive saving and loading, whatever was explored, if and only if they are fewer
      than the buckets of the table. */
  lemma {:induction false} RoomsRestoredExactly(roomHash: seq<seq<nat>>, n: nat)
    requires IsRoomTable(roomHash, Interval(1, n))
    ensures (forall s: set<nat> :: Decoded(Encoded(Flatten(roomHash), s)) == s * Interval(1, n)) <==> n < 256
  {
    if n < ID_HASH {
      forall s: set<nat>
        ensures Decoded(Encoded(Flatten(roomHash), s)) == s * Interval(1, n)
      {
        FewRoomsRestored(roomHash, n, s);
      }
    } else {
      var rooms := Flatten(roomHash);
      ManyRoomsStartLate(roomHash, n);
      RleRoundTrip(rooms, {rooms[0]});
      assert 1 in Positions(Seen(rooms, {rooms[0]}), 1);
      assert 1 !in {rooms[0]} * Interval(1, n);
    }
  }

  // ---------------------------------------------------------------- counting

  /** How many of the first n places of a word are set. */
  function BitsBelow(c: bv32, n: nat): nat
    requires n <= 32
  {
    if n == 0 then 0 else BitsBelow(c, n - 1) + if WordHas(c, n - 1) then 1 else 0
  }

  /** The places below n that are set. */
  function BitPlaces(c: bv32, n: nat): set<nat>
    requires n <= 32
  {
    set k: nat | k < n && WordHas(c, k)
  }

  /** They are counted one by one. */
  lemma {:induction false} BitsCounted(c: bv32, n: nat)
    requires n <= 32
    ensures BitsBelow(c, n) == |BitPlaces(c, n)|
  {
    if n > 0 {
      BitsCounted(c, n - 1);
      OneMorePlace(c, n);
    }
  }

  lemma {:induction false} OneMorePlace(c: bv32, n: nat)
    requires 1 <= n <= 32
    ensures |BitPlaces(c, n)| == |BitPlaces(c, n - 1)| + if WordHas(c, n - 1) then 1 else 0
  {
    hide WordHas;
    assert BitPlaces(c, n) - {n - 1} == BitPlaces(c, n - 1);
  }

  /** bitcount */
  method BitCount(c: bv32) returns (count: nat)
    ensures count == BitsBelow(c, 32)
  {
    count := 0;
    for i := 0 to 32
      invariant count == BitsBelow(c, i)
    {
      if Meets(c, Mask(i)) {
        count := count + 1;
      }
    }
  }

  lemma {:induction false} HighMask(i: nat)
    requires 8 <= i < 32
    ensures Mask(i) & 0xFF == 0
  {
    if i == 8 {
      Masks(7);
    } else {
      HighMask(i - 1);
      HighShift(Mask(i - 1));
    }
  }

  lemma {:induction false} HighShift(m: bv32)
    requires m & 0xFF == 0
    ensures (m << 1) & 0xFF == 0
  {
  }

  lemma {:induction false} NarrowMisses(c: bv32, m: bv32)
    requires c <= 0xFF && m & 0xFF == 0
    ensures !Meets(c, m)
  {
  }

  /** A narrow word has its set places among the first eight. */
  lemma {:induction false} NarrowBits(c: bv32, n: nat)
    requires c <= 0xFF && 8 <= n <= 32
    ensures BitsBelow(c, n) == BitsBelow(c, 8)
  {
    if n > 8 {
      NarrowBits(c, n - 1);
      HighMask(n - 1);
      NarrowMisses(c, Mask(n - 1));
    }
  }

  /** The members that one word contributes. */
  function WordMembers(c: bv32, base: nat, n: nat): (s: set<nat>)
    requires n <= 8
    ensures forall b: nat :: b in s <==> base <= b < base + n && WordHas(c, b - base)
    ensures |s| == BitsBelow(c, n)
  {
    if n == 0 then {}
    else if WordHas(c, n - 1) then WordMembers(c, base, n - 1) + {base + n - 1} else WordMembers(c, base, n - 1)
  }

  lemma {:induction false} LastWord(ws: seq<bv32>, n: nat)
    requires n < |ws|
    ensures |Members(ws[..n + 1])| == |Members(ws[..n])| + BitsBelow(ws[n], 8)
  {
    var more := WordMembers(ws[n], 8 * n, 8);
    hide BitsBelow;
    forall b: nat
      ensures b in Members(ws[..n + 1]) <==> b in Members(ws[..n]) || b in more
      ensures b in more ==> b !in Members(ws[..n])
    {
      if b / 8 == n {
        assert b % 8 == b - 8 * n;
      }
    }
    assert Members(ws[..n + 1]) == Members(ws[..n]) + more;
  }

  /** roomcount: the size of the set. */
  method RoomCount(explored: Flag) returns (count: nat)
    requires Narrow(explored.bits)
    ensures count == |explored.Set()|
  {
    count := 0;
    assert explored.bits[..0] == [];
    assert Members([]) == {};
    hide Members, BitsBelow;
    for pIndex := 0 to |explored.bits|
      invariant count == |Members(explored.bits[..pIndex])|
    {
      var n := BitCount(explored.bits[pIndex]);
      NarrowBits(explored.bits[pIndex], 32);
      LastWord(explored.bits, pIndex);
      count := count + n;
    }
    assert explored.bits[..|explored.bits|] == explored.bits;
  }

  lemma {:induction false} StepExisting(rooms: seq<nat>, s: set<nat>)
    requires NoDuplicates(rooms) && rooms != []
    ensures |s * Existing(rooms)| == |s * Existing(rooms[1..])| + if rooms[0] in s then 1 else 0
  {
    var more := s * Existing(rooms[1..]);
    assert rooms[0] !in rooms[1..];
    assert Existing(rooms) == Existing(rooms[1..]) + {rooms[0]};
    if rooms[0] in s {
      assert s * Existing(rooms) == more + {rooms[0]};
    } else {
      assert s * Existing(rooms) == more;
    }
  }

  lemma {:induction false} AsManyPositions(rooms: seq<nat>, s: set<nat>, pos: nat)
    requires NoDuplicates(rooms)
    ensures |Positions(Seen(rooms, s), pos)| == |s * Existing(rooms)|
  {
    var seen := Seen(rooms, s);
    if rooms == [] {
      assert Positions(seen, pos) == {} && Existing(rooms) == {};
    } else {
      AsManyPositions(rooms[1..], s, pos + 1);
      StepExisting(rooms, s);
      StepPositions(seen, pos);
      assert seen[1..] == Seen(rooms[1..], s);
      assert pos !in Positions(seen[1..], pos + 1);
      hide *;
    }
  }

  /** Saving and loading into a fresh flag: in whatever order the table lists the rooms, as many positions are
      set as existing rooms were explored. */
  method SaveAndLoad(explored: Flag, roomHash: seq<seq<nat>>) returns (loaded: Flag, count: nat)
    requires NoDuplicates(Flatten(roomHash))
    ensures fresh(loaded) && loaded.Set() == Positions(Seen(Flatten(roomHash), explored.Set()), 1)
    ensures count == |loaded.Set()| == |explored.Set() * Existing(Flatten(roomHash))|
  {
    ghost var s, rooms := explored.Set(), Flatten(roomHash);
    hide *;
    var text := GetExploredRle(explored, roomHash);
    loaded := new Flag();
    ConvertExploredRle(loaded, text);
    RleRoundTrip(rooms, s);
    count := RoomCount(loaded);
    AsManyPositions(rooms, s, 1);
  }

  // ---------------------------------------------------------------- keeping the set to rooms that exist

  lemma {:induction false} NotEmpty(rooms: set<int>)
    ensures rooms == {} || exists r :: r in rooms
  {
    assert (forall r :: r !in rooms) ==> rooms == {};
  }

  ghost function Largest(rooms: set<int>): (m: int)
    ensures forall r :: r in rooms ==> r <= m
    ensures if rooms == {} then m == 0 else m in rooms
  {
    if rooms == {} then 0
    else
      NotEmpty(rooms);
      var r :| r in rooms;
      var m := Largest(rooms - {r});
      assert forall x :: x in rooms ==> x == r || x in rooms - {r};
      if rooms - {r} == {} || m < r then r else m
  }

  /** The rooms that the loop has met before it looks at a number. */
  function Matched(rooms: set<int>, id: int): (s: set<int>)
    ensures s <= rooms && forall r :: r in s <==> r in rooms && 1 <= r < id
  {
    set r | r in rooms && 1 <= r < id
  }

  lemma {:induction false} OneMoreMatched(rooms: set<int>, id: int)
    requires 1 <= id
    ensures |Matched(rooms, id + 1)| == |Matched(rooms, id)| + if id in rooms then 1 else 0
  {
    if id in rooms {
      assert Matched(rooms, id + 1) == Matched(rooms, id) + {id};
    } else {
      assert Matched(rooms, id + 1) == Matched(rooms, id);
    }
  }

  /** Not all rooms have been met exactly while one is left with this number or a later one, or with a number that
      the loop does not look at. */
  lemma {:induction false} NotAllMatched(rooms: set<int>, id: int)
    ensures |Matched(rooms, id)| <= |rooms|
    ensures |Matched(rooms, id)| < |rooms| <==> exists r :: r in rooms && (r <= 0 || id <= r)
  {
    var rest := rooms - Matched(rooms, id);
    assert rooms == Matched(rooms, id) + rest;
    if rest != {} {
      var r :| r in rest;
      assert r in rooms && (r <= 0 || id <= r);
    } else {
      assert forall r :: r in rooms ==> r in Matched(rooms, id);
    }
  }

  /** The loop of update_explored runs on for ever exactly when there is a room with a number below one. */
  lemma {:induction false} RunsOnExactly(rooms: set<int>)
    ensures (forall id :: 1 <= id ==> |Matched(rooms, id)| < |rooms|) <==> exists r :: r in rooms && r <= 0
  {
    if r :| r in rooms && r <= 0 {
      forall id | 1 <= id
        ensures |Matched(rooms, id)| < |rooms|
      {
        NotAllMatched(rooms, id);
      }
    } else {
      var id := if Largest(rooms) < 1 then 1 else Largest(rooms) + 1;
      NotAllMatched(rooms, id);
      assert !(|Matched(rooms, id)| < |rooms|);
    }
  }

  /** update_explored, watched for a number of turns of its loop: it has ended when all rooms were met. Every bit up
      to there that is no room or a room not to be explored is forgotten. With a room numbered below one it runs on
      after any number of turns; otherwise it ends behind the last room. */
  method UpdateExplored(explored: Flag, rooms: map<int, bool>, turns: nat) returns (nMatch: nat, id: nat)
    modifies explored
    ensures 1 <= id <= turns + 1 && nMatch == |Matched(rooms.Keys, id)|
    ensures nMatch < |rooms| ==> id == turns + 1
    ensures forall b: nat :: b in explored.Set() <==>
      b in old(explored.Set()) && (b == 0 || b >= id || (b in rooms && rooms[b]))
    ensures (exists r :: r in rooms && r <= 0) ==> nMatch < |rooms|
    ensures (forall r :: r in rooms ==> 1 <= r <= turns) ==> nMatch == |rooms| && id == Largest(rooms.Keys) + 1
  {
    ghost var keys, was := rooms.Keys, explored.Set();
    hide Members, Largest, Matched;
    nMatch, id := 0, 1;
    assert Matched(keys, 1) == {};
    while nMatch < |rooms| && id <= turns
      invariant 1 <= id <= turns + 1 && nMatch == |Matched(keys, id)|
      invariant id > 1 ==> |Matched(keys, id - 1)| < |keys|
      invariant forall b: nat :: b in explored.Set() <==> b in was && (b == 0 || b >= id || (b in rooms && rooms[b]))
      decreases turns + 1 - id
    {
      OneMoreMatched(keys, id);
      var yes := explored.IsSet(id);
      if id in rooms {
        nMatch := nMatch + 1;
        if !rooms[id] && yes {
          explored.RemoveBit(id);
        }
      } else if yes {
        explored.RemoveBit(id);
      }
      id := id + 1;
    }
    NotAllMatched(keys, id);
    NotAllMatched(keys, id - 1);
    EndsBehindLast(keys, id, turns);
  }

  lemma {:induction false} EndsBehindLast(rooms: set<int>, id: int, turns: nat)
    requires 1 <= id <= turns + 1 && (id > 1 ==> |Matched(rooms, id - 1)| < |rooms|)
    requires |Matched(rooms, id)| < |rooms| ==> id == turns + 1
    ensures (forall r :: r in rooms ==> 1 <= r <= turns) ==>
      |Matched(rooms, id)| == |rooms| && id == Largest(rooms) + 1
  {
    NotAllMatched(rooms, id);
    NotAllMatched(rooms, id - 1);
    hide Matched;
    if rooms != {} {
      assert Largest(rooms) in rooms;
    }
  }
}

/** src/server/importer.c and src/server/update.c: ROM reset lists become trees, trees become
    scripts, and scripts are run when an area resets. A small compiler and its interpreter. */
module Resets {
  import opened Shared
  import opened Text

  // ---------------------------------------------------------------- from lines to trees

  /** A line of a #RESETS section: its letter and the numbers after the if-flag. */
  datatype Line = Line(letter: char, n1: int, n2: int, n3: int, n4: int)

  datatype Reset = Reset(kind: char, arg1: int, arg2: int, arg3: int, arg4: int, room: int)

  /** A root of temp_resets with its subresets, both in list order. */
  datatype Tree = Tree(root: Reset, subs: seq<Reset>)

  /** What the importer has seen so far: NPCs, objects, rooms, and the exits that are doors. */
  datatype Index = Index(npcs: set<int>, objs: set<int>, rooms: set<int>, doors: set<(int, int)>)

  function ReadReset(l: Line): Reset {
    Reset(l.letter, l.n1, l.n2,
          if l.letter == 'G' || l.letter == 'R' then 0 else l.n3,
          if l.letter == 'P' || l.letter == 'M' then l.n4 else 0, 0)
  }

  /** What a line contributes, given the last root before it: M, O and D lines become roots, G and E
      lines belong to an M root, P lines to an O root. */
  function Accept(ix: Index, l: Line, last: Option<Reset>): Option<Reset> {
    var r := ReadReset(l);
    match l.letter
    case 'M' => if r.arg1 in ix.npcs && r.arg3 in ix.rooms then Some(r.(room := r.arg3)) else None
    case 'O' => if r.arg1 in ix.objs && r.arg3 in ix.rooms then Some(r.(room := r.arg3)) else None
    case 'D' => if r.arg1 in ix.rooms && 0 <= r.arg2 <= 5 && (r.arg1, r.arg2) in ix.doors
                then Some(r.(room := r.arg1)) else None
    case 'G' => if r.arg1 in ix.objs && last.Some? && last.value.kind == 'M'
                then Some(r.(room := last.value.room)) else None
    case 'E' => if r.arg1 in ix.objs && last.Some? && last.value.kind == 'M'
                then Some(r.(room := last.value.room)) else None
    case 'P' => if r.arg1 in ix.objs && last.Some? && last.value.kind == 'O'
                then Some(r.(room := last.value.room)) else None
    case _ => None
  }

  predicate IsRootKind(k: char) {
    k == 'M' || k == 'O' || k == 'D'
  }

  /** The accepted lines of a section, in file order. */
  ghost function Accepted(ix: Index, lines: seq<Line>, last: Option<Reset>): seq<Reset> {
    if lines == [] || lines[0].letter == 'S' then []
    else
      var a := Accept(ix, lines[0], last);
      if a == None then Accepted(ix, lines[1..], last)
      else [a.value] + Accepted(ix, lines[1..], if IsRootKind(a.value.kind) then a else last)
  }

  ghost function Reverse(s: seq<Reset>): seq<Reset> {
    if s == [] then [] else Reverse(s[1..]) + [s[0]]
  }

  /** The resets of the trees in the order in which they were linked: every list was built at its front. */
  ghost function InLinkOrder(trees: seq<Tree>): seq<Reset> {
    if trees == [] then [] else InLinkOrder(trees[1..]) + [trees[0].root] + Reverse(trees[0].subs)
  }

  predicate WellFormed(ix: Index, t: Tree) {
    && IsRootKind(t.root.kind)
    && (t.root.kind == 'M' ==> t.root.arg1 in ix.npcs && forall s :: s in t.subs ==>
          (s.kind == 'G' || s.kind == 'E') && s.arg1 in ix.objs)
    && (t.root.kind == 'O' ==> t.root.arg1 in ix.objs && t.root.arg4 == 0 && forall s :: s in t.subs ==>
          s.kind == 'P' && s.arg1 in ix.objs)
    && (t.root.kind == 'D' ==> t.subs == [])
  }

  predicate AllWellFormed(ix: Index, trees: seq<Tree>) {
    forall t :: t in trees ==> WellFormed(ix, t)
  }

  class Importer {
    const ix: Index
    /** temp_resets */
    var resets: seq<Tree>

    constructor (ix: Index)
      ensures this.ix == ix && resets == []
    {
      this.ix, resets := ix, [];
    }

    /** LINK(temp_resets, ...) */
    method LinkRoot(r: Reset)
      modifies this
      ensures resets == [Tree(r, [])] + old(resets)
    {
      resets := [Tree(r, [])] + resets;
    }

    /** LINK(last_reset->subresets, ...); last_reset is the front of temp_resets. */
    method LinkSub(r: Reset)
      requires resets != []
      modifies this
      ensures resets == [old(resets)[0].(subs := [r] + old(resets)[0].subs)] + old(resets)[1..]
    {
      resets := [resets[0].(subs := [r] + resets[0].subs)] + resets[1..];
    }

    /** import_rom_resets: links exactly the accepted lines, in order, into well-formed trees. */
    method ImportResets(areaSeen: bool, lines: seq<Line>) returns (ok: bool)
      requires AllWellFormed(ix, resets)
      modifies this
      ensures ok == areaSeen && AllWellFormed(ix, resets)
      ensures InLinkOrder(resets) == InLinkOrder(old(resets)) + if areaSeen then Accepted(ix, lines, None) else []
    {
      if !areaSeen {
        assert InLinkOrder(resets) == InLinkOrder(resets) + [];
        return false;
      }
      var iLastRoom, iLastObj, i, started := 0, 0, 0, false;
      ghost var before := InLinkOrder(resets);
      assert lines[0..] == lines;
      while i < |lines| && lines[i].letter != 'S'
        invariant 0 <= i <= |lines| && AllWellFormed(ix, resets)
        invariant started ==> resets != [] && LastIs(ix, resets[0].root, iLastRoom, iLastObj)
        invariant InLinkOrder(resets) + Accepted(ix, lines[i..], LastReset(resets, started)) ==
                  before + Accepted(ix, lines, None)
        decreases |lines| - i
      {
        ghost var last, pre := LastReset(resets, started), InLinkOrder(resets);
        iLastRoom, iLastObj, started := ImportLine(lines[i], iLastRoom, iLastObj, started);
        StepAccepted(ix, lines, i, last, pre, InLinkOrder(resets));
        i := i + 1;
      }
      assert Accepted(ix, lines[i..], LastReset(resets, started)) == [];
      assert InLinkOrder(resets) + [] == InLinkOrder(resets);
      return true;
    }

    /** The body of import_rom_resets' loop: the switch over the letter. */
    method ImportLine(l: Line, iLastRoom: int, iLastObj: int, started: bool)
      returns (lastRoom: int, lastObj: int, started': bool)
      requires AllWellFormed(ix, resets) && l.letter != 'S'
      requires started ==> resets != [] && LastIs(ix, resets[0].root, iLastRoom, iLastObj)
      modifies this
      ensures AllWellFormed(ix, resets)
      ensures started' ==> resets != [] && LastIs(ix, resets[0].root, lastRoom, lastObj)
      ensures var a := Accept(ix, l, old(LastReset(resets, started)));
              && InLinkOrder(resets) == old(InLinkOrder(resets)) + (if a == None then [] else [a.value])
              && LastReset(resets, started') ==
                   (if a.Some? && IsRootKind(a.value.kind) then a else old(LastReset(resets, started)))
    {
      lastRoom, lastObj, started' := iLastRoom, iLastObj, started;
      ghost var was := resets;
      assert InLinkOrder(resets) + [] == InLinkOrder(resets);
      var r := ReadReset(l);
      match l.letter
      case 'M' =>
        if r.arg1 in ix.npcs && r.arg3 in ix.rooms {
          LinkRoot(r.(room := r.arg3));
          LinkedRoot(was, resets[0].root);
          lastRoom, started' := r.arg3, true;
        }
      case 'O' =>
        if r.arg1 in ix.objs && r.arg3 in ix.rooms {
          LinkRoot(r.(room := r.arg3));
          LinkedRoot(was, resets[0].root);
          lastObj, started' := r.arg3, true;
        }
      case 'P' =>
        if r.arg1 in ix.objs && iLastObj in ix.rooms {
          if started && (resets[0].root.kind == 'O' || resets[0].root.kind == 'G' || resets[0].root.kind == 'E') {
            LinkSub(r.(room := iLastObj));
            LinkedSub(ix, was, r.(room := iLastObj));
          }
        }
      case 'G' =>
        if r.arg1 in ix.objs && iLastRoom in ix.rooms {
          if started && resets[0].root.kind == 'M' {
            LinkSub(r.(room := iLastRoom));
            LinkedSub(ix, was, r.(room := iLastRoom));
            lastObj := iLastRoom;
          }
        }
      case 'E' =>
        if r.arg1 in ix.objs && iLastRoom in ix.rooms {
          if started && resets[0].root.kind == 'M' {
            LinkSub(r.(room := iLastRoom));
            LinkedSub(ix, was, r.(room := iLastRoom));
            lastObj := iLastRoom;
          }
        }
      case 'D' =>
        if r.arg1 in ix.rooms && 0 <= r.arg2 <= 5 && (r.arg1, r.arg2) in ix.doors {
          LinkRoot(r.(room := r.arg1));
          LinkedRoot(was, resets[0].root);
          started' := true;
        }
      case _ =>
    }
  }

  /** last_reset */
  function LastReset(resets: seq<Tree>, started: bool): Option<Reset> {
    if started && resets != [] then Some(resets[0].root) else None
  }

  /** What the saved room numbers say of the last root: its room is known. */
  predicate LastIs(ix: Index, r: Reset, iLastRoom: int, iLastObj: int) {
    && IsRootKind(r.kind)
    && (r.kind == 'M' ==> r.room == iLastRoom && iLastRoom in ix.rooms)
    && (r.kind == 'O' ==> r.room == iLastObj && iLastObj in ix.rooms)
  }

  lemma LinkedRoot(trees: seq<Tree>, r: Reset)
    ensures InLinkOrder([Tree(r, [])] + trees) == InLinkOrder(trees) + [r]
  {
    var after := [Tree(r, [])] + trees;
    assert after[1..] == trees;
  }

  lemma {:induction false} LinkedSub(ix: Index, trees: seq<Tree>, r: Reset)
    requires trees != [] && AllWellFormed(ix, trees) && r.arg1 in ix.objs
    requires var k := trees[0].root.kind;
             (k == 'M' && (r.kind == 'G' || r.kind == 'E')) || (k == 'O' && r.kind == 'P')
    ensures var after := [trees[0].(subs := [r] + trees[0].subs)] + trees[1..];
            InLinkOrder(after) == InLinkOrder(trees) + [r] && AllWellFormed(ix, after)
  {
    var t := trees[0].(subs := [r] + trees[0].subs);
    var after := [t] + trees[1..];
    assert after[1..] == trees[1..] && t.subs[1..] == trees[0].subs;
    assert WellFormed(ix, trees[0]);
    SubFits(ix, trees[0], r);
    hide WellFormed;
    forall u | u in after
      ensures WellFormed(ix, u)
    {
      assert u == t || u in trees;
    }
  }

  lemma SubFits(ix: Index, t: Tree, r: Reset)
    requires WellFormed(ix, t) && r.arg1 in ix.objs
    requires (t.root.kind == 'M' && (r.kind == 'G' || r.kind == 'E')) || (t.root.kind == 'O' && r.kind == 'P')
    ensures WellFormed(ix, t.(subs := [r] + t.subs))
  {
  }

  lemma StepAccepted(ix: Index, lines: seq<Line>, i: nat, last: Option<Reset>, pre: seq<Reset>, post: seq<Reset>)
    requires i < |lines| && lines[i].letter != 'S'
    requires var a := Accept(ix, lines[i], last); post == pre + (if a == None then [] else [a.value])
    ensures var a := Accept(ix, lines[i], last);
            var last' := if a.Some? && IsRootKind(a.value.kind) then a else last;
            post + Accepted(ix, lines[i + 1..], last') == pre + Accepted(ix, lines[i..], last)
  {
    assert lines[i..][1..] == lines[i + 1..];
  }

  // ---------------------------------------------------------------- from trees to text

  /** The record numbers under which the importer saved the NPCs and objects. */
  datatype Saved = Saved(npc: map<int, nat>, obj: map<int, nat>)

  function Tabs(n: nat): string {
    if n == 0 then "" else "\t" + Tabs(n - 1)
  }

  function Call(name: string, id: nat, max: int): string {
    name + "(" + Digits(id) + (if max > 0 then "," + Digits(max) else "") + ")\n"
  }

  predicate IsSaved(saved: Saved, r: Reset) {
    if r.kind == 'M' then r.arg1 in saved.npc
    else if r.kind == 'D' || r.kind == 'R' then true
    else r.arg1 in saved.obj
  }

  /** The line of one reset. A door reset leaves only its indentation. */
  function PrintReset(saved: Saved, r: Reset, tab: nat): string
    requires IsSaved(saved, r)
  {
    Tabs(tab) +
    if r.kind == 'M' then Call("npc", saved.npc[r.arg1], if r.arg4 > 1 then r.arg4 else 0)
    else if r.kind == 'O' then Call("obj", saved.obj[r.arg1], r.arg4)
    else if r.kind == 'P' then Call("put", saved.obj[r.arg1], 0)
    else if r.kind == 'G' then Call("give", saved.obj[r.arg1], 0)
    else if r.kind == 'E' then Call("equip", saved.obj[r.arg1], 0)
    else ""
  }

  function PrintAll(saved: Saved, rs: seq<Reset>, tab: nat): string
    requires forall r :: r in rs ==> IsSaved(saved, r)
  {
    if rs == [] then "" else PrintReset(saved, rs[0], tab) + PrintAll(saved, rs[1..], tab)
  }

  predicate TreeIsSaved(saved: Saved, t: Tree) {
    IsSaved(saved, t.root) && forall r :: r in t.subs ==> IsSaved(saved, r)
  }

  function PrintTree(saved: Saved, t: Tree): string
    requires TreeIsSaved(saved, t)
  {
    PrintReset(saved, t.root, 0) + PrintAll(saved, t.subs, 1)
  }

  method Indent(buf: string, tab: nat) returns (out: string)
    ensures out == buf + Tabs(tab)
  {
    out := buf;
    var i := 0;
    while i < tab
      invariant i <= tab && out + Tabs(tab - i) == buf + Tabs(tab)
    {
      assert out + Tabs(tab - i) == (out + "\t") + Tabs(tab - i - 1);
      out := out + "\t";
      i := i + 1;
    }
    assert out + Tabs(0) == out;
  }

  method WriteReset(saved: Saved, res: Reset, buf: string) returns (out: string)
    requires IsSaved(saved, res)
    ensures out == buf + PrintReset(saved, res, 0)
  {
    hide Call, Digits;
    out := buf;
    match res.kind {
      case 'M' => out := out + Call("npc", saved.npc[res.arg1], if res.arg4 > 1 then res.arg4 else 0);
      case 'O' => out := out + Call("obj", saved.obj[res.arg1], res.arg4);
      case 'P' => out := out + Call("put", saved.obj[res.arg1], 0);
      case 'G' => out := out + Call("give", saved.obj[res.arg1], 0);
      case 'E' => out := out + Call("equip", saved.obj[res.arg1], 0);
      case _ =>
    }
  }

  /** import_finalize_reset: appends the lines of a reset and of the resets below it. */
  method FinalizeReset(saved: Saved, res: Reset, subresets: seq<Reset>, buf: string, tab: nat) returns (out: string)
    requires IsSaved(saved, res) && forall r :: r in subresets ==> IsSaved(saved, r)
    ensures out == buf + PrintReset(saved, res, tab) + PrintAll(saved, subresets, tab + 1)
    decreases |subresets|
  {
    hide PrintReset;
    var indented := Indent(buf, tab);
    out := WriteReset(saved, res, indented);
    PrintIndented(saved, res, tab);
    assert out == buf + PrintReset(saved, res, tab);
    var i := 0;
    assert subresets[0..] == subresets;
    while i < |subresets|
      invariant 0 <= i <= |subresets|
      invariant out + PrintAll(saved, subresets[i..], tab + 1)
             == buf + PrintReset(saved, res, tab) + PrintAll(saved, subresets, tab + 1)
    {
      assert subresets[i..][1..] == subresets[i + 1..];
      assert out + PrintAll(saved, subresets[i..], tab + 1)
          == out + PrintReset(saved, subresets[i], tab + 1) + PrintAll(saved, subresets[i + 1..], tab + 1);
      out := FinalizeReset(saved, subresets[i], [], out, tab + 1);
      i := i + 1;
    }
    assert out + PrintAll(saved, subresets[i..], tab + 1) == out;
  }

  lemma PrintIndented(saved: Saved, r: Reset, tab: nat)
    requires IsSaved(saved, r)
    ensures PrintReset(saved, r, tab) == Tabs(tab) + PrintReset(saved, r, 0)
  {
  }

  // ---------------------------------------------------------------- from text to commands

  /** A missing number is 0, which no record has; a missing maximum is 1. */
  datatype Command =
    | Npc(id: int, max: int)
    | Obj(id: int, max: int)
    | Give(id: int, max: int)
    | Equip(id: int, slot: Option<string>)
    | Put(id: int)

  const DELIMS := "(),"

  function IdOf(args: seq<string>): int {
    if args == [] then 0 else Atoi(args[0])
  }

  function MaxOf(args: seq<string>): int {
    if |args| < 2 then 1 else Atoi(args[1])
  }

  function MakeCommand(name: string, args: seq<string>): Option<Command> {
    if SameName("npc", name) then Some(Npc(IdOf(args), MaxOf(args)))
    else if SameName("obj", name) then Some(Obj(IdOf(args), MaxOf(args)))
    else if SameName("give", name) then Some(Give(IdOf(args), MaxOf(args)))
    else if SameName("equip", name) then Some(Equip(IdOf(args), if |args| < 2 then None else Some(args[1])))
    else if SameName("put", name) then Some(Put(IdOf(args)))
    else None
  }

  function ParseTokens(toks: seq<string>): Option<Command> {
    if toks == [] then None else MakeCommand(DropTrailing(SkipSpaces(toks[0])), toks[1..])
  }

  /** The commands of a script, line by line. */
  function Parse(text: string): seq<Command>
    decreases |text|
  {
    if text == [] then []
    else
      var c := ParseTokens(Tokens(LineOf(text), DELIMS));
      (if c == None then [] else [c.value]) + Parse(AfterLine(text))
  }

  /** What a reset asks for. */
  function CommandOf(saved: Saved, r: Reset): seq<Command>
    requires IsSaved(saved, r)
  {
    if r.kind == 'M' then [Npc(saved.npc[r.arg1], if r.arg4 > 1 then r.arg4 else 1)]
    else if r.kind == 'O' then [Obj(saved.obj[r.arg1], if r.arg4 > 0 then r.arg4 else 1)]
    else if r.kind == 'P' then [Put(saved.obj[r.arg1])]
    else if r.kind == 'G' then [Give(saved.obj[r.arg1], 1)]
    else if r.kind == 'E' then [Equip(saved.obj[r.arg1], None)]
    else []
  }

  function CommandsOf(saved: Saved, rs: seq<Reset>): seq<Command>
    requires forall r :: r in rs ==> IsSaved(saved, r)
  {
    if rs == [] then [] else CommandOf(saved, rs[0]) + CommandsOf(saved, rs[1..])
  }

  predicate PlainName(name: string) {
    name != [] && forall c :: c in name ==> 'a' <= c <= 'z'
  }

  lemma {:induction false} TabsAreSpaces(n: nat)
    ensures |Tabs(n)| == n && forall c :: c in Tabs(n) ==> c == '\t'
  {
    if n > 0 {
      TabsAreSpaces(n - 1);
    }
  }

  lemma {:induction false} PlainIsTrimmed(name: string)
    requires PlainName(name)
    ensures SkipSpaces(name) == name && DropTrailing(name) == name
  {
    var last := |name| - 1;
    assert name[0] in name && name[last] in name;
    assert !IsSpace(name[0]) && !IsSpace(name[last]);
  }

  lemma {:induction false} SkipTabs(n: nat, name: string)
    requires PlainName(name)
    ensures DropTrailing(SkipSpaces(Tabs(n) + name)) == name
  {
    if n == 0 {
      assert Tabs(n) + name == name;
      PlainIsTrimmed(name);
    } else {
      var text := Tabs(n) + name;
      TabsAreSpaces(n);
      assert text[0] == Tabs(n)[0] && Tabs(n)[0] in Tabs(n);
      assert text[1..] == Tabs(n - 1) + name;
      assert SkipSpaces(text) == SkipSpaces(text[1..]);
      SkipTabs(n - 1, name);
    }
  }

  lemma DigitsAreFree(n: nat)
    ensures Free(Digits(n), DELIMS) && '\n' !in Digits(n)
  {
  }

  function CallLine(tab: nat, name: string, id: nat, max: int): string {
    Tabs(tab) + name + "(" + Digits(id) + (if max > 0 then "," + Digits(max) else "") + ")"
  }

  lemma ClosingToken(number: nat)
    ensures Tokens(Digits(number) + ")", DELIMS) == [Digits(number)]
  {
    DigitsAreFree(number);
    FirstToken(Digits(number), ")", DELIMS);
    SkipDelimiter(')', "", DELIMS);
    assert ")" == [')'] + "";
    assert Tokens("", DELIMS) == [];
  }

  lemma OpeningTokens(tab: nat, name: string, rest: string)
    requires PlainName(name)
    ensures Tokens(Tabs(tab) + name + "(" + rest, DELIMS) == [Tabs(tab) + name] + Tokens(rest, DELIMS)
  {
    var head := Tabs(tab) + name;
    TabsAreSpaces(tab);
    assert name[0] in name && head != [];
    assert Free(head, DELIMS);
    SkipDelimiter('(', rest, DELIMS);
    FirstToken(head, ['('] + rest, DELIMS);
    assert Tabs(tab) + name + "(" + rest == head + (['('] + rest);
  }

  /** Tokenizing a printed call gives back its indented name and its numbers. */
  lemma TokensOfCall(tab: nat, name: string, id: nat, max: int)
    requires PlainName(name)
    ensures Tokens(CallLine(tab, name, id, max), DELIMS)
         == [Tabs(tab) + name, Digits(id)] + (if max > 0 then [Digits(max)] else [])
  {
    hide Tokens, Digits, Tabs;
    if max > 0 {
      var last := Digits(max) + ")";
      DigitsAreFree(id);
      ClosingToken(max);
      SkipDelimiter(',', last, DELIMS);
      FirstToken(Digits(id), [','] + last, DELIMS);
      OpeningTokens(tab, name, Digits(id) + ([','] + last));
      assert CallLine(tab, name, id, max) == Tabs(tab) + name + "(" + (Digits(id) + ([','] + last));
    } else {
      ClosingToken(id);
      OpeningTokens(tab, name, Digits(id) + ")");
      assert CallLine(tab, name, id, max) == Tabs(tab) + name + "(" + (Digits(id) + ")");
    }
  }

  lemma CallIsOneLine(tab: nat, name: string, id: nat, max: int)
    requires PlainName(name)
    ensures '\n' !in CallLine(tab, name, id, max)
  {
    hide Digits, Tabs;
    TabsAreSpaces(tab);
    DigitsAreFree(id);
    if max > 0 {
      DigitsAreFree(max);
    }
  }

  lemma NamesDiffer(name: string)
    requires name in ["npc", "obj", "give", "equip", "put"]
    ensures SameName("npc", name) <==> name == "npc"
    ensures SameName("obj", name) <==> name == "obj"
    ensures SameName("give", name) <==> name == "give"
    ensures SameName("equip", name) <==> name == "equip"
    ensures SameName("put", name) <==> name == "put"
  {
    assert "npc"[0] == 'n' && "obj"[0] == 'o' && "put"[0] == 'p';
  }

  predicate NoReturnFirst(s: string) {
    s != [] ==> s[0] != '\r'
  }

  function PrintedArgs(id: nat, max: int): seq<string> {
    [Digits(id)] + if max > 0 then [Digits(max)] else []
  }

  lemma MakePrinted(name: string, id: nat, max: int)
    requires name in ["npc", "obj", "give", "equip", "put"]
    ensures var c := MakeCommand(name, PrintedArgs(id, max));
            var m := if max > 0 then max else 1;
            && (name == "npc" ==> c == Some(Npc(id, m)))
            && (name == "obj" ==> c == Some(Obj(id, m)))
            && (name == "give" ==> c == Some(Give(id, m)))
            && (name == "equip" && max <= 0 ==> c == Some(Equip(id, None)))
            && (name == "put" ==> c == Some(Put(id)))
            && c.Some?
  {
    hide Digits, Atoi, SameName;
    NamesDiffer(name);
    AtoiOfDigits(id);
    if max > 0 {
      AtoiOfDigits(max);
    }
  }

  lemma TokensOfPrinted(tab: nat, name: string, id: nat, max: int)
    requires PlainName(name)
    ensures ParseTokens(Tokens(CallLine(tab, name, id, max), DELIMS)) == MakeCommand(name, PrintedArgs(id, max))
  {
    hide Tokens, Digits, Tabs, MakeCommand, CallLine, SkipSpaces, DropTrailing;
    TokensOfCall(tab, name, id, max);
    SkipTabs(tab, name);
    var toks := Tokens(CallLine(tab, name, id, max), DELIMS);
    assert toks[1..] == PrintedArgs(id, max);
  }

  lemma ParseOfCall(tab: nat, name: string, id: nat, max: int, rest: string)
    requires name in ["npc", "obj", "give", "equip", "put"] && NoReturnFirst(rest)
    ensures MakeCommand(name, PrintedArgs(id, max)).Some?
    ensures Parse(Tabs(tab) + Call(name, id, max) + rest)
         == [MakeCommand(name, PrintedArgs(id, max)).value] + Parse(rest)
  {
    hide *;
    NamesArePlain(name);
    CallEndsLine(tab, name, id, max, rest);
    TokensOfPrinted(tab, name, id, max);
    CallIsOneLine(tab, name, id, max);
    ParseOfLine(CallLine(tab, name, id, max), rest);
    MakePrinted(name, id, max);
  }

  lemma NamesArePlain(name: string)
    requires name in ["npc", "obj", "give", "equip", "put"]
    ensures PlainName(name)
  {
  }

  lemma CallEndsLine(tab: nat, name: string, id: nat, max: int, rest: string)
    ensures Tabs(tab) + Call(name, id, max) + rest == CallLine(tab, name, id, max) + "\n" + rest
  {
    hide Tabs, Digits;
  }

  lemma ParseOfLine(line: string, rest: string)
    requires '\n' !in line && NoReturnFirst(rest)
    ensures var c := ParseTokens(Tokens(line, DELIMS));
            Parse(line + "\n" + rest) == (if c == None then [] else [c.value]) + Parse(rest)
  {
    LineOfText(line, rest);
    hide LineOf, AfterLine, Tokens, ParseTokens;
  }

  lemma PrintedStart(saved: Saved, r: Reset, tab: nat, rest: string)
    requires IsSaved(saved, r) && NoReturnFirst(rest)
    ensures NoReturnFirst(PrintReset(saved, r, tab) + rest)
  {
    hide Digits;
    TabsAreSpaces(tab);
    if tab > 0 {
      assert Tabs(tab)[0] in Tabs(tab);
    }
  }

  /** The printed line of a reset parses to what the reset asks for. */
  lemma ParseOfReset(saved: Saved, r: Reset, tab: nat, rest: string)
    requires IsSaved(saved, r) && NoReturnFirst(rest)
    requires r.kind in ['M', 'O', 'P', 'G', 'E'] || (r.kind == 'D' && tab == 0)
    ensures Parse(PrintReset(saved, r, tab) + rest) == CommandOf(saved, r) + Parse(rest)
  {
    assert tab == 0 ==> Tabs(tab) == "";
    hide Digits, Parse, Call, MakeCommand, PrintedArgs, Tabs;
    if r.kind == 'D' {
      assert PrintReset(saved, r, tab) + rest == rest;
    } else {
      var name := ScriptName(r.kind);
      var id := if r.kind == 'M' then saved.npc[r.arg1] else saved.obj[r.arg1];
      var max := if r.kind == 'M' then (if r.arg4 > 1 then r.arg4 else 0) else if r.kind == 'O' then r.arg4 else 0;
      ParseOfCall(tab, name, id, max, rest);
      MakePrinted(name, id, max);
    }
  }

  /** The lines of a script as they are read: a missing maximum is 1. */
  lemma {:induction false} ScriptLine(name: string, id: nat, max: nat, rest: string)
    requires name in ["npc", "obj", "give", "equip", "put"] && NoReturnFirst(rest)
    ensures var text := name + "(" + Digits(id) + (if max > 0 then "," + Digits(max) else "") + ")\n";
            var m := if max > 0 then max else 1;
            && (name == "npc" ==> Parse(text + rest) == [Npc(id, m)] + Parse(rest))
            && (name == "obj" ==> Parse(text + rest) == [Obj(id, m)] + Parse(rest))
            && (name == "give" ==> Parse(text + rest) == [Give(id, m)] + Parse(rest))
            && (name == "equip" && max == 0 ==> Parse(text + rest) == [Equip(id, None)] + Parse(rest))
            && (name == "put" ==> Parse(text + rest) == [Put(id)] + Parse(rest))
  {
    hide Parse, Digits, MakeCommand, PrintedArgs, NoReturnFirst;
    ParseOfCall(0, name, id, max, rest);
    MakePrinted(name, id, max);
    assert Tabs(0) + Call(name, id, max) == Call(name, id, max);
  }

  /** The line that equips a named slot, and a line that no command starts. */
  lemma {:induction false} SlotLine(id: nat, slot: string, rest: string)
    requires slot != "" && Free(slot, DELIMS) && '\n' !in slot && NoReturnFirst(rest)
    ensures Parse("equip(" + Digits(id) + "," + slot + ")\n" + rest) == [Equip(id, Some(slot))] + Parse(rest)
  {
    hide Parse, Digits, NoReturnFirst, Tokens, ParseTokens, Free;
    var line := "equip(" + Digits(id) + "," + slot + ")";
    DigitsAreFree(id);
    SlotTokens(id, slot);
    ParseOfSlot(id, slot);
    ParseOfLine(line, rest);
    assert line + "\n" + rest == "equip(" + Digits(id) + "," + slot + ")\n" + rest;
  }

  lemma {:induction false} SlotTokens(id: nat, slot: string)
    requires slot != "" && Free(slot, DELIMS)
    ensures Tokens("equip(" + Digits(id) + "," + slot + ")", DELIMS) == ["equip", Digits(id), slot]
  {
    hide Tokens, Digits;
    var last, tail := slot + ")", "(" + (Digits(id) + ("," + (slot + ")")));
    DigitsAreFree(id);
    assert ")" == [')'] + "" && "," + last == [','] + last;
    SkipDelimiter(')', "", DELIMS);
    NoTokens();
    FirstToken(slot, ")", DELIMS);
    SkipDelimiter(',', last, DELIMS);
    FirstToken(Digits(id), "," + last, DELIMS);
    assert tail == ['('] + (Digits(id) + ("," + last));
    SkipDelimiter('(', Digits(id) + ("," + last), DELIMS);
    FirstToken("equip", tail, DELIMS);
    assert "equip(" + Digits(id) + "," + slot + ")" == "equip" + tail;
  }

  lemma {:induction false} NoTokens()
    ensures Tokens("", DELIMS) == []
  {
  }

  lemma {:induction false} ParseOfSlot(id: nat, slot: string)
    ensures ParseTokens(["equip", Digits(id), slot]) == Some(Equip(id, Some(slot)))
  {
    hide Digits, Atoi, SameName;
    var toks := ["equip", Digits(id), slot];
    NamesArePlain("equip");
    PlainIsTrimmed("equip");
    NamesDiffer("equip");
    AtoiOfDigits(id);
    assert toks[1..] == [Digits(id), slot];
  }

  /** What the lines that start a tree become: the first number is the npc or the object, the third the room, and the
      fourth of an M line its maximum; a D line leaves no text, and no other letter is known. */
  lemma {:induction false} RootLineBecomes(ix: Index, saved: Saved, n1: int, n2: int, n3: int, n4: int,
      last: Option<Reset>)
    requires ix.npcs <= saved.npc.Keys && ix.objs <= saved.obj.Keys
    ensures var a := Accept(ix, Line('M', n1, n2, n3, n4), last);
            if n1 in ix.npcs && n3 in ix.rooms
            then && a.Some? && a.value.kind == 'M' && a.value.room == n3
                 && PrintReset(saved, a.value, 0) ==
                    "npc(" + Digits(saved.npc[n1]) + (if n4 > 1 then "," + Digits(n4) else "") + ")\n"
            else a == None
    ensures var a := Accept(ix, Line('O', n1, n2, n3, n4), last);
            if n1 in ix.objs && n3 in ix.rooms
            then && a.Some? && a.value.kind == 'O' && a.value.room == n3
                 && PrintReset(saved, a.value, 0) == "obj(" + Digits(saved.obj[n1]) + ")\n"
            else a == None
    ensures var a := Accept(ix, Line('D', n1, n2, n3, n4), last);
            if n1 in ix.rooms && 0 <= n2 <= 5 && (n1, n2) in ix.doors
            then a.Some? && a.value.kind == 'D' && a.value.room == n1 && PrintReset(saved, a.value, 0) == ""
            else a == None
    ensures forall c :: c !in "MOGEPD" ==> Accept(ix, Line(c, n1, n2, n3, n4), last) == None
  {
    hide Digits;
    assert Tabs(0) == "";
  }

  /** G and E lines belong to the M line before them; their first number is the object. */
  lemma {:induction false} MobLineBecomes(ix: Index, saved: Saved, letter: char, n1: int, n2: int, n3: int, n4: int,
      last: Option<Reset>)
    requires ix.objs <= saved.obj.Keys && (letter == 'G' || letter == 'E')
    ensures var a := Accept(ix, Line(letter, n1, n2, n3, n4), last);
            if n1 in ix.objs && last.Some? && last.value.kind == 'M'
            then && a.Some? && a.value.kind == letter && a.value.room == last.value.room
                 && PrintReset(saved, a.value, 1) ==
                    "\t" + (if letter == 'G' then "give(" else "equip(") + Digits(saved.obj[n1]) + ")\n"
            else a == None
  {
    hide Digits;
    assert Tabs(0) == "" && Tabs(1) == "\t" + Tabs(0) == "\t";
  }

  /** P lines belong to the O line before them. */
  lemma {:induction false} ObjLineBecomes(ix: Index, saved: Saved, n1: int, n2: int, n3: int, n4: int,
      last: Option<Reset>)
    requires ix.objs <= saved.obj.Keys
    ensures var a := Accept(ix, Line('P', n1, n2, n3, n4), last);
            if n1 in ix.objs && last.Some? && last.value.kind == 'O'
            then && a.Some? && a.value.kind == 'P' && a.value.room == last.value.room
                 && PrintReset(saved, a.value, 1) == "\tput(" + Digits(saved.obj[n1]) + ")\n"
            else a == None
  {
    hide Digits;
    assert Tabs(0) == "" && Tabs(1) == "\t" + Tabs(0) == "\t";
  }

  function ScriptName(kind: char): string {
    if kind == 'M' then "npc" else if kind == 'O' then "obj" else if kind == 'P' then "put"
    else if kind == 'G' then "give" else "equip"
  }

  lemma {:induction false} ParseOfAll(saved: Saved, rs: seq<Reset>, tab: nat)
    requires forall r :: r in rs ==> IsSaved(saved, r) && r.kind in ['P', 'G', 'E']
    ensures Parse(PrintAll(saved, rs, tab)) == CommandsOf(saved, rs)
    ensures NoReturnFirst(PrintAll(saved, rs, tab))
  {
    if rs != [] {
      ParseOfAll(saved, rs[1..], tab);
      ParseOfReset(saved, rs[0], tab, PrintAll(saved, rs[1..], tab));
      PrintedStart(saved, rs[0], tab, PrintAll(saved, rs[1..], tab));
    }
  }

  /** The script printed for an imported tree parses to the preorder of the tree. */
  lemma ParseOfTree(ix: Index, saved: Saved, t: Tree)
    requires WellFormed(ix, t) && TreeIsSaved(saved, t)
    ensures Parse(PrintTree(saved, t)) == CommandOf(saved, t.root) + CommandsOf(saved, t.subs)
  {
    ParseOfAll(saved, t.subs, 1);
    ParseOfReset(saved, t.root, 0, PrintAll(saved, t.subs, 1));
  }

  // ---------------------------------------------------------------- from commands to a room

  /** Loaded NPCs and objects are known by their place in the order of loading. wearing lists what
      was handed to wear_obj, or to equip_char with a named slot. */
  datatype NpcRec = NpcRec(id: int, carrying: seq<nat>, wearing: seq<(nat, Option<string>)>)
  datatype ItemRec = ItemRec(id: int, contains: seq<nat>)

  /** Everything loaded, and the room's two lists. */
  datatype State = State(npcs: seq<NpcRec>, items: seq<ItemRec>, people: seq<nat>, things: seq<nat>)

  /** The records that load_npc and load_object can find. */
  datatype Db = Db(npcs: set<int>, items: set<int>)

  /** The interpreter's variables lastNPC and lastOBJ, and the number of logged errors. */
  datatype Run = Run(st: State, lastNPC: Option<nat>, lastOBJ: Option<nat>, errors: nat)

  function CountNpcs(list: seq<nat>, npcs: seq<NpcRec>, id: int): nat {
    if list == [] then 0
    else (if list[0] < |npcs| && npcs[list[0]].id == id then 1 else 0) + CountNpcs(list[1..], npcs, id)
  }

  function CountItems(list: seq<nat>, items: seq<ItemRec>, id: int): nat {
    if list == [] then 0
    else (if list[0] < |items| && items[list[0]].id == id then 1 else 0) + CountItems(list[1..], items, id)
  }

  function LoadNpc(st: State, id: int): State {
    st.(npcs := st.npcs + [NpcRec(id, [], [])])
  }

  function LoadItem(st: State, id: int): State {
    st.(items := st.items + [ItemRec(id, [])])
  }

  /** char_to_room, unless the room already holds max of them. */
  function Enter(st: State, h: nat, id: int, max: int): State {
    if CountNpcs(st.people, st.npcs, id) >= max then st else st.(people := [h] + st.people)
  }

  /** obj_to_room, unless the room already holds max of them. */
  function Drop(st: State, h: nat, id: int, max: int): State {
    if CountItems(st.things, st.items, id) >= max then st else st.(things := [h] + st.things)
  }

  /** obj_to_char, unless the NPC already carries max of them. */
  function Hand(st: State, npc: nat, h: nat, id: int, max: int): State {
    if npc >= |st.npcs| || CountItems(st.npcs[npc].carrying, st.items, id) >= max then st
    else st.(npcs := st.npcs[npc := st.npcs[npc].(carrying := [h] + st.npcs[npc].carrying)])
  }

  /** obj_to_char and then wear_obj or equip_char. */
  function Dress(st: State, npc: nat, h: nat, slot: Option<string>): State {
    if npc >= |st.npcs| then st
    else
      var n := st.npcs[npc];
      st.(npcs := st.npcs[npc := n.(carrying := [h] + n.carrying, wearing := [(h, slot)] + n.wearing)])
  }

  /** obj_to_obj */
  function PutIn(st: State, container: nat, h: nat): State {
    if container >= |st.items| then st
    else st.(items := st.items[container := st.items[container].(contains := [h] + st.items[container].contains)])
  }

  /** One command of reset_room, with its error branches. */
  function Exec(db: Db, c: Run, cmd: Command): Run {
    var failed := c.(errors := c.errors + 1);
    match cmd
    case Npc(id, max) =>
      if id == 0 then failed
      else if id !in db.npcs then failed.(lastNPC := None)
      else var h := |c.st.npcs|; c.(lastNPC := Some(h), st := Enter(LoadNpc(c.st, id), h, id, max))
    case Obj(id, max) =>
      if id == 0 then failed
      else if id !in db.items then failed.(lastOBJ := None)
      else var h := |c.st.items|; c.(lastOBJ := Some(h), st := Drop(LoadItem(c.st, id), h, id, max))
    case Give(id, max) =>
      if c.lastNPC == None || id == 0 then failed
      else if id !in db.items then failed.(lastOBJ := None)
      else var h := |c.st.items|; c.(lastOBJ := Some(h), st := Hand(LoadItem(c.st, id), c.lastNPC.value, h, id, max))
    case Equip(id, slot) =>
      if c.lastNPC == None || id == 0 then failed
      else if id !in db.items then failed.(lastOBJ := None)
      else var h := |c.st.items|; c.(lastOBJ := Some(h), st := Dress(LoadItem(c.st, id), c.lastNPC.value, h, slot))
    case Put(id) =>
      if c.lastOBJ == None || id == 0 || id !in db.items then failed
      else var h := |c.st.items|; c.(st := PutIn(LoadItem(c.st, id), c.lastOBJ.value, h))
  }

  function ExecAll(db: Db, c: Run, cmds: seq<Command>): Run
    decreases |cmds|
  {
    if cmds == [] then c else ExecAll(db, Exec(db, c, cmds[0]), cmds[1..])
  }

  // ---------------------------------------------------------------- what a maximum limits

  /** Whatever is on a list was loaded. */
  predicate Known(st: State) {
    && (forall k :: k in st.people ==> k < |st.npcs|)
    && (forall k :: k in st.things ==> k < |st.items|)
    && (forall i, k :: 0 <= i < |st.npcs| && k in st.npcs[i].carrying ==> k < |st.items|)
  }

  /** How many in the room, on its floor, or carried by one of its NPCs, have the id. */
  function People(st: State, id: int): nat {
    CountNpcs(st.people, st.npcs, id)
  }

  function Things(st: State, id: int): nat {
    CountItems(st.things, st.items, id)
  }

  function Carried(st: State, npc: nat, id: int): nat {
    if npc < |st.npcs| then CountItems(st.npcs[npc].carrying, st.items, id) else 0
  }

  lemma {:induction false} CountNpcsOfJoin(a: seq<nat>, k: nat, npcs: seq<NpcRec>, id: int)
    ensures CountNpcs(a + [k], npcs, id) == CountNpcs(a, npcs, id) + if k < |npcs| && npcs[k].id == id then 1 else 0
  {
    if a == [] {
      assert a + [k] == [k] && [k][1..] == [];
    } else {
      assert (a + [k])[1..] == a[1..] + [k];
      CountNpcsOfJoin(a[1..], k, npcs, id);
    }
  }

  lemma {:induction false} CountItemsOfJoin(a: seq<nat>, k: nat, items: seq<ItemRec>, id: int)
    ensures CountItems(a + [k], items, id) ==
            CountItems(a, items, id) + if k < |items| && items[k].id == id then 1 else 0
  {
    if a == [] {
      assert a + [k] == [k] && [k][1..] == [];
    } else {
      assert (a + [k])[1..] == a[1..] + [k];
      CountItemsOfJoin(a[1..], k, items, id);
    }
  }

  /** The places of a list at which something with the id is. */
  ghost function NpcPlaces(list: seq<nat>, npcs: seq<NpcRec>, id: int): set<int> {
    set i | 0 <= i < |list| && list[i] < |npcs| && npcs[list[i]].id == id
  }

  ghost function ItemPlaces(list: seq<nat>, items: seq<ItemRec>, id: int): set<int> {
    set i | 0 <= i < |list| && list[i] < |items| && items[list[i]].id == id
  }

  /** The numbers that are counted are numbers of places. */
  lemma {:induction false} NpcsCounted(list: seq<nat>, npcs: seq<NpcRec>, id: int)
    ensures CountNpcs(list, npcs, id) == |NpcPlaces(list, npcs, id)|
  {
    if list != [] {
      var n := |list| - 1;
      NpcsCounted(list[..n], npcs, id);
      CountNpcsOfJoin(list[..n], list[n], npcs, id);
      assert list == list[..n] + [list[n]];
      assert NpcPlaces(list, npcs, id) - {n} == NpcPlaces(list[..n], npcs, id);
    }
  }

  lemma {:induction false} ItemsCounted(list: seq<nat>, items: seq<ItemRec>, id: int)
    ensures CountItems(list, items, id) == |ItemPlaces(list, items, id)|
  {
    if list != [] {
      var n := |list| - 1;
      ItemsCounted(list[..n], items, id);
      CountItemsOfJoin(list[..n], list[n], items, id);
      assert list == list[..n] + [list[n]];
      assert ItemPlaces(list, items, id) - {n} == ItemPlaces(list[..n], items, id);
    }
  }

  lemma {:induction false} SameNpcs(list: seq<nat>, npcs: seq<NpcRec>, npcs': seq<NpcRec>, id: int)
    requires forall k :: k in list ==> k < |npcs| && k < |npcs'| && npcs[k].id == npcs'[k].id
    ensures CountNpcs(list, npcs, id) == CountNpcs(list, npcs', id)
  {
    if list != [] {
      assert forall k :: k in list[1..] ==> k in list;
      SameNpcs(list[1..], npcs, npcs', id);
    }
  }

  lemma {:induction false} SameItems(list: seq<nat>, items: seq<ItemRec>, items': seq<ItemRec>, id: int)
    requires forall k :: k in list ==> k < |items| && k < |items'| && items[k].id == items'[k].id
    ensures CountItems(list, items, id) == CountItems(list, items', id)
  {
    if list != [] {
      assert forall k :: k in list[1..] ==> k in list;
      SameItems(list[1..], items, items', id);
    }
  }

  /** Nothing that was loaded goes or becomes something else. */
  predicate Keeps(st: State, st': State) {
    && |st.npcs| <= |st'.npcs| && (forall k :: 0 <= k < |st.npcs| ==> st'.npcs[k].id == st.npcs[k].id)
    && |st.items| <= |st'.items| && (forall k :: 0 <= k < |st.items| ==> st'.items[k].id == st.items[k].id)
  }

  lemma {:induction false} ExecKeeps(db: Db, c: Run, cmd: Command)
    requires Known(c.st)
    ensures Keeps(c.st, Exec(db, c, cmd).st) && Known(Exec(db, c, cmd).st)
  {
  }

  /** The one command that brings people into the room brings one, if there are fewer than its maximum. */
  lemma {:induction false} PeopleAfter(db: Db, c: Run, cmd: Command)
    requires Known(c.st)
    ensures var st' := Exec(db, c, cmd).st;
            st'.people == if cmd.Npc? && cmd.id != 0 && cmd.id in db.npcs && People(c.st, cmd.id) < cmd.max
                          then [|c.st.npcs|] + c.st.people else c.st.people
  {
    if cmd.Npc? {
      SameNpcs(c.st.people, c.st.npcs, c.st.npcs + [NpcRec(cmd.id, [], [])], cmd.id);
    }
  }

  lemma {:induction false} ThingsAfter(db: Db, c: Run, cmd: Command)
    requires Known(c.st)
    ensures var st' := Exec(db, c, cmd).st;
            st'.things == if cmd.Obj? && cmd.id != 0 && cmd.id in db.items && Things(c.st, cmd.id) < cmd.max
                          then [|c.st.items|] + c.st.things else c.st.things
  {
    if cmd.Obj? {
      SameItems(c.st.things, c.st.items, c.st.items + [ItemRec(cmd.id, [])], cmd.id);
    }
  }

  /** What is loaded gets the next number. */
  lemma {:induction false} NextLoaded(db: Db, c: Run, cmd: Command)
    ensures var st' := Exec(db, c, cmd).st;
            && (cmd.Npc? && cmd.id != 0 && cmd.id in db.npcs ==>
                  |st'.npcs| == |c.st.npcs| + 1 && st'.npcs[|c.st.npcs|] == NpcRec(cmd.id, [], []))
            && (cmd.Obj? && cmd.id != 0 && cmd.id in db.items ==>
                  |st'.items| == |c.st.items| + 1 && st'.items[|c.st.items|] == ItemRec(cmd.id, []))
  {
  }

  /** One command adds one to the people with an id exactly when it loads an NPC with that id and there are fewer of
      them in the room than its maximum. */
  lemma {:induction false} PeopleCount(db: Db, c: Run, cmd: Command, id: int)
    requires Known(c.st)
    ensures People(Exec(db, c, cmd).st, id) == People(c.st, id) +
              if cmd.Npc? && cmd.id == id && id != 0 && id in db.npcs && People(c.st, id) < cmd.max then 1 else 0
  {
    PeopleAfter(db, c, cmd);
    NextLoaded(db, c, cmd);
    ExecKeeps(db, c, cmd);
    var st' := Exec(db, c, cmd).st;
    hide Exec;
    SameNpcs(c.st.people, c.st.npcs, st'.npcs, id);
    assert st'.people != c.st.people ==> st'.people[1..] == c.st.people;
  }

  lemma {:induction false} ThingsCount(db: Db, c: Run, cmd: Command, id: int)
    requires Known(c.st)
    ensures Things(Exec(db, c, cmd).st, id) == Things(c.st, id) +
              if cmd.Obj? && cmd.id == id && id != 0 && id in db.items && Things(c.st, id) < cmd.max then 1 else 0
  {
    ThingsAfter(db, c, cmd);
    NextLoaded(db, c, cmd);
    ExecKeeps(db, c, cmd);
    var st' := Exec(db, c, cmd).st;
    hide Exec;
    SameItems(c.st.things, c.st.items, st'.items, id);
    assert st'.things != c.st.things ==> st'.things[1..] == c.st.things;
  }

  /** Give and equip hand one more to the last NPC: equip always, give if it carries fewer than the maximum. */
  lemma {:induction false} CarryingAfter(db: Db, c: Run, cmd: Command, h: nat)
    requires Known(c.st) && h < |c.st.npcs|
    ensures var st' := Exec(db, c, cmd).st;
            && h < |st'.npcs|
            && ((cmd.Give? || cmd.Equip?) && c.lastNPC.Some? && cmd.id != 0 && cmd.id in db.items ==>
                  |st'.items| == |c.st.items| + 1 && st'.items[|c.st.items|] == ItemRec(cmd.id, []))
            && st'.npcs[h].carrying ==
                 if c.lastNPC == Some(h) && (cmd.Give? || cmd.Equip?) && cmd.id != 0 && cmd.id in db.items
                    && (cmd.Give? ==> Carried(c.st, h, cmd.id) < cmd.max)
                 then [|c.st.items|] + c.st.npcs[h].carrying else c.st.npcs[h].carrying
  {
    if cmd.Give? {
      SameItems(c.st.npcs[h].carrying, c.st.items, c.st.items + [ItemRec(cmd.id, [])], cmd.id);
    }
  }

  lemma {:induction false} CarriedCount(db: Db, c: Run, cmd: Command, h: nat, id: int)
    requires Known(c.st) && h < |c.st.npcs|
    ensures Carried(Exec(db, c, cmd).st, h, id) == Carried(c.st, h, id) +
              if c.lastNPC == Some(h) && (cmd.Give? || cmd.Equip?) && cmd.id == id && id != 0 && id in db.items
                 && (cmd.Give? ==> Carried(c.st, h, id) < cmd.max) then 1 else 0
  {
    CarryingAfter(db, c, cmd, h);
    ExecKeeps(db, c, cmd);
    var st' := Exec(db, c, cmd).st;
    hide Exec;
    SameItems(c.st.npcs[h].carrying, c.st.items, st'.items, id);
    assert st'.npcs[h].carrying != c.st.npcs[h].carrying ==>
      st'.npcs[h].carrying[1..] == c.st.npcs[h].carrying;
  }

  /** m is at least every maximum that the commands give for the id. */
  predicate NpcMaximum(cmds: seq<Command>, id: int, m: int) {
    forall c :: c in cmds && c.Npc? && c.id == id ==> c.max <= m
  }

  predicate ObjMaximum(cmds: seq<Command>, id: int, m: int) {
    forall c :: c in cmds && c.Obj? && c.id == id ==> c.max <= m
  }

  /** The same for what is given; nothing limits what is equipped. */
  predicate GiveMaximum(cmds: seq<Command>, id: int, m: int) {
    forall c :: c in cmds && c.id == id ==> !c.Equip? && (c.Give? ==> c.max <= m)
  }

  /** Whatever the script, what is loaded stays, and no more people with an id are in the room than there were or than
      the largest maximum given for it; the same holds for the objects on the floor. */
  lemma {:induction false} ScriptLimits(db: Db, c: Run, cmds: seq<Command>)
    requires Known(c.st)
    ensures var st' := ExecAll(db, c, cmds).st;
            && Known(st') && Keeps(c.st, st')
            && (forall id, m :: People(c.st, id) <= m && NpcMaximum(cmds, id, m) ==> People(st', id) <= m)
            && (forall id, m :: Things(c.st, id) <= m && ObjMaximum(cmds, id, m) ==> Things(st', id) <= m)
    decreases |cmds|
  {
    if cmds != [] {
      var next := Exec(db, c, cmds[0]);
      ExecKeeps(db, c, cmds[0]);
      var end := ExecAll(db, next, cmds[1..]);
      assert end == ExecAll(db, c, cmds);
      hide Exec, Known, People, Things, ExecAll;
      ScriptLimits(db, next, cmds[1..]);
      forall id, m | People(c.st, id) <= m && NpcMaximum(cmds, id, m)
        ensures People(end.st, id) <= m
      {
        PeopleCount(db, c, cmds[0], id);
        assert NpcMaximum(cmds[1..], id, m) && People(next.st, id) <= m;
      }
      forall id, m | Things(c.st, id) <= m && ObjMaximum(cmds, id, m)
        ensures Things(end.st, id) <= m
      {
        ThingsCount(db, c, cmds[0], id);
        assert ObjMaximum(cmds[1..], id, m) && Things(next.st, id) <= m;
      }
    }
  }

  /** An NPC carries no more objects with an id than before the script or than the largest maximum given for it, if none
      of them is equipped; one that the script loads starts with none. */
  lemma {:induction false} ScriptLimitsCarried(db: Db, c: Run, cmds: seq<Command>, h: nat, id: int, m: nat)
    requires Known(c.st) && Carried(c.st, h, id) <= m && GiveMaximum(cmds, id, m)
    ensures Carried(ExecAll(db, c, cmds).st, h, id) <= m
    decreases |cmds|
  {
    if cmds != [] {
      var next := Exec(db, c, cmds[0]);
      ExecKeeps(db, c, cmds[0]);
      if h < |c.st.npcs| {
        CarriedCount(db, c, cmds[0], h, id);
      } else {
        NewCarriesNothing(db, c, cmds[0], h, id);
      }
      hide Exec, Known, Carried;
      assert GiveMaximum(cmds[1..], id, m);
      ScriptLimitsCarried(db, next, cmds[1..], h, id, m);
    }
  }

  lemma {:induction false} NewCarriesNothing(db: Db, c: Run, cmd: Command, h: nat, id: int)
    requires h >= |c.st.npcs|
    ensures Carried(Exec(db, c, cmd).st, h, id) == 0
  {
  }

  /** Where every maximum is reached, nobody comes into the room. */
  lemma {:induction false} FullRoomStays(db: Db, c: Run, cmds: seq<Command>)
    requires Known(c.st)
    requires forall k :: 0 <= k < |cmds| && cmds[k].Npc? ==> People(c.st, cmds[k].id) >= cmds[k].max
    ensures ExecAll(db, c, cmds).st.people == c.st.people
    decreases |cmds|
  {
    if cmds != [] {
      var next := Exec(db, c, cmds[0]);
      ExecKeeps(db, c, cmds[0]);
      PeopleAfter(db, c, cmds[0]);
      hide Exec, Known;
      forall k | 0 <= k < |cmds[1..]| && cmds[1..][k].Npc?
        ensures People(next.st, cmds[1..][k].id) >= cmds[1..][k].max
      {
        PeopleCount(db, c, cmds[0], cmds[k + 1].id);
      }
      hide People;
      FullRoomStays(db, next, cmds[1..]);
    }
  }

  /** What can be done: the record can be loaded, and there is an NPC to give it to or an object to put it in. */
  predicate Possible(db: Db, c: Run, cmd: Command) {
    && cmd.id != 0 && (if cmd.Npc? then cmd.id in db.npcs else cmd.id in db.items)
    && (cmd.Give? || cmd.Equip? ==> c.lastNPC.Some?) && (cmd.Put? ==> c.lastOBJ.Some?)
  }

  /** What cannot be done is logged and changes no list. The last NPC is the one that was loaded last, and none after
      one that could not be loaded; the last object likewise, but nothing that is put into it replaces it. */
  lemma {:induction false} CommandOutcome(db: Db, c: Run, cmd: Command)
    ensures var c' := Exec(db, c, cmd);
            && c'.errors == c.errors + (if Possible(db, c, cmd) then 0 else 1)
            && (!Possible(db, c, cmd) ==> c'.st == c.st)
            && c'.lastNPC == (if !cmd.Npc? || cmd.id == 0 then c.lastNPC
                              else if cmd.id in db.npcs then Some(|c.st.npcs|) else None)
            && c'.lastOBJ == (if cmd.Npc? || cmd.Put? || cmd.id == 0 then c.lastOBJ
                              else if !cmd.Obj? && c.lastNPC == None then c.lastOBJ
                              else if cmd.id in db.items then Some(|c.st.items|) else None)
  {
  }

  /** What is equipped is carried and worn by the last NPC and by nobody else, in the slot that was named. */
  lemma {:induction false} EquipDresses(db: Db, c: Run, cmd: Command, npc: nat, h: nat)
    requires cmd.Equip? && Possible(db, c, cmd) && c.lastNPC == Some(npc) && npc < |c.st.npcs| && h < |c.st.npcs|
    ensures var st, st', k := c.st, Exec(db, c, cmd).st, |c.st.items|;
            && st'.items == st.items + [ItemRec(cmd.id, [])] && |st'.npcs| == |st.npcs|
            && st'.people == st.people && st'.things == st.things
            && st'.npcs[npc].wearing == [(k, cmd.slot)] + st.npcs[npc].wearing
            && st'.npcs[npc].carrying == [k] + st.npcs[npc].carrying && st'.npcs[npc].id == st.npcs[npc].id
            && (h != npc ==> st'.npcs[h] == st.npcs[h])
  {
  }

  /** What is put is in the last object and in no other. */
  lemma {:induction false} PutFills(db: Db, c: Run, cmd: Command, box: nat, h: nat)
    requires cmd.Put? && Possible(db, c, cmd) && c.lastOBJ == Some(box) && box < |c.st.items| && h < |c.st.items|
    ensures var st, st', k := c.st, Exec(db, c, cmd).st, |c.st.items|;
            && |st'.items| == k + 1 && st'.items[k] == ItemRec(cmd.id, []) && st'.npcs == st.npcs
            && st'.people == st.people && st'.things == st.things
            && st'.items[box].contains == [k] + st.items[box].contains && st'.items[box].id == st.items[box].id
            && (h != box ==> st'.items[h] == st.items[h])
  {
  }

  class Room {
    const db: Db
    var npcs: seq<NpcRec>
    var items: seq<ItemRec>
    var people: seq<nat>
    var things: seq<nat>

    constructor (db: Db)
      ensures this.db == db && Snapshot() == State([], [], [], [])
    {
      this.db := db;
      npcs, items, people, things := [], [], [], [];
    }

    function Snapshot(): State
      reads this
    {
      State(npcs, items, people, things)
    }

    method CountPeople(id: int) returns (count: int)
      ensures count == CountNpcs(people, npcs, id)
    {
      count := 0;
      var i := 0;
      assert people[0..] == people;
      while i < |people|
        invariant 0 <= i <= |people|
        invariant count + CountNpcs(people[i..], npcs, id) == CountNpcs(people, npcs, id)
      {
        assert people[i..][1..] == people[i + 1..];
        if people[i] < |npcs| && npcs[people[i]].id == id {
          count := count + 1;
        }
        i := i + 1;
      }
    }

    method CountObjects(list: seq<nat>, id: int) returns (count: int)
      ensures count == CountItems(list, items, id)
    {
      count := 0;
      var i := 0;
      assert list[0..] == list;
      while i < |list|
        invariant 0 <= i <= |list|
        invariant count + CountItems(list[i..], items, id) == CountItems(list, items, id)
      {
        assert list[i..][1..] == list[i + 1..];
        if list[i] < |items| && items[list[i]].id == id {
          count := count + 1;
        }
        i := i + 1;
      }
    }

    /** The branches of reset_room for one command. */
    method Execute(cmd: Command, lastNPC: Option<nat>, lastOBJ: Option<nat>, errors: nat)
      returns (npc: Option<nat>, obj: Option<nat>, errs: nat)
      modifies this
      ensures Run(Snapshot(), npc, obj, errs) == Exec(db, Run(old(Snapshot()), lastNPC, lastOBJ, errors), cmd)
      ensures old(Known(Snapshot())) ==> Known(Snapshot())
      ensures old(Known(Snapshot())) && cmd.Npc? && cmd.id != 0 && cmd.id in db.npcs ==>
                people == if old(People(Snapshot(), cmd.id)) < cmd.max then [|old(npcs)|] + old(people) else old(people)
      ensures old(Known(Snapshot())) && cmd.Obj? && cmd.id != 0 && cmd.id in db.items ==>
                things ==
                  if old(Things(Snapshot(), cmd.id)) < cmd.max then [|old(items)|] + old(things) else old(things)
    {
      ghost var c := Run(Snapshot(), lastNPC, lastOBJ, errors);
      if Known(c.st) {
        ExecKeeps(db, c, cmd);
        PeopleAfter(db, c, cmd);
        ThingsAfter(db, c, cmd);
      }
      hide Known, People, Things;
      npc, obj, errs := lastNPC, lastOBJ, errors + 1;
      match cmd {
        case Npc(id, max) =>
          if id == 0 { return; }
          if id !in db.npcs { npc := None; return; }
          npc, npcs := Some(|npcs|), npcs + [NpcRec(id, [], [])];
          var count := CountPeople(id);
          if count < max { people := [npc.value] + people; }
        case Obj(id, max) =>
          if id == 0 { return; }
          if id !in db.items { obj := None; return; }
          obj, items := Some(|items|), items + [ItemRec(id, [])];
          var count := CountObjects(things, id);
          if count < max { things := [obj.value] + things; }
        case Give(id, max) =>
          if lastNPC == None || id == 0 { return; }
          if id !in db.items { obj := None; return; }
          obj, items := Some(|items|), items + [ItemRec(id, [])];
          if npc.value < |npcs| {
            var n := npcs[npc.value];
            var count := CountObjects(n.carrying, id);
            if count < max { npcs := npcs[npc.value := n.(carrying := [obj.value] + n.carrying)]; }
          }
        case Equip(id, slot) =>
          if lastNPC == None || id == 0 { return; }
          if id !in db.items { obj := None; return; }
          obj, items := Some(|items|), items + [ItemRec(id, [])];
          if npc.value < |npcs| {
            var n := npcs[npc.value];
            n := n.(carrying := [obj.value] + n.carrying, wearing := [(obj.value, slot)] + n.wearing);
            npcs := npcs[npc.value := n];
          }
        case Put(id) =>
          if lastOBJ == None || id == 0 || id !in db.items { return; }
          var h := |items|;
          items := items + [ItemRec(id, [])];
          if obj.value < |items| {
            items := items[obj.value := items[obj.value].(contains := [h] + items[obj.value].contains)];
          }
      }
      errs := errors;
    }

    /** The tokens of one line of a script, recognised by name in the order of reset_room. */
    method Recognise(toks: seq<string>) returns (cmd: Option<Command>)
      requires toks != []
      ensures cmd == ParseTokens(toks)
    {
      var name := Trim(toks[0]);
      var args := toks[1..];
      var differ := StrCmp("npc", name);
      if !differ { return Some(Npc(IdOf(args), MaxOf(args))); }
      differ := StrCmp("obj", name);
      if !differ { return Some(Obj(IdOf(args), MaxOf(args))); }
      differ := StrCmp("give", name);
      if !differ { return Some(Give(IdOf(args), MaxOf(args))); }
      differ := StrCmp("equip", name);
      if !differ { return Some(Equip(IdOf(args), if |args| < 2 then None else Some(args[1]))); }
      differ := StrCmp("put", name);
      if !differ { return Some(Put(IdOf(args))); }
      return None;
    }

    /** reset_room: runs the script as its parsed commands run. */
    method ResetRoom(reset: string) returns (npc: Option<nat>, obj: Option<nat>, errors: nat)
      modifies this
      ensures Run(Snapshot(), npc, obj, errors)
           == ExecAll(db, Run(old(Snapshot()), None, None, 0), Parse(reset))
      ensures old(Known(Snapshot())) ==> Known(Snapshot())
      ensures old(Known(Snapshot())) ==>
                && (forall id, m :: old(People(Snapshot(), id)) <= m && NpcMaximum(Parse(reset), id, m) ==>
                      People(Snapshot(), id) <= m)
                && (forall id, m :: old(Things(Snapshot(), id)) <= m && ObjMaximum(Parse(reset), id, m) ==>
                      Things(Snapshot(), id) <= m)
    {
      if Known(Snapshot()) {
        ScriptLimits(db, Run(Snapshot(), None, None, 0), Parse(reset));
      }
      hide Known, People, Things, NpcMaximum, ObjMaximum;
      hide ParseTokens, Tokens, LineOf, AfterLine, Exec;
      var str := reset;
      npc, obj, errors := None, None, 0;
      while str != []
        invariant ExecAll(db, Run(Snapshot(), npc, obj, errors), Parse(str))
               == ExecAll(db, Run(old(Snapshot()), None, None, 0), Parse(reset))
        decreases |str|
      {
        var buf;
        ghost var whole := str;
        str, buf := GetLine(str);
        UnfoldParse(whole);
        var toks := Tokens(buf, DELIMS);
        if toks != [] {
          var cmd := Recognise(toks);
          if cmd.Some? {
            assert ([cmd.value] + Parse(str))[1..] == Parse(str);
            npc, obj, errors := Execute(cmd.value, npc, obj, errors);
          }
        }
      }
    }
  }

  lemma UnfoldParse(text: string)
    requires text != []
    ensures |AfterLine(text)| < |text|
    ensures var toks := Tokens(LineOf(text), DELIMS);
            var c := if toks == [] then None else ParseTokens(toks);
            Parse(text) == (if c == None then Parse(AfterLine(text)) else [c.value] + Parse(AfterLine(text)))
  {
    assert ParseTokens([]) == None;
  }

  // ---------------------------------------------------------------- what a tree means

  /** What a G or E reset does, told of the NPC it belongs to. */
  function SubMeaning(saved: Saved, st: State, npc: nat, r: Reset): State
    requires IsSaved(saved, r) && (r.kind == 'G' || r.kind == 'E')
  {
    var id, h := saved.obj[r.arg1], |st.items|;
    if r.kind == 'G' then Hand(LoadItem(st, id), npc, h, id, 1) else Dress(LoadItem(st, id), npc, h, None)
  }

  function SubsMeaning(saved: Saved, st: State, npc: nat, rs: seq<Reset>): State
    requires forall r :: r in rs ==> IsSaved(saved, r) && (r.kind == 'G' || r.kind == 'E')
    decreases |rs|
  {
    if rs == [] then st else SubsMeaning(saved, SubMeaning(saved, st, npc, rs[0]), npc, rs[1..])
  }

  function PutsMeaning(saved: Saved, st: State, container: nat, rs: seq<Reset>): State
    requires forall r :: r in rs ==> IsSaved(saved, r) && r.kind == 'P'
    decreases |rs|
  {
    if rs == [] then st
    else
      assert rs[0] in rs && IsSaved(saved, rs[0]);
      PutsMeaning(saved, PutIn(LoadItem(st, saved.obj[rs[0].arg1]), container, |st.items|), container, rs[1..])
  }

  /** What a tree does to a room, without a script: an M tree brings one new NPC, to which every G and
      E below it goes; an O tree brings one new object, into which every P below it goes. */
  function TreeMeaning(ix: Index, saved: Saved, st: State, t: Tree): State
    requires WellFormed(ix, t) && TreeIsSaved(saved, t)
  {
    if t.root.kind == 'M' then
      var id, h := saved.npc[t.root.arg1], |st.npcs|;
      SubsMeaning(saved, Enter(LoadNpc(st, id), h, id, if t.root.arg4 > 1 then t.root.arg4 else 1), h, t.subs)
    else if t.root.kind == 'O' then
      var id, h := saved.obj[t.root.arg1], |st.items|;
      PutsMeaning(saved, Drop(LoadItem(st, id), h, id, 1), h, t.subs)
    else st
  }

  // ---------------------------------------------------------------- what a tree brings

  /** What is given to an NPC and what it wears is carried by it, what is only given once; nobody else is touched. */
  lemma {:induction false} SubsBring(saved: Saved, st: State, npc: nat, rs: seq<Reset>, id: int)
    requires Known(st) && npc < |st.npcs|
    requires forall r :: r in rs ==> IsSaved(saved, r) && (r.kind == 'G' || r.kind == 'E')
    ensures var st' := SubsMeaning(saved, st, npc, rs);
            && Known(st') && Keeps(st, st') && |st'.npcs| == |st.npcs|
            && st'.people == st.people && st'.things == st.things
            && (forall k :: 0 <= k < |st.npcs| && k != npc ==> st'.npcs[k] == st.npcs[k])
            && Carried(st', npc, id) >= Carried(st, npc, id)
            && ((exists r :: r in rs && saved.obj[r.arg1] == id) ==> Carried(st', npc, id) >= 1)
            && ((forall r :: r in rs && r.kind == 'E' ==> saved.obj[r.arg1] != id) ==>
                  Carried(st', npc, id) <= if Carried(st, npc, id) > 1 then Carried(st, npc, id) else 1)
    decreases |rs|
  {
    if rs != [] {
      assert rs[0] in rs;
      var mid := SubMeaning(saved, st, npc, rs[0]);
      OneSub(saved, st, npc, rs[0], id);
      var st' := SubsMeaning(saved, st, npc, rs);
      assert st' == SubsMeaning(saved, mid, npc, rs[1..]);
      hide SubMeaning, SubsMeaning, Known, Carried;
      SubsBring(saved, mid, npc, rs[1..], id);
      if r :| r in rs && saved.obj[r.arg1] == id {
        assert r == rs[0] || r in rs[1..];
      }
    }
  }

  lemma {:induction false} OneSub(saved: Saved, st: State, npc: nat, r: Reset, id: int)
    requires Known(st) && npc < |st.npcs| && IsSaved(saved, r) && (r.kind == 'G' || r.kind == 'E')
    ensures var st' := SubMeaning(saved, st, npc, r);
            && Known(st') && Keeps(st, st') && |st'.npcs| == |st.npcs|
            && st'.people == st.people && st'.things == st.things
            && (forall k :: 0 <= k < |st.npcs| && k != npc ==> st'.npcs[k] == st.npcs[k])
            && Carried(st', npc, id) == Carried(st, npc, id) +
                 if saved.obj[r.arg1] == id && (r.kind == 'G' ==> Carried(st, npc, id) < 1) then 1 else 0
  {
    var item := saved.obj[r.arg1];
    var cmd := if r.kind == 'G' then Give(item, 1) else Equip(item, None);
    var db, c := Db({}, {item}), Run(st, Some(npc), None, 0);
    if item != 0 {
      assert Exec(db, c, cmd).st == SubMeaning(saved, st, npc, r);
      ExecKeeps(db, c, cmd);
      CarriedCount(db, c, cmd, npc, id);
    } else {
      var items' := st.items + [ItemRec(item, [])];
      SameItems(st.npcs[npc].carrying, st.items, items', id);
      SameItems(st.npcs[npc].carrying, st.items, items', item);
    }
  }

  /** Each thing that is equipped is worn and carried. */
  lemma {:induction false} SubsDress(saved: Saved, st: State, npc: nat, rs: seq<Reset>, r: Reset)
    requires Known(st) && npc < |st.npcs| && r in rs && r.kind == 'E'
    requires forall r :: r in rs ==> IsSaved(saved, r) && (r.kind == 'G' || r.kind == 'E')
    ensures var st' := SubsMeaning(saved, st, npc, rs); npc < |st'.npcs| && Wears(st', npc, saved.obj[r.arg1])
    decreases |rs|
  {
    assert rs[0] in rs;
    var mid := SubMeaning(saved, st, npc, rs[0]);
    OneSub(saved, st, npc, rs[0], 0);
    if rs[0] == r {
      var w: (nat, Option<string>) := (|st.items|, None);
      assert mid.npcs[npc].wearing[0] == w && mid.npcs[npc].carrying[0] == w.0;
      StaysDressed(saved, mid, npc, rs[1..], w);
    } else {
      SubsDress(saved, mid, npc, rs[1..], r);
    }
  }

  predicate Wears(st: State, npc: nat, id: int)
    requires npc < |st.npcs|
  {
    exists w :: w in st.npcs[npc].wearing && w.1 == None && w.0 in st.npcs[npc].carrying
                && w.0 < |st.items| && st.items[w.0].id == id
  }

  lemma {:induction false} StaysDressed(saved: Saved, st: State, npc: nat, rs: seq<Reset>, w: (nat, Option<string>))
    requires npc < |st.npcs| && w in st.npcs[npc].wearing && w.0 in st.npcs[npc].carrying && w.0 < |st.items|
    requires forall r :: r in rs ==> IsSaved(saved, r) && (r.kind == 'G' || r.kind == 'E')
    ensures var st' := SubsMeaning(saved, st, npc, rs);
            && npc < |st'.npcs| && w in st'.npcs[npc].wearing && w.0 in st'.npcs[npc].carrying
            && w.0 < |st'.items| && st'.items[w.0].id == st.items[w.0].id
    decreases |rs|
  {
    if rs != [] {
      assert rs[0] in rs;
      StaysDressed(saved, SubMeaning(saved, st, npc, rs[0]), npc, rs[1..], w);
    }
  }

  /** Each thing that is put loads one object, the last one at the front of the container, and no other object is
      touched. */
  lemma {:induction false} PutsBring(saved: Saved, st: State, box: nat, rs: seq<Reset>)
    requires box < |st.items| && forall r :: r in rs ==> IsSaved(saved, r) && r.kind == 'P'
    ensures var st', n, m := PutsMeaning(saved, st, box, rs), |st.items|, |rs|;
            && st'.npcs == st.npcs && st'.people == st.people && st'.things == st.things && |st'.items| == n + m
            && (forall k :: 0 <= k < n && k != box ==> st'.items[k] == st.items[k])
            && (forall k :: n <= k < n + m ==> st'.items[k] == ItemRec(saved.obj[rs[k - n].arg1], []))
            && st'.items[box].id == st.items[box].id && |st'.items[box].contains| == |st.items[box].contains| + m
            && (forall k :: 0 <= k < m ==> st'.items[box].contains[k] == n + m - 1 - k)
            && st'.items[box].contains[m..] == st.items[box].contains
    decreases |rs|
  {
    if rs != [] {
      assert rs[0] in rs && IsSaved(saved, rs[0]);
      var n, m, id := |st.items|, |rs|, saved.obj[rs[0].arg1];
      var mid := PutIn(LoadItem(st, id), box, n);
      PutsBring(saved, mid, box, rs[1..]);
      var st' := PutsMeaning(saved, st, box, rs);
      assert st' == PutsMeaning(saved, mid, box, rs[1..]);
      hide PutsMeaning;
      var list := st'.items[box].contains;
      assert mid.items[box].contains == [n] + st.items[box].contains;
      assert list[m - 1..] == [n] + st.items[box].contains;
      assert list[m - 1] == list[m - 1..][0] && list[m..] == list[m - 1..][1..];
      forall k | n <= k < n + m
        ensures st'.items[k] == ItemRec(saved.obj[rs[k - n].arg1], [])
      {
        if k == n {
          assert st'.items[k] == mid.items[k];
        } else {
          assert rs[1..][k - n - 1] == rs[k - n];
        }
      }
    }
  }

  /** An M tree loads one NPC and brings it into the room if there are fewer than its maximum; what is given and
      equipped below it goes to that NPC. */
  lemma {:induction false} MobTreeBrings(ix: Index, saved: Saved, st: State, t: Tree, r: Reset)
    requires WellFormed(ix, t) && TreeIsSaved(saved, t) && Known(st) && t.root.kind == 'M'
    ensures var st', h, id := TreeMeaning(ix, saved, st, t), |st.npcs|, saved.npc[t.root.arg1];
            && Known(st') && |st'.npcs| == h + 1 && st'.npcs[..h] == st.npcs && st'.npcs[h].id == id
            && st'.things == st.things
            && (st'.people == if People(st, id) < 1 || People(st, id) < t.root.arg4 then [h] + st.people else st.people)
            && (r in t.subs ==> Carried(st', h, saved.obj[r.arg1]) >= 1)
            && (r in t.subs && r.kind == 'E' ==> Wears(st', h, saved.obj[r.arg1]))
            && (r in t.subs && (forall e :: e in t.subs && e.kind == 'E' ==> saved.obj[e.arg1] != saved.obj[r.arg1]) ==>
                  Carried(st', h, saved.obj[r.arg1]) == 1)
  {
    var id, h := saved.npc[t.root.arg1], |st.npcs|;
    var mid := Enter(LoadNpc(st, id), h, id, if t.root.arg4 > 1 then t.root.arg4 else 1);
    SameNpcs(st.people, st.npcs, st.npcs + [NpcRec(id, [], [])], id);
    assert Known(mid) && mid.npcs[h] == NpcRec(id, [], []) && mid.npcs[..h] == st.npcs;
    assert Carried(mid, h, if r in t.subs then saved.obj[r.arg1] else 0) == 0;
    var st' := TreeMeaning(ix, saved, st, t);
    assert st' == SubsMeaning(saved, mid, h, t.subs);
    hide Known, Carried, SubsMeaning, TreeMeaning, Enter, People, Wears;
    SubsBring(saved, mid, h, t.subs, if r in t.subs then saved.obj[r.arg1] else 0);
    assert st'.npcs[..h] == mid.npcs[..h];
    if r in t.subs && r.kind == 'E' {
      SubsDress(saved, mid, h, t.subs, r);
    }
  }

  /** When an area resets again, an M tree whose maximum is reached brings nobody, and one without a maximum has reached
      it after its first time. */
  lemma {:induction false} SecondResetBringsNobody(ix: Index, saved: Saved, st: State, t: Tree)
    requires WellFormed(ix, t) && TreeIsSaved(saved, t) && Known(st) && t.root.kind == 'M'
    ensures var st', id := TreeMeaning(ix, saved, st, t), saved.npc[t.root.arg1];
            && Known(st') && People(st', id) >= 1
            && (t.root.arg4 <= 1 || People(st', id) >= t.root.arg4 ==>
                  TreeMeaning(ix, saved, st', t).people == st'.people)
  {
    var st', h, id := TreeMeaning(ix, saved, st, t), |st.npcs|, saved.npc[t.root.arg1];
    hide TreeMeaning, Known, Carried, Wears;
    MobTreeBrings(ix, saved, st, t, t.root);
    MobTreeBrings(ix, saved, st', t, t.root);
    assert forall k :: 0 <= k < h ==> st'.npcs[k] == st'.npcs[..h][k];
    PeopleAreIn(st);
    SameNpcs(st.people, st.npcs, st'.npcs, id);
    assert st'.people != st.people ==> st'.people[1..] == st.people;
  }

  lemma {:induction false} PeopleAreIn(st: State)
    requires Known(st)
    ensures forall k :: k in st.people ==> k < |st.npcs|
  {
  }

  /** An O tree loads one object and leaves it on the floor if there is none with its id; what is put below it goes
      into that object. */
  lemma {:induction false} ObjTreeBrings(ix: Index, saved: Saved, st: State, t: Tree, k: nat)
    requires WellFormed(ix, t) && TreeIsSaved(saved, t) && Known(st) && t.root.kind == 'O' && k < |t.subs|
    ensures var st', h, id, m := TreeMeaning(ix, saved, st, t), |st.items|, saved.obj[t.root.arg1], |t.subs|;
            && st'.npcs == st.npcs && st'.people == st.people && |st'.items| == h + 1 + m && st'.items[..h] == st.items
            && st'.items[h].id == id && |st'.items[h].contains| == m
            && (st'.things == if Things(st, id) < 1 then [h] + st.things else st.things)
            && st'.items[h].contains[k] == h + m - k
            && t.subs[k].arg1 in saved.obj && st'.items[h + 1 + k] == ItemRec(saved.obj[t.subs[k].arg1], [])
  {
    var id, h := saved.obj[t.root.arg1], |st.items|;
    var mid := Drop(LoadItem(st, id), h, id, 1);
    SameItems(st.things, st.items, st.items + [ItemRec(id, [])], id);
    assert TreeMeaning(ix, saved, st, t) == PutsMeaning(saved, mid, h, t.subs);
    assert mid.items[h] == ItemRec(id, []) && mid.items[..h] == st.items;
    hide PutsMeaning, TreeMeaning, Known, Things, Drop;
    PutsBring(saved, mid, h, t.subs);
    assert TreeMeaning(ix, saved, st, t).items[..h] == mid.items[..h];
  }

  /** Every saved number is positive and can be loaded. */
  predicate Loadable(db: Db, saved: Saved) {
    && (forall v :: v in saved.npc ==> saved.npc[v] > 0 && saved.npc[v] in db.npcs)
    && (forall v :: v in saved.obj ==> saved.obj[v] > 0 && saved.obj[v] in db.items)
  }

  lemma {:induction false} RunOfSubs(db: Db, saved: Saved, c: Run, npc: nat, rs: seq<Reset>)
    requires Loadable(db, saved) && c.lastNPC == Some(npc)
    requires forall r :: r in rs ==> IsSaved(saved, r) && (r.kind == 'G' || r.kind == 'E')
    ensures var c' := ExecAll(db, c, CommandsOf(saved, rs));
            c'.st == SubsMeaning(saved, c.st, npc, rs) && c'.lastNPC == c.lastNPC && c'.errors == c.errors
    decreases |rs|
  {
    if rs != [] {
      var cmds := CommandOf(saved, rs[0]);
      assert CommandsOf(saved, rs)[1..] == CommandsOf(saved, rs[1..]);
      RunOfSubs(db, saved, Exec(db, c, cmds[0]), npc, rs[1..]);
    }
  }

  lemma {:induction false} RunOfPuts(db: Db, saved: Saved, c: Run, container: nat, rs: seq<Reset>)
    requires Loadable(db, saved) && c.lastOBJ == Some(container)
    requires forall r :: r in rs ==> IsSaved(saved, r) && r.kind == 'P'
    ensures var c' := ExecAll(db, c, CommandsOf(saved, rs));
            c'.st == PutsMeaning(saved, c.st, container, rs) && c'.lastOBJ == c.lastOBJ && c'.errors == c.errors
    decreases |rs|
  {
    if rs != [] {
      var cmds := CommandOf(saved, rs[0]);
      assert CommandsOf(saved, rs)[1..] == CommandsOf(saved, rs[1..]);
      RunOfPuts(db, saved, Exec(db, c, cmds[0]), container, rs[1..]);
    }
  }

  /** The compiler is correct: running the script of a tree does what the tree means, in any room, and
      takes no error branch. */
  lemma ScriptMeansTree(db: Db, ix: Index, saved: Saved, st: State, t: Tree)
    requires WellFormed(ix, t) && TreeIsSaved(saved, t) && Loadable(db, saved)
    ensures var c := ExecAll(db, Run(st, None, None, 0), Parse(PrintTree(saved, t)));
            c.st == TreeMeaning(ix, saved, st, t) && c.errors == 0
  {
    hide PrintTree, Parse;
    ParseOfTree(ix, saved, t);
    var start := Run(st, None, None, 0);
    var cmds := CommandOf(saved, t.root);
    if t.root.kind == 'M' {
      var c := Exec(db, start, cmds[0]);
      assert (cmds + CommandsOf(saved, t.subs))[1..] == CommandsOf(saved, t.subs);
      RunOfSubs(db, saved, c, |st.npcs|, t.subs);
    } else if t.root.kind == 'O' {
      var c := Exec(db, start, cmds[0]);
      assert (cmds + CommandsOf(saved, t.subs))[1..] == CommandsOf(saved, t.subs);
      RunOfPuts(db, saved, c, |st.items|, t.subs);
    }
  }

  /** Prints a tree as import_commit does and resets the room with the text. */
  method PrintAndReset(ix: Index, room: Room, saved: Saved, t: Tree) returns (errors: nat)
    requires WellFormed(ix, t) && TreeIsSaved(saved, t) && Loadable(room.db, saved)
    modifies room
    ensures room.Snapshot() == TreeMeaning(ix, saved, old(room.Snapshot()), t) && errors == 0
    ensures old(Known(room.Snapshot())) ==> Comes(saved, old(room.Snapshot()), room.Snapshot(), t)
  {
    hide *;
    if Known(room.Snapshot()) {
      TreeComes(ix, saved, room.Snapshot(), t);
    }
    SavedParts(saved, t);
    ScriptMeansTree(room.db, ix, saved, room.Snapshot(), t);
    var text := FinalizeReset(saved, t.root, t.subs, "", 0);
    PrintTreeIs(saved, t, text);
    var npc, obj;
    npc, obj, errors := room.ResetRoom(text);
    assert old(Known(room.Snapshot())) ==> Comes(saved, old(room.Snapshot()), room.Snapshot(), t);
  }

  /** An M tree brings its NPC into the room exactly if fewer than its maximum are there, and an O tree leaves its
      object on the floor exactly if none is there; a room that is full stays as it is. */
  predicate Comes(saved: Saved, st: State, st': State, t: Tree)
    requires TreeIsSaved(saved, t)
  {
    if t.root.kind == 'M' then
      var n := People(st, saved.npc[t.root.arg1]);
      && st'.people == (if n < 1 || n < t.root.arg4 then [|st.npcs|] + st.people else st.people)
      && st'.things == st.things
    else if t.root.kind == 'O' then
      var n := Things(st, saved.obj[t.root.arg1]);
      && st'.things == (if n < 1 then [|st.items|] + st.things else st.things)
      && st'.people == st.people
    else st' == st
  }

  lemma {:induction false} TreeComes(ix: Index, saved: Saved, st: State, t: Tree)
    requires WellFormed(ix, t) && TreeIsSaved(saved, t) && Known(st)
    ensures Comes(saved, st, TreeMeaning(ix, saved, st, t), t)
  {
    if t.root.kind == 'M' {
      hide TreeMeaning, Known, People, Wears, Carried;
      MobTreeBrings(ix, saved, st, t, t.root);
    } else if t.root.kind == 'O' {
      var id, h := saved.obj[t.root.arg1], |st.items|;
      SameItems(st.things, st.items, st.items + [ItemRec(id, [])], id);
      PutsBring(saved, Drop(LoadItem(st, id), h, id, 1), h, t.subs);
    }
  }

  lemma SavedParts(saved: Saved, t: Tree)
    requires TreeIsSaved(saved, t)
    ensures IsSaved(saved, t.root) && forall r :: r in t.subs ==> IsSaved(saved, r)
  {
  }

  /** From the reset list to the room: whatever the lines, every imported tree can be printed and run,
      and does what it means. */
  method ImportAndReset(imp: Importer, room: Room, lines: seq<Line>, saved: Saved) returns (errors: nat)
    requires imp.resets == [] && Loadable(room.db, saved)
    requires imp.ix.npcs <= saved.npc.Keys && imp.ix.objs <= saved.obj.Keys
    modifies imp, room
    ensures AllWellFormed(imp.ix, imp.resets) && (forall t :: t in imp.resets ==> TreeIsSaved(saved, t))
    ensures InLinkOrder(imp.resets) == Accepted(imp.ix, lines, None)
    ensures room.Snapshot() == TreesMeaning(imp.ix, saved, old(room.Snapshot()), imp.resets) && errors == 0
  {
    hide TreeMeaning, Accepted, TreesMeaning;
    var ok := imp.ImportResets(true, lines);
    assert [] + Accepted(imp.ix, lines, None) == Accepted(imp.ix, lines, None);
    forall t | t in imp.resets
      ensures TreeIsSaved(saved, t)
    {
      KnownIsSaved(imp.ix, saved, t);
    }
    errors := ResetAll(imp.ix, room, saved, imp.resets);
  }

  method ResetAll(ix: Index, room: Room, saved: Saved, trees: seq<Tree>) returns (errors: nat)
    requires AllWellFormed(ix, trees) && (forall t :: t in trees ==> TreeIsSaved(saved, t)) && Loadable(room.db, saved)
    modifies room
    ensures room.Snapshot() == TreesMeaning(ix, saved, old(room.Snapshot()), trees) && errors == 0
  {
    hide TreeMeaning, WellFormed, TreeIsSaved, Loadable;
    errors := 0;
    var i := 0;
    assert trees[0..] == trees;
    while i < |trees|
      invariant 0 <= i <= |trees| && errors == 0
      invariant TreesMeaning(ix, saved, room.Snapshot(), trees[i..]) ==
                TreesMeaning(ix, saved, old(room.Snapshot()), trees)
    {
      assert trees[i..][1..] == trees[i + 1..];
      assert trees[i] in trees;
      errors := PrintAndReset(ix, room, saved, trees[i]);
      i := i + 1;
    }
  }

  function TreesMeaning(ix: Index, saved: Saved, st: State, trees: seq<Tree>): State
    requires AllWellFormed(ix, trees) && forall t :: t in trees ==> TreeIsSaved(saved, t)
    decreases |trees|
  {
    if trees == [] then st else TreesMeaning(ix, saved, TreeMeaning(ix, saved, st, trees[0]), trees[1..])
  }

  /** The trees are reset in list order. */
  lemma {:induction false} LastTree(ix: Index, saved: Saved, st: State, trees: seq<Tree>, t: Tree)
    requires AllWellFormed(ix, trees + [t]) && forall u :: u in trees + [t] ==> TreeIsSaved(saved, u)
    ensures AllWellFormed(ix, trees) && WellFormed(ix, t)
    ensures TreesMeaning(ix, saved, st, trees + [t]) == TreeMeaning(ix, saved, TreesMeaning(ix, saved, st, trees), t)
    decreases |trees|
  {
    var all := trees + [t];
    hide TreeMeaning, WellFormed, TreeIsSaved;
    assert t in all && forall u :: u in trees ==> u in all;
    if trees == [] {
      assert all == [t] && [t][1..] == [];
    } else {
      assert all[1..] == trees[1..] + [t];
      assert forall u :: u in all[1..] ==> u in all;
      LastTree(ix, saved, TreeMeaning(ix, saved, st, trees[0]), trees[1..], t);
    }
  }

  lemma KnownIsSaved(ix: Index, saved: Saved, t: Tree)
    requires WellFormed(ix, t) && ix.npcs <= saved.npc.Keys && ix.objs <= saved.obj.Keys
    ensures TreeIsSaved(saved, t)
  {
  }

  lemma PrintTreeIs(saved: Saved, t: Tree, text: string)
    requires TreeIsSaved(saved, t)
    requires text == "" + PrintReset(saved, t.root, 0) + PrintAll(saved, t.subs, 1)
    ensures text == PrintTree(saved, t)
  {
    assert "" + PrintReset(saved, t.root, 0) == PrintReset(saved, t.root, 0);
  }
}

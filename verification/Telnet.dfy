/** src/server/telnet.c: takes telnet commands (RFC 854) out of the input buffer, in place, and answers them. */
module Telnet {

  type byte = x: int | 0 <= x < 256

  const IAC: byte := 255
  const DONT: byte := 254
  const DO: byte := 253
  const WONT: byte := 252
  const WILL: byte := 251
  const SB: byte := 250
  const SE: byte := 240
  const SEND: byte := 1
  const IS: byte := 0
  const TELOPT_TTYPE: byte := 24
  const TELOPT_NAWS: byte := 31
  const TELOPT_TSPEED: byte := 32
  const QUESTION_MARK: byte := 63

  /** What of the connection the parser reads and writes; sent are the answers. */
  datatype Conn = Conn(termType: seq<byte>, scrWidth: int, scrHeight: int, sent: seq<seq<byte>>)

  /** The input buffer is zeroed and its last bytes are never filled, so four bytes at its end are NUL. */
  predicate Padded(b: seq<byte>) {
    |b| >= 4 && b[|b| - 4] == 0 && b[|b| - 3] == 0 && b[|b| - 2] == 0 && b[|b| - 1] == 0
  }

  predicate TwoNuls(b: seq<byte>, e: nat) {
    e + 1 < |b| && b[e] == 0 && b[e + 1] == 0
  }

  predicate Stops(b: seq<byte>, e: nat)
    requires e < |b|
  {
    TwoNuls(b, e) || b[e] == SE
  }

  /** Where a scan for SE or two NULs ends. */
  function ScanEnd(b: seq<byte>, i: nat): (e: nat)
    requires Padded(b) && i + 4 <= |b|
    ensures i <= e && e + 4 <= |b| && Stops(b, e)
    ensures forall k :: i <= k < e ==> !Stops(b, k)
    decreases |b| - i
  {
    if Stops(b, i) then i else assert i + 4 < |b|; ScanEnd(b, i + 1)
  }

  /** URANGE with bounds in order: the value cut to them. */
  function URANGE(a: int, b: int, c: int): int {
    if b < a then a else if b > c then (if c > a then c else a) else b
  }

  function Printable(c: byte): byte {
    if c < 0x1F then QUESTION_MARK else c
  }

  function Ascii(c: byte): byte {
    if c > 0x7F then QUESTION_MARK else c
  }

  /** The buffer after the bytes from one place up to another have been mapped. */
  function Mapped(b: seq<byte>, from: nat, to: nat, f: byte -> byte): (r: seq<byte>)
    requires from <= to <= |b|
    ensures |r| == |b|
    ensures forall k :: 0 <= k < |b| ==> r[k] == if from <= k < to then f(b[k]) else b[k]
  {
    seq(|b|, k requires 0 <= k < |b| => if from <= k < to then f(b[k]) else b[k])
  }

  // ---------------------------------------------------------------- one pass of the loop

  datatype Pass = Pass(buf: seq<byte>, next: nat, finished: bool, conn: Conn)

  function Ask(websocket: bool, conn: Conn, messages: seq<seq<byte>>): Conn {
    if websocket then conn else conn.(sent := conn.sent + messages)
  }

  const ADVERTISED: seq<seq<byte>> := [[IAC, DO, TELOPT_NAWS], [IAC, DO, TELOPT_TTYPE]]

  /** The answers to an option command. */
  function Answers(verb: byte, opt: byte): seq<seq<byte>> {
    if opt == TELOPT_TSPEED then ADVERTISED
    else if verb == WILL && opt == TELOPT_NAWS then [[IAC, DO, TELOPT_NAWS]]
    else if verb == WILL && opt == TELOPT_TTYPE then [[IAC, SB, TELOPT_TTYPE, SEND, IAC, SE]]
    else []
  }

  predicate IsVerb(c: byte) {
    c == DO || c == DONT || c == WILL || c == WONT
  }

  /** The window size that the bytes after the option are taken for. */
  function Resized(conn: Conn, bytes: seq<byte>): Conn
    requires |bytes| >= 5
  {
    conn.(scrWidth := Cells(bytes[1], bytes[2]), scrHeight := Cells(bytes[3], bytes[4]))
  }

  function Cells(low: int, high: int): int {
    URANGE(10, low + high * 16, 250)
  }

  /** A terminal type that starts at i: the name runs up to SE. */
  function TtypePass(b: seq<byte>, i: nat, conn: Conn): Pass
    requires Padded(b) && i + 4 < |b| && NamesTerminal(b, i)
  {
    var e := ScanEnd(b, i + 4);
    var cleaned := Mapped(b, i + 4, e, Printable);
    if b[e] != SE then Pass(cleaned, i, true, conn)
    else if b[e - 1] != IAC then Pass(cleaned, e + 1, false, conn)
    else
      var named := Mapped(cleaned, i + 4, e - 1, Ascii)[e - 1 := 0];
      Pass(named, e + 1, false, conn.(termType := named[i + 4..e - 1]))
  }

  /** A window size that starts at i. */
  function NawsPass(b: seq<byte>, i: nat, conn: Conn): Pass
    requires Padded(b) && i + 7 <= |b|
  {
    var e := ScanEnd(b, i + 3);
    if b[e] != SE then Pass(b, i, true, conn)
    else if b[e - 1] != IAC then Pass(b, e + 1, false, conn)
    else
      var b' := b[e - 1 := 0];
      Pass(b', e + 1, false, Resized(conn, b'[i + 3..]))
  }

  /** Any other subnegotiation that starts at i. */
  function SkipPass(b: seq<byte>, i: nat, conn: Conn): Pass
    requires Padded(b) && i + 6 <= |b|
  {
    var e := ScanEnd(b, i + 2);
    if b[e] != SE then Pass(b, i, true, conn) else Pass(b, e + 1, false, conn)
  }

  predicate NamesTerminal(b: seq<byte>, i: nat)
    requires i + 4 < |b|
  {
    b[i + 2] == TELOPT_TTYPE && b[i + 3] == IS && b[i + 4] != 0
  }

  /** A subnegotiation that starts at i. */
  function SubPass(b: seq<byte>, i: nat, conn: Conn): Pass
    requires Padded(b) && i + 4 < |b| && b[i] == IAC && b[i + 1] == SB
  {
    if NamesTerminal(b, i) then TtypePass(b, i, conn)
    else if b[i + 2] == TELOPT_NAWS then NawsPass(b, i, conn)
    else SkipPass(b, i, conn)
  }

  /** The command that starts at i. */
  function OnePass(b: seq<byte>, i: nat, conn: Conn, websocket: bool): (p: Pass)
    requires Padded(b) && i < |b| && b[i] == IAC
  {
    var verb, opt := b[i + 1], b[i + 2];
    if verb == IAC then Pass(b, i, true, conn)
    else if verb == DO || verb == DONT then
      if opt == 0 then Pass(b, i, true, conn) else Pass(b, i + 3, false, Ask(websocket, conn, Answers(verb, opt)))
    else if verb == WILL || verb == WONT then
      if opt == 0 then Pass(b, i + 3, true, conn) else Pass(b, i + 3, false, Ask(websocket, conn, Answers(verb, opt)))
    else if verb == SB then SubPass(b, i, conn)
    else if opt == 0 then Pass(b, i, true, conn)
    else Pass(b, i + 3, false, conn)
  }

  /** Whether a pass that started at i kept what it must: it finishes or goes at least three bytes on, never past
      the buffer, and leaves the bytes before the command and, unless it finishes, those after it. */
  predicate Proper(b: seq<byte>, i: nat, p: Pass) {
    && (p.finished || p.next >= i + 3)
    && (p.finished ==> p.next == i || (p.next == i + 3 && i + 2 < |b| && b[i + 2] == 0))
    && p.next < |b| == |p.buf| && Padded(p.buf) && i <= |b|
    && p.buf[..i] == b[..i]
    && (!p.finished ==> p.buf[p.next..] == b[p.next..])
  }

  /** A pass that changes bytes only between two places behind the start. */
  lemma {:induction false} ChangedInside(b: seq<byte>, i: nat, e: nat, p: Pass)
    requires Padded(b) && |p.buf| == |b| && i + 4 <= e && e + 4 <= |b|
    requires forall k :: 0 <= k < |b| && !(i + 4 <= k < e) ==> p.buf[k] == b[k]
    requires p.next == if p.finished then i else e + 1
    ensures Proper(b, i, p)
  {
  }

  lemma {:induction false} TtypeProper(b: seq<byte>, i: nat, conn: Conn)
    requires Padded(b) && i + 4 < |b| && NamesTerminal(b, i)
    ensures Proper(b, i, TtypePass(b, i, conn))
  {
    var e := ScanEnd(b, i + 4);
    hide ScanEnd, Proper, Printable, Ascii;
    ChangedInside(b, i, e, TtypePass(b, i, conn));
  }

  lemma {:induction false} NawsProper(b: seq<byte>, i: nat, conn: Conn)
    requires Padded(b) && i + 7 <= |b|
    ensures Proper(b, i, NawsPass(b, i, conn))
  {
    hide ScanEnd, Resized;
  }

  lemma {:induction false} SkipProper(b: seq<byte>, i: nat, conn: Conn)
    requires Padded(b) && i + 6 <= |b|
    ensures Proper(b, i, SkipPass(b, i, conn))
  {
    hide ScanEnd;
  }

  /** Progress on any input. */
  lemma {:induction false} PassIsProper(b: seq<byte>, i: nat, conn: Conn, websocket: bool)
    requires Padded(b) && i < |b| && b[i] == IAC
    ensures Proper(b, i, OnePass(b, i, conn, websocket))
  {
    if b[i + 1] == SB {
      if NamesTerminal(b, i) {
        TtypeProper(b, i, conn);
      } else if b[i + 2] == TELOPT_NAWS {
        NawsProper(b, i, conn);
      } else {
        SkipProper(b, i, conn);
      }
    }
    hide TtypePass, NawsPass, SkipPass, Answers, Ask;
  }

  /** The loop from i on: the buffer, where it ends, and the connection. */
  function Loop(b: seq<byte>, i: nat, conn: Conn, websocket: bool): (r: Pass)
    requires Padded(b) && i < |b|
    ensures r.finished && i <= r.next < |b| == |r.buf| && Padded(r.buf) && r.buf[..i] == b[..i]
    decreases |b| - i
  {
    if b[i] != IAC then Pass(b, i, true, conn)
    else
      var p := OnePass(b, i, conn, websocket);
      PassIsProper(b, i, conn, websocket);
      if p.finished then p else
        var r := Loop(p.buf, p.next, p.conn, websocket);
        assert r.buf[..i] == r.buf[..p.next][..i];
        r
  }

  lemma {:induction false} LoopStep(b: seq<byte>, i: nat, conn: Conn, websocket: bool)
    requires Padded(b) && i < |b| && b[i] == IAC
    ensures var p := OnePass(b, i, conn, websocket);
            && |p.buf| == |b| && Padded(p.buf) && i <= p.next < |b| && (!p.finished ==> i < p.next)
            && Loop(b, i, conn, websocket) ==
               if p.finished then p else Loop(p.buf, p.next, p.conn, websocket)
  {
    PassIsProper(b, i, conn, websocket);
    hide OnePass;
  }

  lemma {:induction false} LoopEnd(b: seq<byte>, i: nat, conn: Conn, websocket: bool)
    requires Padded(b) && i < |b|
    ensures b[i] != IAC ==> Loop(b, i, conn, websocket) == Pass(b, i, true, conn)
  {
  }

  /** strlen of what starts at i. */
  function StrLen(b: seq<byte>, i: nat): (n: nat)
    requires Padded(b) && i < |b|
    ensures i + n < |b| && b[i + n] == 0 && forall k :: i <= k < i + n ==> b[k] != 0
    decreases |b| - i
  {
    if b[i] == 0 then 0 else 1 + StrLen(b, i + 1)
  }

  /** The buffer after the text at i has been moved down to index. */
  function Moved(b: seq<byte>, index: nat, i: nat): (r: seq<byte>)
    requires Padded(b) && index <= i < |b|
    ensures |r| == |b|
  {
    var n := StrLen(b, i) + 1;
    b[..index] + b[i..i + n] + b[index + n..]
  }

  /** What the pass over a terminal type makes of it, read off the cleaned buffer. */
  ghost predicate TtypeMakes(b: seq<byte>, i: nat, conn: Conn, p: Pass)
    requires Padded(b) && i + 4 < |b| && NamesTerminal(b, i)
  {
    var e := ScanEnd(b, i + 4);
    var cleaned := Mapped(b, i + 4, e, Printable);
    && Padded(cleaned) && cleaned[e] == b[e] && cleaned[e + 1] == b[e + 1]
    && (forall k :: i + 4 <= k < e ==> cleaned[k] != 0)
    && (cleaned[e] != SE ==> p == Pass(cleaned, i, true, conn))
    && (cleaned[e] == SE && cleaned[e - 1] != IAC ==> p == Pass(cleaned, e + 1, false, conn))
    && (cleaned[e] == SE && cleaned[e - 1] == IAC ==>
          && e > i + 4
          && var named := Mapped(cleaned, i + 4, e - 1, Ascii)[e - 1 := 0];
             p == Pass(named, e + 1, false, conn.(termType := named[i + 4..e - 1])))
  }

  lemma {:induction false} TtypeCases(b: seq<byte>, i: nat, conn: Conn)
    requires Padded(b) && i + 4 < |b| && NamesTerminal(b, i)
    ensures TtypeMakes(b, i, conn, TtypePass(b, i, conn))
  {
    hide ScanEnd;
  }

  class Client {
    const websocket: bool
    var termType: seq<byte>
    var scrWidth: int
    var scrHeight: int
    var sent: seq<seq<byte>>

    function Now(): Conn
      reads this
    {
      Conn(termType, scrWidth, scrHeight, sent)
    }

    constructor (websocket: bool)
    {
      this.websocket, termType, scrWidth, scrHeight, sent := websocket, [], 0, 0, [];
    }

    /** send_telopt */
    method SendTelopt(cmd: byte, opt: byte)
      modifies this
      ensures Now() == Ask(websocket, old(Now()), [[IAC, cmd, opt]])
    {
      if websocket {
        return;
      }
      sent := sent + [[IAC, cmd, opt]];
    }

    /** send_telopt_sb */
    method SendTeloptSb(opt: byte)
      modifies this
      ensures Now() == Ask(websocket, old(Now()), [[IAC, SB, opt, SEND, IAC, SE]])
    {
      if websocket {
        return;
      }
      sent := sent + [[IAC, SB, opt, SEND, IAC, SE]];
    }

    /** advertise_telopts */
    method AdvertiseTelopts()
      modifies this
      ensures Now() == Ask(websocket, old(Now()), ADVERTISED)
    {
      SendTelopt(DO, TELOPT_NAWS);
      SendTelopt(DO, TELOPT_TTYPE);
    }

    /** The cases of process_telnet for the four option commands. */
    method OptionCommand(buf: array<byte>, start: nat) returns (next: nat, finished: bool)
      requires Padded(buf[..]) && start < buf.Length && buf[start] == IAC && IsVerb(buf[start + 1])
      modifies this
      ensures Pass(buf[..], next, finished, Now()) == OnePass(buf[..], start, old(Now()), websocket)
    {
      var i: int := start;
      finished := false;
      if buf[i + 1] == DO || buf[i + 1] == DONT {
        if buf[i + 2] == 0 {
          finished := true;
          i := i - 3;
        } else if buf[i + 2] == TELOPT_TSPEED {
          AdvertiseTelopts();
        }
        i := i + 3;
      } else {
        if buf[i + 2] == 0 {
          finished := true;
        } else if buf[i + 2] == TELOPT_TSPEED {
          AdvertiseTelopts();
        } else if buf[i + 1] == WILL && buf[i + 2] == TELOPT_NAWS {
          SendTelopt(DO, TELOPT_NAWS);
        } else if buf[i + 1] == WILL && buf[i + 2] == TELOPT_TTYPE {
          SendTeloptSb(TELOPT_TTYPE);
        }
        i := i + 3;
      }
      next := i;
    }

    /** The loops over a subnegotiation: on to SE or two NULs, replacing control characters of a terminal type. */
    method Scan(buf: array<byte>, from: nat, clean: bool) returns (e: nat)
      requires Padded(buf[..]) && from + 4 <= buf.Length
      modifies buf
      ensures e == ScanEnd(old(buf[..]), from)
      ensures buf[..] == if clean then Mapped(old(buf[..]), from, e, Printable) else old(buf[..])
    {
      e := from;
      ghost var was := buf[..];
      ghost var stop := ScanEnd(was, from);
      while !(buf[e] == 0 && buf[e + 1] == 0) && buf[e] != SE
        invariant from <= e <= stop
        invariant forall k :: 0 <= k < buf.Length ==>
          buf[k] == if clean && from <= k < e then Printable(was[k]) else was[k]
        decreases stop - e
      {
        assert !Stops(was, e);
        if clean && buf[e] < 0x1F {
          buf[e] := QUESTION_MARK;
        }
        e := e + 1;
      }
      assert Stops(was, e);
      if clean {
        assert buf[..] == Mapped(was, from, e, Printable);
      }
    }

    /** Takes the terminal type between two places; its bytes from 0x80 on are replaced. */
    method NameTerminal(buf: array<byte>, named: nat, e: nat)
      requires Padded(buf[..]) && named < e < buf.Length - 4
      requires forall k :: named <= k < e - 1 ==> buf[k] != 0
      modifies this, buf
      ensures buf[..] == Mapped(old(buf[..]), named, e - 1, Ascii)[e - 1 := 0]
      ensures Now() == old(Now()).(termType := buf[..][named..e - 1])
    {
      ghost var cleaned := buf[..];
      buf[e - 1] := 0;
      var j := named;
      while buf[j] != 0
        invariant named <= j <= e - 1 && Now() == old(Now())
        invariant buf.Length == |cleaned| && buf[e - 1] == 0
        invariant forall k :: 0 <= k < |cleaned| && k != e - 1 ==>
            buf[k] == if named <= k < j then Ascii(cleaned[k]) else cleaned[k]
        decreases e - j
      {
        if buf[j] > 0x7f {
          buf[j] := QUESTION_MARK;
        }
        j := j + 1;
      }
      assert j == e - 1;
      assert buf[..] == Mapped(cleaned, named, e - 1, Ascii)[e - 1 := 0];
      termType := buf[named..j];
    }

    /** The case of process_telnet for a terminal type. */
    method TerminalType(buf: array<byte>, start: nat) returns (next: nat, finished: bool)
      requires Padded(buf[..]) && start + 4 < buf.Length && NamesTerminal(buf[..], start)
      modifies this, buf
      ensures Pass(buf[..], next, finished, Now()) == TtypePass(old(buf[..]), start, old(Now()))
    {
      TtypeCases(buf[..], start, Now());
      hide *;
      next, finished := CleanType(buf, start, TtypePass(buf[..], start, Now()));
    }

    /** The body of that case. */
    method CleanType(buf: array<byte>, start: nat, ghost pass: Pass) returns (next: nat, finished: bool)
      requires Padded(buf[..]) && start + 4 < buf.Length && NamesTerminal(buf[..], start)
      requires TtypeMakes(buf[..], start, Now(), pass)
      modifies this, buf
      ensures Pass(buf[..], next, finished, Now()) == pass
    {
      hide ScanEnd, Mapped, Printable, Ascii;
      var i := Scan(buf, start + 4, true);
      if buf[i] == 0 && buf[i + 1] == 0 {
        return start, true;
      }
      if buf[i - 1] == IAC {
        NameTerminal(buf, start + 4, i);
      }
      return i + 1, false;
    }

    /** The case of process_telnet for a window size. */
    method WindowSize(buf: array<byte>, start: nat) returns (next: nat, finished: bool)
      requires Padded(buf[..]) && start + 7 <= buf.Length
      modifies this, buf
      ensures Pass(buf[..], next, finished, Now()) == NawsPass(old(buf[..]), start, old(Now()))
    {
      hide ScanEnd;
      var i := Scan(buf, start + 3, false);
      if buf[i] == 0 && buf[i + 1] == 0 {
        return start, true;
      }
      if buf[i - 1] == IAC {
        ghost var b' := buf[..][i - 1 := 0];
        buf[i - 1] := 0;
        assert buf[..] == b';
        var j := start + 3;
        var t1: int, t2: int := buf[j + 1], buf[j + 2];
        var x := t1 + t2 * 16;
        t1, t2 := buf[j + 3], buf[j + 4];
        var y := t1 + t2 * 16;
        scrWidth, scrHeight := URANGE(10, x, 250), URANGE(10, y, 250);
      }
      return i + 1, false;
    }

    /** The case of process_telnet for any other subnegotiation. */
    method Skip(buf: array<byte>, start: nat) returns (next: nat, finished: bool)
      requires Padded(buf[..]) && start + 6 <= buf.Length
      modifies buf
      ensures Pass(buf[..], next, finished, Now()) == SkipPass(old(buf[..]), start, old(Now()))
    {
      hide ScanEnd;
      var i := Scan(buf, start + 2, false);
      if buf[i] == SE {
        return i + 1, false;
      }
      return start, true;
    }

    /** process_telnet */
    method ProcessTelnet(buf: array<byte>, index: nat)
      requires Padded(buf[..]) && index < buf.Length
      modifies this, buf
      ensures var r := Loop(old(buf[..]), index, old(Now()), websocket);
              buf[..] == Moved(r.buf, index, r.next) && Now() == r.conn
    {
      hide OnePass, Loop, Moved, Padded;
      ghost var r := Loop(buf[..], index, Now(), websocket);
      var i, finished := index, false;
      while !finished && buf[i] == IAC
        invariant index <= i < buf.Length && Padded(buf[..])
        invariant if finished then Pass(buf[..], i, true, Now()) == r else Loop(buf[..], i, Now(), websocket) == r
        decreases !finished, buf.Length - i
      {
        ghost var b, now := buf[..], Now();
        LoopStep(b, i, now, websocket);
        i, finished := Command(buf, i);
      }
      assert !finished ==> Loop(buf[..], i, Now(), websocket) == Pass(buf[..], i, true, Now()) by {
        LoopEnd(buf[..], i, Now(), websocket);
      }
      Move(buf, index, i);
    }

    /** The switch of process_telnet. */
    method Command(buf: array<byte>, start: nat) returns (next: nat, finished: bool)
      requires Padded(buf[..]) && start < buf.Length && buf[start] == IAC
      modifies this, buf
      ensures Pass(buf[..], next, finished, Now()) == OnePass(old(buf[..]), start, old(Now()), websocket)
    {
      hide ScanEnd, TtypePass, NawsPass, SkipPass;
      var verb := buf[start + 1];
      if verb == IAC {
        return start, true;
      } else if IsVerb(verb) {
        next, finished := OptionCommand(buf, start);
      } else if verb == SB {
        if buf[start + 2] == TELOPT_TTYPE && buf[start + 3] == IS && buf[start + 4] != 0 {
          next, finished := TerminalType(buf, start);
        } else if buf[start + 2] == TELOPT_NAWS {
          next, finished := WindowSize(buf, start);
        } else {
          next, finished := Skip(buf, start);
        }
      } else if buf[start + 2] == 0 {
        return start, true;
      } else {
        return start + 3, false;
      }
    }

    /** The memmove that ends process_telnet. */
    method Move(buf: array<byte>, index: nat, i: nat)
      requires Padded(buf[..]) && index <= i < buf.Length
      modifies buf
      ensures buf[..] == Moved(old(buf[..]), index, i)
    {
      hide *;
      ghost var was := buf[..];
      ghost var n := MovedParts(was, index, i);
      var k := 0;
      var more := true;
      while more
        invariant 0 <= k <= n && buf[..] == MovedPart(was, index, i, k)
        invariant more <==> k < n
        decreases n - k
      {
        MoveOne(was, index, i, k);
        ghost var b := buf[..];
        assert buf[i + k] == b[i + k];
        more := buf[i + k] != 0;
        buf[index + k] := buf[i + k];
        assert buf[..] == b[index + k := was[i + k]];
        k := k + 1;
      }
    }
  }

  lemma {:induction false} MovedParts(b: seq<byte>, index: nat, i: nat) returns (n: nat)
    requires Padded(b) && index <= i < |b|
    ensures 1 <= n && i + n <= |b| && Moved(b, index, i) == MovedPart(b, index, i, n)
    ensures MovedPart(b, index, i, 0) == b
    ensures forall j :: i <= j < i + n ==> (b[j] == 0 <==> j == i + n - 1)
  {
    n := StrLen(b, i) + 1;
  }

  /** The buffer after k bytes have been moved down from i to index. */
  function MovedPart(b: seq<byte>, index: nat, i: nat, k: nat): (r: seq<byte>)
    requires index <= i && i + k <= |b|
    ensures |r| == |b|
  {
    b[..index] + b[i..i + k] + b[index + k..]
  }

  lemma {:induction false} MoveOne(b: seq<byte>, index: nat, i: nat, k: nat)
    requires index <= i && i + k < |b|
    ensures MovedPart(b, index, i, k)[i + k] == b[i + k]
    ensures MovedPart(b, index, i, k)[index + k := b[i + k]] == MovedPart(b, index, i, k + 1)
  {
  }

  // ---------------------------------------------------------------- complete commands

  datatype Command = Option(verb: byte, opt: byte) | Sub(option: byte, payload: seq<byte>)

  /** The command as RFC 854 has it on the wire. */
  function Wire(c: Command): seq<byte> {
    match c
    case Option(verb, opt) => [IAC, verb, opt]
    case Sub(option, payload) => [IAC, SB, option] + payload + [IAC, SE]
  }

  /** An option command has an option that is not zero; a subnegotiation has no SE and no two NULs in a row. */
  predicate Complete(c: Command) {
    match c
    case Option(verb, opt) => IsVerb(verb) && opt != 0
    case Sub(option, payload) =>
      var inner := [option] + payload;
      && (forall k :: 0 <= k < |inner| ==> inner[k] != SE)
      && (forall k :: 0 <= k < |inner| - 1 ==> inner[k] != 0 || inner[k + 1] != 0)
  }

  /** A terminal type as it is stored: what is not a printable ASCII character becomes a question mark. */
  function TermName(name: seq<byte>): (r: seq<byte>)
    ensures |r| == |name|
    ensures forall k :: 0 <= k < |name| ==>
      r[k] == if name[k] < 0x1F || name[k] > 0x7F then QUESTION_MARK else name[k]
  {
    seq(|name|, k requires 0 <= k < |name| => if name[k] < 0x1F || name[k] > 0x7F then QUESTION_MARK else name[k])
  }

  /** What a complete command does to the connection; after is what follows it in the buffer. */
  function Effect(c: Command, after: seq<byte>, conn: Conn, websocket: bool): Conn
    requires |after| >= 4
  {
    match c
    case Option(verb, opt) => Ask(websocket, conn, Answers(verb, opt))
    case Sub(option, payload) =>
      if option == TELOPT_TTYPE && payload != [] && payload[0] == IS then conn.(termType := TermName(payload[1..]))
      else if option == TELOPT_NAWS then Resized(conn, payload + [0, SE] + after)
      else conn
  }

  function WireAll(cs: seq<Command>): seq<byte> {
    if cs == [] then [] else Wire(cs[0]) + WireAll(cs[1..])
  }

  function Effects(cs: seq<Command>, after: seq<byte>, conn: Conn, websocket: bool): Conn
    requires |after| >= 4
    decreases cs
  {
    if cs == [] then conn
    else Effects(cs[1..], after, Effect(cs[0], WireAll(cs[1..]) + after, conn, websocket), websocket)
  }

  lemma {:induction false} ScanEndsAt(b: seq<byte>, from: nat, e: nat)
    requires Padded(b) && from <= e && e + 4 <= |b| && Stops(b, e)
    requires forall k :: from <= k < e ==> !Stops(b, k)
    ensures ScanEnd(b, from) == e
  {
    var e' := ScanEnd(b, from);
    assert Stops(b, e');
  }

  lemma {:induction false} SubParts(w: seq<byte>, option: byte, payload: seq<byte>, after: seq<byte>)
    requires w == [IAC, SB, option] + payload + [IAC, SE] + after
    ensures var n := |payload|;
            && |w| == n + 5 + |after| && w[0] == IAC && w[1] == SB && w[2] == option && w[3..3 + n] == payload
            && w[3 + n] == IAC && w[4 + n] == SE && w[5 + n..] == after
  {
  }

  lemma {:induction false} PartsOfRest(b: seq<byte>, i: nat, x: nat, y: nat)
    requires i <= |b| && x <= y <= |b| - i
    ensures b[i..][x..y] == b[i + x..i + y] && b[i..][y..] == b[i + y..]
  {
  }

  lemma {:induction false} PlaceInRest(b: seq<byte>, i: nat, y: nat)
    requires i + y < |b|
    ensures b[i..][y] == b[i + y]
  {
  }

  /** Where the parts of a subnegotiation that starts at i are. */
  lemma {:induction false} SubAt(b: seq<byte>, i: nat, c: Command, after: seq<byte>)
    requires c.Sub? && i <= |b| && b[i..] == Wire(c) + after
    ensures var n := |c.payload|;
            && |b| == i + n + 5 + |after|
            && b[i] == IAC && b[i + 1] == SB && b[i + 2] == c.option && b[i + 3..i + 3 + n] == c.payload
            && b[i + 3 + n] == IAC && b[i + 4 + n] == SE && b[i + 5 + n..] == after
  {
    var n := |c.payload|;
    SubParts(b[i..], c.option, c.payload, after);
    hide Wire;
    PlaceInRest(b, i, 0);
    PlaceInRest(b, i, 1);
    PlaceInRest(b, i, 2);
    PlaceInRest(b, i, 3 + n);
    PlaceInRest(b, i, 4 + n);
    assert b[i + 3..i + 3 + n] == c.payload by {
      PartsOfRest(b, i, 3, 3 + n);
    }
    assert b[i + 5 + n..] == after by {
      PartsOfRest(b, i, 5 + n, 5 + n);
    }
  }

  /** The option and the payload are where the scan goes. */
  lemma {:induction false} InnerAt(b: seq<byte>, i: nat, c: Command, after: seq<byte>, m: nat)
    requires c.Sub? && i <= |b| && b[i..] == Wire(c) + after && m <= |c.payload|
    ensures i + 4 + |c.payload| < |b| && b[i + 2 + m] == ([c.option] + c.payload)[m]
    ensures b[i + 3 + |c.payload|] == IAC
  {
    SubAt(b, i, c, after);
    hide Wire;
    if m > 0 {
      assert b[i + 3..i + 3 + |c.payload|][m - 1] == b[i + 2 + m];
    }
  }

  lemma {:induction false} NoStopInside(b: seq<byte>, i: nat, c: Command, after: seq<byte>, k: nat)
    requires c.Sub? && Complete(c) && i <= |b| && b[i..] == Wire(c) + after
    requires i + 2 <= k < i + 4 + |c.payload|
    ensures k < |b| && !Stops(b, k)
  {
    hide Wire;
    var n, m := |c.payload|, k - (i + 2);
    InnerAt(b, i, c, after, if m <= n then m else 0);
    if m < n {
      InnerAt(b, i, c, after, m + 1);
    }
  }

  lemma {:induction false} ScanOfSub(b: seq<byte>, i: nat, c: Command, after: seq<byte>, from: nat)
    requires Padded(b) && c.Sub? && Complete(c) && i <= |b| && b[i..] == Wire(c) + after && |after| >= 4
    requires i + 2 <= from <= i + 4 + |c.payload|
    ensures i + 8 + |c.payload| < |b| && ScanEnd(b, from) == i + 4 + |c.payload|
  {
    SubAt(b, i, c, after);
    forall k | from <= k < i + 4 + |c.payload|
      ensures k < |b| && !Stops(b, k)
    {
      NoStopInside(b, i, c, after, k);
    }
    ScanEndsAt(b, from, i + 4 + |c.payload|);
  }

  lemma {:induction false} TtypeNamesTerminal(b: seq<byte>, i: nat, c: Command, after: seq<byte>)
    requires Padded(b) && c.Sub? && Complete(c) && i <= |b| && b[i..] == Wire(c) + after && |after| >= 4
    requires c.option == TELOPT_TTYPE && c.payload != [] && c.payload[0] == IS
    ensures i + 4 < |b| && NamesTerminal(b, i)
  {
    SubAt(b, i, c, after);
    var n := |c.payload|;
    var p := b[i + 3..i + 3 + n];
    assert p[0] == b[i + 3];
    if n > 1 {
      assert p[1] == b[i + 4];
      var inner := [c.option] + c.payload;
      assert inner[1] == 0 && inner[2] == c.payload[1];
    }
  }

  /** A pass over a complete terminal type. */
  lemma {:induction false} PassOfTtype(b: seq<byte>, i: nat, c: Command, after: seq<byte>, conn: Conn)
    requires Padded(b) && c.Sub? && Complete(c) && i <= |b| && b[i..] == Wire(c) + after && |after| >= 4
    requires c.option == TELOPT_TTYPE && c.payload != [] && c.payload[0] == IS
    ensures i + 4 < |b| && NamesTerminal(b, i)
    ensures var p := TtypePass(b, i, conn);
            !p.finished && p.next == i + 5 + |c.payload| && p.conn == conn.(termType := TermName(c.payload[1..]))
  {
    TtypeNamesTerminal(b, i, c, after);
    SubAt(b, i, c, after);
    ScanOfSub(b, i, c, after, i + 4);
    hide ScanEnd, Complete, Wire, NamesTerminal, TtypePass;
    var e := i + 4 + |c.payload|;
    assert c.payload[1..] == b[i + 4..e - 1] by {
      assert b[i + 3..e - 1][1..] == b[i + 4..e - 1];
    }
    TtypePassUpTo(b, i, e, conn);
  }

  lemma {:induction false} TtypePassUpTo(b: seq<byte>, i: nat, e: nat, conn: Conn)
    requires Padded(b) && i + 4 < |b| && NamesTerminal(b, i)
    requires i + 5 <= e && e + 4 <= |b| && ScanEnd(b, i + 4) == e && b[e] == SE && b[e - 1] == IAC
    ensures var p := TtypePass(b, i, conn);
            !p.finished && p.next == e + 1 && p.conn == conn.(termType := TermName(b[i + 4..e - 1]))
  {
    hide ScanEnd, NamesTerminal;
    NameOf(b, i + 4, e);
  }

  lemma {:induction false} NameOf(b: seq<byte>, from: nat, e: nat)
    requires from <= e - 1 && e <= |b|
    ensures var cleaned := Mapped(b, from, e, Printable);
            Mapped(cleaned, from, e - 1, Ascii)[e - 1 := 0][from..e - 1] == TermName(b[from..e - 1])
  {
  }

  lemma {:induction false} SizeBytes(b: seq<byte>, from: nat, e: nat)
    requires from <= e && e + 2 <= |b| && b[e + 1] == SE
    ensures b[e := 0][from..] == b[from..e] + [0, SE] + b[e + 2..]
  {
  }

  /** A pass over a complete window size. */
  lemma {:induction false} PassOfNaws(b: seq<byte>, i: nat, c: Command, after: seq<byte>, conn: Conn)
    requires Padded(b) && c.Sub? && Complete(c) && i <= |b| && b[i..] == Wire(c) + after && |after| >= 4
    requires c.option == TELOPT_NAWS
    ensures i + 7 <= |b|
    ensures var p := NawsPass(b, i, conn);
            !p.finished && p.next == i + 5 + |c.payload| && p.conn == Resized(conn, c.payload + [0, SE] + after)
  {
    SubAt(b, i, c, after);
    ScanOfSub(b, i, c, after, i + 3);
    hide *;
    NawsPassUpTo(b, i, i + 4 + |c.payload|, conn);
    SizeBytes(b, i + 3, i + 3 + |c.payload|);
  }

  lemma {:induction false} NawsPassUpTo(b: seq<byte>, i: nat, e: nat, conn: Conn)
    requires Padded(b) && i + 4 <= e && e + 4 <= |b| && ScanEnd(b, i + 3) == e && b[e] == SE && b[e - 1] == IAC
    ensures var p := NawsPass(b, i, conn);
            !p.finished && p.next == e + 1 && p.conn == Resized(conn, b[e - 1 := 0][i + 3..])
  {
    hide ScanEnd, Resized;
  }

  /** A pass over any other complete subnegotiation. */
  lemma {:induction false} PassOfOther(b: seq<byte>, i: nat, c: Command, after: seq<byte>, conn: Conn)
    requires Padded(b) && c.Sub? && Complete(c) && i <= |b| && b[i..] == Wire(c) + after && |after| >= 4
    ensures i + 6 <= |b|
    ensures var p := SkipPass(b, i, conn); !p.finished && p.next == i + 5 + |c.payload| && p.conn == conn
  {
    SubAt(b, i, c, after);
    ScanOfSub(b, i, c, after, i + 2);
  }

  lemma {:induction false} NamesTerminalIff(b: seq<byte>, i: nat, c: Command, after: seq<byte>)
    requires Padded(b) && c.Sub? && i <= |b| && b[i..] == Wire(c) + after && |after| >= 4
    requires !(c.option == TELOPT_TTYPE && c.payload != [] && c.payload[0] == IS)
    ensures i + 4 < |b| && !NamesTerminal(b, i)
  {
    SubAt(b, i, c, after);
    if c.payload != [] {
      assert b[i + 3..i + 3 + |c.payload|][0] == b[i + 3];
    }
  }

  lemma {:induction false} PassOfOption(b: seq<byte>, i: nat, c: Command, after: seq<byte>, conn: Conn, websocket: bool)
    requires Padded(b) && c.Option? && Complete(c) && i <= |b| && b[i..] == Wire(c) + after
    ensures i < |b| && b[i] == IAC
    ensures var p := OnePass(b, i, conn, websocket);
            !p.finished && p.next == i + 3 && p.conn == Ask(websocket, conn, Answers(c.verb, c.opt))
  {
    var w := Wire(c) + after;
    assert w[0] == IAC && w[1] == c.verb && w[2] == c.opt;
    PlaceInRest(b, i, 0);
    PlaceInRest(b, i, 1);
    PlaceInRest(b, i, 2);
    hide SubPass, Ask, Answers;
  }

  lemma {:induction false} PassOfSub(b: seq<byte>, i: nat, c: Command, after: seq<byte>, conn: Conn, websocket: bool)
    requires Padded(b) && c.Sub? && Complete(c) && i <= |b| && b[i..] == Wire(c) + after && |after| >= 4
    ensures i + 4 < |b| && b[i] == IAC && b[i + 1] == SB
    ensures var p := SubPass(b, i, conn);
            !p.finished && p.next == i + 5 + |c.payload| && p.conn == Effect(c, after, conn, websocket)
  {
    SubAt(b, i, c, after);
    hide TtypePass, NawsPass, SkipPass, NamesTerminal, Complete, Wire;
    if c.option == TELOPT_TTYPE && c.payload != [] && c.payload[0] == IS {
      PassOfTtype(b, i, c, after, conn);
    } else {
      NamesTerminalIff(b, i, c, after);
      if c.option == TELOPT_NAWS {
        PassOfNaws(b, i, c, after, conn);
      } else {
        PassOfOther(b, i, c, after, conn);
      }
    }
  }

  /** One pass over a complete command goes right behind it, having done what the command asks for. */
  lemma {:induction false} PassOfCommand(b: seq<byte>, i: nat, c: Command, after: seq<byte>, conn: Conn,
      websocket: bool)
    requires Padded(b) && Complete(c) && i <= |b| && b[i..] == Wire(c) + after && |after| >= 4
    ensures i < |b| && b[i] == IAC
    ensures var p := OnePass(b, i, conn, websocket);
            !p.finished && p.next == i + |Wire(c)| && p.conn == Effect(c, after, conn, websocket)
  {
    if c.Option? {
      PassOfOption(b, i, c, after, conn, websocket);
    } else {
      PassOfSub(b, i, c, after, conn, websocket);
      hide SubPass, Effect;
    }
  }

  /** The loop from a complete command on is the loop from behind it on. */
  lemma {:induction false} LoopPastCommand(b: seq<byte>, i: nat, c: Command, more: seq<byte>, conn: Conn,
      websocket: bool) returns (b': seq<byte>)
    requires Padded(b) && Complete(c) && i <= |b| && b[i..] == Wire(c) + more && |more| >= 4
    ensures i < |b| && Padded(b') && i + |Wire(c)| < |b'| && b'[i + |Wire(c)|..] == more
    ensures Loop(b, i, conn, websocket) == Loop(b', i + |Wire(c)|, Effect(c, more, conn, websocket), websocket)
  {
    hide OnePass, Complete, Wire, Effect, Padded;
    PassOfCommand(b, i, c, more, conn, websocket);
    PassIsProper(b, i, conn, websocket);
    RestAfter(b, i, Wire(c), more);
    return OnePass(b, i, conn, websocket).buf;
  }

  /** The loop goes over a run of complete commands, doing what each asks for, and stops behind them. */
  lemma {:induction false} LoopOfCommands(b: seq<byte>, i: nat, cs: seq<Command>, after: seq<byte>, conn: Conn,
      websocket: bool)
    requires Padded(b) && i <= |b| && b[i..] == WireAll(cs) + after && |after| >= 4 && after[0] != IAC
    requires forall c :: c in cs ==> Complete(c)
    ensures i < |b|
    ensures var r := Loop(b, i, conn, websocket);
            && r.next == i + |WireAll(cs)| && r.buf[r.next..] == after
            && r.conn == Effects(cs, after, conn, websocket)
    decreases cs
  {
    hide *;
    if cs == [] {
      NoCommands(b, i, after, conn, websocket);
    } else {
      var more := WireAll(cs[1..]) + after;
      FirstCommand(cs, after, conn, websocket);
      assert b[i..] == Wire(cs[0]) + more;
      var b' := LoopPastCommand(b, i, cs[0], more, conn, websocket);
      LoopOfCommands(b', i + |Wire(cs[0])|, cs[1..], after, Effect(cs[0], more, conn, websocket), websocket);
    }
  }

  lemma {:induction false} NoCommands(b: seq<byte>, i: nat, after: seq<byte>, conn: Conn, websocket: bool)
    requires Padded(b) && i <= |b| && b[i..] == WireAll([]) + after && |after| >= 4 && after[0] != IAC
    ensures i < |b| && WireAll([]) == [] && Loop(b, i, conn, websocket) == Pass(b, i, true, conn) && b[i..] == after
    ensures Effects([], after, conn, websocket) == conn
  {
    PlaceInRest(b, i, 0);
  }

  lemma {:induction false} FirstCommand(cs: seq<Command>, after: seq<byte>, conn: Conn, websocket: bool)
    requires cs != [] && |after| >= 4
    ensures WireAll(cs) == Wire(cs[0]) + WireAll(cs[1..])
    ensures var more := WireAll(cs[1..]) + after;
            Effects(cs, after, conn, websocket) ==
              Effects(cs[1..], after, Effect(cs[0], more, conn, websocket), websocket)
  {
  }

  lemma {:induction false} RestAfter(b: seq<byte>, i: nat, w: seq<byte>, more: seq<byte>)
    requires i <= |b| && b[i..] == w + more
    ensures i + |w| <= |b| && b[i + |w|..] == more
  {
    PartsOfRest(b, i, |w|, |w|);
  }

  lemma {:induction false} Regrouped(pre: seq<byte>, wire: seq<byte>, text: seq<byte>, rest: seq<byte>)
    requires Padded([0] + rest)
    ensures var b := pre + wire + text + [0] + rest;
            Padded(b) && b[..|pre|] == pre && b[|pre|..] == wire + (text + [0] + rest)
  {
    var y := [0] + rest;
    assert pre + wire + text + [0] + rest == pre + (wire + (text + y));
  }

  /** Telnet stripping: complete commands in front of a text disappear, the text stays byte for byte, what came
      before stays too, and the connection has done what each command asks for, in order. */
  lemma {:induction false} StripsCommands(pre: seq<byte>, cs: seq<Command>, text: seq<byte>, rest: seq<byte>,
      conn: Conn, websocket: bool)
    requires forall c :: c in cs ==> Complete(c)
    requires 0 !in text && (text != [] ==> text[0] != IAC)
    requires Padded([0] + rest)
    ensures var b := pre + WireAll(cs) + text + [0] + rest;
            && Padded(b) && |pre| < |b|
            && var r := Loop(b, |pre|, conn, websocket);
            && r.conn == Effects(cs, text + [0] + rest, conn, websocket)
            && pre + text + [0] <= Moved(r.buf, |pre|, r.next)
  {
    var b, after := pre + WireAll(cs) + text + [0] + rest, text + [0] + rest;
    assert after[0] != IAC;
    hide WireAll, Complete, Loop, Effects, Moved;
    Regrouped(pre, WireAll(cs), text, rest);
    LoopOfCommands(b, |pre|, cs, after, conn, websocket);
    var r := Loop(b, |pre|, conn, websocket);
    MovesText(r.buf, |pre|, r.next, text, rest);
  }

  lemma {:induction false} MovesText(b: seq<byte>, index: nat, i: nat, text: seq<byte>, rest: seq<byte>)
    requires Padded(b) && index <= i < |b| && b[i..] == text + [0] + rest && 0 !in text
    ensures b[..index] + text + [0] <= Moved(b, index, i)
  {
    var n := StrLen(b, i);
    var t := text + [0] + rest;
    assert forall k :: 0 <= k < |t| ==> b[i + k] == t[k] by {
      forall k | 0 <= k < |t|
        ensures b[i + k] == t[k]
      {
        PlaceInRest(b, i, k);
      }
    }
    assert forall k :: 0 <= k < |text| ==> t[k] == text[k] && text[k] in text;
    assert b[i + |text|] == t[|text|] == 0 && b[i + n] == t[n] == 0;
    assert n == |text|;
    assert b[i..i + n + 1] == text + [0];
  }

  /** A command that the input ends in, right behind its verb, stays where it is, except WILL and WONT: their three
      bytes are skipped, and the text ends in their place. */
  lemma {:induction false} CutOffBehindVerb(pre: seq<byte>, verb: byte, rest: seq<byte>, conn: Conn, websocket: bool)
    requires Padded(pre + [IAC, verb, 0, 0] + rest)
    ensures var b := pre + [IAC, verb, 0, 0] + rest;
            var r := Loop(b, |pre|, conn, websocket);
            && r.conn == conn
            && (Moved(r.buf, |pre|, r.next) == b <==> verb != WILL && verb != WONT)
            && (verb == WILL || verb == WONT ==> Moved(r.buf, |pre|, r.next) == b[|pre| := 0])
  {
    var i, b := |pre|, pre + [IAC, verb, 0, 0] + rest;
    assert b[i] == IAC && b[i + 1] == verb && b[i + 2] == 0 && b[i + 3] == 0;
    CutOffPass(b, i, conn, websocket);
    LoopStep(b, i, conn, websocket);
    hide OnePass, Loop, Padded, StrLen, Moved;
    if verb == WILL || verb == WONT {
      MovedToNul(b, i, i + 3);
      assert b[i := 0][i] != b[i];
    } else {
      MovedNowhere(b, i);
    }
  }

  lemma {:induction false} MovedToNul(b: seq<byte>, index: nat, i: nat)
    requires Padded(b) && index <= i < |b| && b[i] == 0
    ensures Moved(b, index, i) == b[index := 0]
  {
    assert StrLen(b, i) == 0;
    assert b[i..i + 1] == [0];
  }

  lemma {:induction false} CutOffPass(b: seq<byte>, i: nat, conn: Conn, websocket: bool)
    requires Padded(b) && i + 3 < |b| && b[i] == IAC && b[i + 2] == 0 && b[i + 3] == 0
    ensures OnePass(b, i, conn, websocket) ==
            Pass(b, if b[i + 1] == WILL || b[i + 1] == WONT then i + 3 else i, true, conn)
  {
  }

  lemma {:induction false} MovedNowhere(b: seq<byte>, i: nat)
    requires Padded(b) && i < |b|
    ensures Moved(b, i, i) == b
  {
  }

  /** The window size is the one that section 2 of RFC 1073 sends exactly when its high bytes do not matter. */
  lemma {:induction false} NawsFollowsRfc(w1: byte, w0: byte, h1: byte, h0: byte, after: seq<byte>, conn: Conn)
    requires |after| >= 4
    ensures var r := Effect(Sub(TELOPT_NAWS, [w1, w0, h1, h0]), after, conn, false);
            (r.scrWidth == URANGE(10, w1 * 256 + w0, 250) && r.scrHeight == URANGE(10, h1 * 256 + h0, 250)) <==>
              (if w1 > 0 then w0 + h1 * 16 >= 250 else h1 == 0 || w0 >= 250) && (h1 == 0 || h0 >= 250)
  {
    var bytes := [w1, w0, h1, h0] + [0, SE] + after;
    assert bytes[1] == w0 && bytes[2] == h1 && bytes[3] == h0 && bytes[4] == 0;
  }

  // ---------------------------------------------------------------- commands in bytes

  lemma {:induction false} OneCommand(pre: seq<byte>, c: Command, text: seq<byte>, rest: seq<byte>, conn: Conn,
      websocket: bool)
    requires Complete(c) && 0 !in text && (text != [] ==> text[0] != IAC) && Padded([0] + rest)
    ensures var b := pre + Wire(c) + text + [0] + rest;
            && Padded(b) && |pre| < |b|
            && var r := Loop(b, |pre|, conn, websocket);
            && r.conn == Effect(c, text + [0] + rest, conn, websocket)
            && pre + text + [0] <= Moved(r.buf, |pre|, r.next)
  {
    assert |[0] + rest| >= 4;
    hide Complete, Loop, Effect, Moved, Padded, Wire;
    assert WireAll([c]) == Wire(c) + WireAll([c][1..]) == Wire(c);
    assert Effects([c], text + [0] + rest, conn, websocket) == Effect(c, text + [0] + rest, conn, websocket) by {
      assert WireAll([c][1..]) + (text + [0] + rest) == text + [0] + rest;
    }
    StripsCommands(pre, [c], text, rest, conn, websocket);
  }

  /** What is sent for a command in front of a text: DO for the window size and the terminal type when the terminal
      speed is an option of any verb, DO when the other side will send its window size, a request for the name when
      it will send its terminal type, and nothing for anything else or to a websocket. */
  lemma {:induction false} OptionIsAnswered(pre: seq<byte>, verb: byte, opt: byte, text: seq<byte>, rest: seq<byte>,
      conn: Conn, websocket: bool)
    requires 251 <= verb <= 254 && opt != 0 && 0 !in text && (text != [] ==> text[0] != 255) && Padded([0] + rest)
    ensures var b := pre + [255, verb, opt] + text + [0] + rest;
            && Padded(b) && |pre| < |b|
            && var r := Loop(b, |pre|, conn, websocket);
            && pre + text + [0] <= Moved(r.buf, |pre|, r.next)
            && r.conn == conn.(sent := conn.sent +
                 if websocket then []
                 else if opt == 32 then [[255, 253, 31], [255, 253, 24]]
                 else if verb == 251 && opt == 31 then [[255, 253, 31]]
                 else if verb == 251 && opt == 24 then [[255, 250, 24, 1, 255, 240]]
                 else [])
  {
    var c := Option(verb, opt);
    assert Complete(c) && Wire(c) == [255, verb, opt];
    hide Loop, Moved, Padded, Complete, Wire;
    OneCommand(pre, c, text, rest, conn, websocket);
    assert conn.sent + [] == conn.sent;
  }

  /** A terminal type that is sent is stored, with ? for what is not printable ASCII. */
  lemma {:induction false} TerminalTypeIsStored(pre: seq<byte>, name: seq<byte>, text: seq<byte>, rest: seq<byte>,
      conn: Conn, websocket: bool)
    requires 240 !in name && 0 !in name
    requires 0 !in text && (text != [] ==> text[0] != 255) && Padded([0] + rest)
    ensures var b := pre + ([255, 250, 24, 0] + name + [255, 240]) + text + [0] + rest;
            && Padded(b) && |pre| < |b|
            && var r := Loop(b, |pre|, conn, websocket);
            && pre + text + [0] <= Moved(r.buf, |pre|, r.next)
            && |r.conn.termType| == |name| && r.conn == conn.(termType := r.conn.termType)
            && forall k :: 0 <= k < |name| ==>
                 r.conn.termType[k] == if 31 <= name[k] <= 127 then name[k] else '?' as int
  {
    var c := Sub(24, [0] + name);
    NameIsComplete(name);
    assert Wire(c) == [255, 250, 24, 0] + name + [255, 240];
    hide Loop, Moved, Padded, Complete, Wire;
    OneCommand(pre, c, text, rest, conn, websocket);
    assert ([0] + name)[1..] == name;
  }

  lemma {:induction false} NameIsComplete(name: seq<byte>)
    requires 240 !in name && 0 !in name
    ensures Complete(Sub(24, [0] + name))
  {
    var inner := [24] + ([0] + name);
    forall k | 0 <= k < |inner|
      ensures inner[k] != SE && (k != 1 ==> inner[k] != 0)
    {
      if k >= 2 {
        assert inner[k] == name[k - 2] && name[k - 2] in name;
      }
    }
  }

  /** A window size that is sent is stored as its second byte and sixteen times its third, and as its fourth, each
      cut to 10..250. */
  lemma {:induction false} WindowSizeIsStored(pre: seq<byte>, w1: byte, w0: byte, h1: byte, h0: byte, text: seq<byte>,
      rest: seq<byte>, conn: Conn, websocket: bool)
    requires Complete(Sub(31, [w1, w0, h1, h0]))
    requires 0 !in text && (text != [] ==> text[0] != 255) && Padded([0] + rest)
    ensures var b := pre + [255, 250, 31, w1, w0, h1, h0, 255, 240] + text + [0] + rest;
            && Padded(b) && |pre| < |b|
            && var r := Loop(b, |pre|, conn, websocket);
            && pre + text + [0] <= Moved(r.buf, |pre|, r.next)
            && r.conn == conn.(scrWidth := r.conn.scrWidth, scrHeight := r.conn.scrHeight)
            && r.conn.scrWidth == (if w0 + h1 * 16 < 10 then 10 else if w0 + h1 * 16 > 250 then 250 else w0 + h1 * 16)
            && r.conn.scrHeight == (if h0 < 10 then 10 else if h0 > 250 then 250 else h0)
  {
    var c := Sub(31, [w1, w0, h1, h0]);
    assert Wire(c) == [255, 250, 31, w1, w0, h1, h0, 255, 240];
    hide Loop, Moved, Padded, Complete, Wire;
    OneCommand(pre, c, text, rest, conn, websocket);
    var bytes := [w1, w0, h1, h0] + [0, SE] + (text + [0] + rest);
    assert bytes[1] == w0 && bytes[2] == h1 && bytes[3] == h0 && bytes[4] == 0;
  }

  /** A doubled IAC ends the loop where it is, and so does an unknown command that the input ends in; an unknown
      command is otherwise three bytes that are gone over. */
  lemma {:induction false} OtherCommands(b: seq<byte>, i: nat, conn: Conn, websocket: bool)
    requires Padded(b) && i + 6 < |b| && b[i] == 255
    ensures b[i + 1] == 255 ==> Loop(b, i, conn, websocket) == Pass(b, i, true, conn)
    ensures b[i + 1] < 250 ==>
              Loop(b, i, conn, websocket) ==
                if b[i + 2] == 0 then Pass(b, i, true, conn) else Loop(b, i + 3, conn, websocket)
  {
    LoopStep(b, i, conn, websocket);
    hide Loop, Padded, SubPass, Answers, Ask;
  }

  /** A subnegotiation that the input ends in stays, whatever its option; in a terminal type control characters may
      have become question marks already. */
  lemma {:induction false} CutOffSubStays(b: seq<byte>, i: nat, e: nat, conn: Conn, websocket: bool)
    requires Padded(b) && i + 6 < |b| && b[i] == 255 && b[i + 1] == 250
    requires i + 4 <= e && e + 4 <= |b| && b[e] == 0 && b[e + 1] == 0
    requires forall k :: i + 2 <= k < e ==> b[k] != 240 && (b[k] != 0 || b[k + 1] != 0)
    ensures var r := Loop(b, i, conn, websocket);
            && r.next == i && r.conn == conn
            && forall k :: 0 <= k < |b| ==>
                 r.buf[k] == if b[i + 2] == 24 && b[i + 3] == 0 && i + 4 <= k < e && b[k] < 31 then '?' as int else b[k]
  {
    LoopStep(b, i, conn, websocket);
    ScanStops(b, i + 2, i + 2, e);
    ScanStops(b, i + 2, i + 3, e);
    ScanStops(b, i + 2, i + 4, e);
    assert b[i + 2] == 24 && b[i + 3] == 0 && e > i + 4 ==> b[i + 4] != 0;
    hide Loop, Padded, ScanEnd, Answers, Ask, Resized;
  }

  lemma {:induction false} ScanStops(b: seq<byte>, from: nat, at: nat, e: nat)
    requires Padded(b) && from <= at <= e && e + 4 <= |b| && b[e] == 0 && b[e + 1] == 0
    requires forall k :: from <= k < e ==> b[k] != 240 && (b[k] != 0 || b[k + 1] != 0)
    ensures ScanEnd(b, at) == e
  {
    assert Stops(b, e);
    ScanEndsAt(b, at, e);
  }
}

/** src/str.c: text with colour codes, which occupy characters and no columns, cut and padded to a width. */
module Layout {
  import NumberTheory

  const COLOR_CODE := '~'
  const OUT_SIZ := 2048

  datatype Align = Left | Right | Center | Indent

  /** size_t has 64 bits. */
  const SIZE_LIMIT := 0x1_0000_0000_0000_0000

  // ---------------------------------------------------------------- text with colour codes

  /** The length of the first item of a text: a character, or a code ~c or ~!c. */
  function ItemLen(s: string): nat {
    if s == "" then 0 else if s[0] != COLOR_CODE then 1 else if |s| >= 2 && s[1] == '!' then 3 else 2
  }

  /** No code is cut off at the end. */
  predicate WellFormed(s: string) {
    s == "" || (ItemLen(s) <= |s| && WellFormed(s[ItemLen(s)..]))
  }

  function Item(s: string): string {
    if s != "" && s[0] != COLOR_CODE then [s[0]] else ""
  }

  /** The characters that occupy columns. */
  function Visible(s: string): string {
    if s == "" then "" else Item(s) + if ItemLen(s) <= |s| then Visible(s[ItemLen(s)..]) else ""
  }

  lemma {:induction false} AfterItem(s: string)
    requires s != "" && ItemLen(s) <= |s|
    ensures Visible(s) == Item(s) + Visible(s[ItemLen(s)..])
    ensures WellFormed(s) <==> WellFormed(s[ItemLen(s)..])
  {
  }

  lemma {:induction false} ItemOfJoin(a: string, b: string)
    requires a != "" && ItemLen(a) <= |a|
    ensures 1 <= ItemLen(a) == ItemLen(a + b) && Item(a + b) == Item(a) && (a + b)[ItemLen(a)..] == a[ItemLen(a)..] + b
  {
  }

  lemma {:induction false} ItemFits(a: string)
    requires WellFormed(a) && a != ""
    ensures ItemLen(a) <= |a|
  {
  }

  lemma {:induction false} EmptyText()
    ensures Visible("") == "" && WellFormed("")
  {
  }

  lemma {:induction false} VisibleJoin(a: string, b: string)
    requires WellFormed(a)
    ensures Visible(a + b) == Visible(a) + Visible(b)
    ensures WellFormed(a + b) <==> WellFormed(b)
  {
    hide *;
    if a == "" {
      EmptyText();
      assert a + b == b;
    } else {
      ItemFits(a);
      ItemOfJoin(a, b);
      AfterItem(a);
      AfterItem(a + b);
      VisibleJoin(a[ItemLen(a)..], b);
    }
  }

  lemma {:induction false} VisibleFits(s: string)
    ensures |Visible(s)| <= |s|
  {
    if s != "" && ItemLen(s) <= |s| {
      VisibleFits(s[ItemLen(s)..]);
    }
  }

  /** The item that starts at i, for the loops below. */
  function ItemAt(s: string, i: nat): (n: nat)
    requires i < |s|
    ensures n == ItemLen(s[i..])
  {
    if s[i] != COLOR_CODE then 1 else if i + 1 < |s| && s[i + 1] == '!' then 3 else 2
  }

  lemma {:induction false} VisibleAt(s: string, i: nat)
    requires i < |s|
    ensures Visible(s[i..]) == (if s[i] != COLOR_CODE then [s[i]] else "")
                               + if i + ItemAt(s, i) <= |s| then Visible(s[i + ItemAt(s, i)..]) else ""
    ensures WellFormed(s[i..]) <==> i + ItemAt(s, i) <= |s| && WellFormed(s[i + ItemAt(s, i)..])
  {
    if i + ItemAt(s, i) <= |s| {
      assert s[i..][ItemAt(s, i)..] == s[i + ItemAt(s, i)..];
    }
  }

  /** strip_color */
  method StripColor(str: string) returns (out: string)
    ensures out == Visible(str)
  {
    hide Visible;
    out := "";
    var i := 0;
    assert str[0..] == str;
    while i < |str|
      invariant 0 <= i && (i <= |str| ==> out + Visible(str[i..]) == Visible(str))
      invariant i > |str| ==> out == Visible(str)
      decreases |str| - i
    {
      VisibleAt(str, i);
      if str[i] != COLOR_CODE {
        out := out + [str[i]];
        i := i + 1;
        continue;
      }
      i := i + 1;
      if i == |str| {
        return;
      }
      if str[i] == '!' {
        i := i + 1;
        if i == |str| {
          return;
        }
      }
      i := i + 1;
    }
    EmptyText();
    assert i == |str| ==> str[i..] == "";
  }

  /** strlen_color */
  method StrlenColor(str: string) returns (count: nat)
    ensures count == |Visible(str)|
  {
    hide Visible;
    count := 0;
    var i := 0;
    assert str[0..] == str;
    while i < |str|
      invariant 0 <= i <= |str| && count + |Visible(str[i..])| == |Visible(str)|
    {
      VisibleAt(str, i);
      if str[i] != COLOR_CODE {
        count := count + 1;
        i := i + 1;
        continue;
      }
      i := i + 1;
      if i == |str| {
        return;
      }
      if str[i] == '!' {
        i := i + 1;
        if i == |str| {
          return;
        }
      }
      i := i + 1;
    }
    EmptyText();
    assert str[i..] == "";
  }

  /** Where strpos cuts: right behind the visible character that fills the width. */
  function Cut(s: string, width: int): (n: nat)
    requires WellFormed(s)
    ensures n <= |s|
    decreases |s|
  {
    if s == "" then 0
    else if s[0] != COLOR_CODE then if width <= 1 then 1 else 1 + Cut(s[1..], width - 1)
    else ItemLen(s) + Cut(s[ItemLen(s)..], width)
  }

  lemma {:induction false} CutAt(s: string, i: nat, width: int)
    requires i < |s| && WellFormed(s[i..])
    ensures i + ItemAt(s, i) <= |s| && WellFormed(s[i + ItemAt(s, i)..])
    ensures Cut(s[i..], width) ==
            if s[i] == COLOR_CODE then ItemAt(s, i) + Cut(s[i + ItemAt(s, i)..], width)
            else if width <= 1 then 1 else 1 + Cut(s[i + 1..], width - 1)
  {
    assert s[i..][ItemAt(s, i)..] == s[i + ItemAt(s, i)..];
  }

  /** strpos */
  method Strpos(str: string, width: int) returns (pos: nat)
    requires WellFormed(str)
    ensures pos == Cut(str, width)
  {
    hide Cut, WellFormed;
    var i, count := 0, 0;
    assert str[0..] == str;
    while i < |str|
      invariant 0 <= i <= |str| && WellFormed(str[i..]) && Cut(str, width) == i + Cut(str[i..], width - count)
    {
      CutAt(str, i, width - count);
      if str[i] != COLOR_CODE {
        count := count + 1;
        if count >= width {
          return i + 1;
        }
        i := i + 1;
        continue;
      }
      i := i + 1;
      if str[i] == '!' {
        i := i + 1;
      }
      i := i + 1;
    }
    CutEnd(width - count);
    assert str[i..] == "";
    return i;
  }

  lemma {:induction false} CutEnd(width: int)
    ensures WellFormed("") && Cut("", width) == 0
  {
  }

  lemma {:induction false} FirstItem(s: string)
    requires WellFormed(s) && s != ""
    ensures WellFormed(s[..ItemLen(s)]) && Visible(s[..ItemLen(s)]) == Item(s)
    ensures WellFormed(s[ItemLen(s)..]) && Visible(s) == Item(s) + Visible(s[ItemLen(s)..])
  {
    var head := s[..ItemLen(s)];
    assert ItemLen(head) == ItemLen(s) && Item(head) == Item(s) && head[ItemLen(s)..] == "";
  }

  function Min(a: int, b: int): int {
    if a < b then a else b
  }

  lemma {:induction false} CutStep(s: string, width: nat)
    requires WellFormed(s) && s != "" && width >= 1
    ensures |Item(s)| == (if s[0] != COLOR_CODE then 1 else 0) && 1 <= ItemLen(s) <= |s| && WellFormed(s[ItemLen(s)..])
    ensures Cut(s, width) == if s[0] != COLOR_CODE && width == 1 then ItemLen(s)
                             else ItemLen(s) + Cut(s[ItemLen(s)..], width - |Item(s)|)
  {
  }

  /** Cutting keeps as many visible characters as fit, and no half code. */
  lemma {:induction false} CutKeeps(s: string, width: nat)
    requires WellFormed(s) && width >= 1
    ensures WellFormed(s[..Cut(s, width)])
    ensures Visible(s[..Cut(s, width)]) == Visible(s)[..Min(width, |Visible(s)|)]
    decreases |s|
  {
    if s == "" {
      assert s[..0] == "";
    } else if s[0] != COLOR_CODE && width == 1 {
      CutKeepsOne(s);
    } else {
      CutStep(s, width);
      CutKeeps(s[ItemLen(s)..], width - |Item(s)|);
      CutKeepsNext(s, width, s[ItemLen(s)..], width - |Item(s)|);
    }
  }

  lemma {:induction false} CutKeepsOne(s: string)
    requires WellFormed(s) && s != "" && s[0] != COLOR_CODE
    ensures WellFormed(s[..Cut(s, 1)])
    ensures Visible(s[..Cut(s, 1)]) == Visible(s)[..Min(1, |Visible(s)|)]
  {
    hide Visible, WellFormed, Cut, ItemLen;
    FirstItem(s);
    CutStep(s, 1);
    OneKept(Item(s), Visible(s[ItemLen(s)..]));
  }

  lemma {:induction false} CutKeepsNext(s: string, width: nat, tail: string, rest: nat)
    requires WellFormed(s) && s != "" && width >= 1 && (s[0] == COLOR_CODE || width > 1)
    requires ItemLen(s) <= |s| && tail == s[ItemLen(s)..] && rest == width - |Item(s)|
    requires WellFormed(tail) && WellFormed(tail[..Cut(tail, rest)])
    requires Visible(tail[..Cut(tail, rest)]) == Visible(tail)[..Min(rest, |Visible(tail)|)]
    ensures WellFormed(s[..Cut(s, width)])
    ensures Visible(s[..Cut(s, width)]) == Visible(s)[..Min(width, |Visible(s)|)]
  {
    hide Visible, WellFormed, Cut, Item, ItemLen;
    FirstItem(s);
    CutStep(s, width);
    CutFurther(s, ItemLen(s), Cut(tail, rest));
    PrefixOfJoin(Item(s), Visible(tail), width);
  }

  lemma {:induction false} OneKept(a: string, b: string)
    requires |a| == 1
    ensures (a + b)[..Min(1, |a + b|)] == a
  {
  }

  lemma {:induction false} PrefixOfJoin(a: string, b: string, width: nat)
    requires |a| <= width
    ensures (a + b)[..Min(width, |a + b|)] == a + b[..Min(width - |a|, |b|)]
  {
  }

  lemma {:induction false} CutFurther(s: string, n: nat, k: nat)
    requires n + k <= |s| && WellFormed(s[..n]) && WellFormed(s[n..][..k])
    ensures WellFormed(s[..n + k]) && Visible(s[..n + k]) == Visible(s[..n]) + Visible(s[n..][..k])
  {
    assert s[..n + k] == s[..n] + s[n..][..k];
    VisibleJoin(s[..n], s[n..][..k]);
  }

  /** n characters end with the character that is the width-th to occupy a column. */
  predicate EndsBehind(s: string, width: nat, n: nat) {
    0 < n <= |s| && WellFormed(s[..n - 1]) && |Visible(s[..n - 1])| == width - 1 && s[n - 1] != '~'
  }

  /** The cut is right behind the character that fills the width, before any code that follows it; a text that does
      not fill the width is kept whole. */
  lemma {:induction false} CutIsBehind(s: string, width: nat)
    requires WellFormed(s) && width >= 1
    ensures |Visible(s)| < width ==> Cut(s, width) == |s|
    ensures |Visible(s)| >= width ==> EndsBehind(s, width, Cut(s, width))
    decreases |s|
  {
    hide Visible, WellFormed, Cut, Item, ItemLen, EndsBehind;
    if s == "" {
      EmptyText();
      CutEnd(width);
    } else if s[0] != COLOR_CODE && width == 1 {
      EndsBehindOne(s);
    } else {
      CutStep(s, width);
      FirstItem(s);
      var m, rest := ItemLen(s), width - |Item(s)|;
      CutIsBehind(s[m..], rest);
      if |Visible(s)| >= width {
        EndsBehindNext(s, m, rest, Cut(s[m..], rest));
      }
    }
    assert |Visible(s)| < width ==> Cut(s, width) == |s|;
    assert |Visible(s)| >= width ==> EndsBehind(s, width, Cut(s, width));
  }

  lemma {:induction false} EndsBehindOne(s: string)
    requires WellFormed(s) && s != "" && s[0] != COLOR_CODE
    ensures |Visible(s)| >= 1 && EndsBehind(s, 1, Cut(s, 1))
  {
    hide Visible, WellFormed, Cut;
    EmptyText();
    FirstItem(s);
    CutStep(s, 1);
    assert s[..0] == "";
  }

  lemma {:induction false} EndsBehindNext(s: string, m: nat, rest: nat, k: nat)
    requires WellFormed(s) && s != "" && m == ItemLen(s) <= |s| && EndsBehind(s[m..], rest, k)
    ensures EndsBehind(s, |Item(s)| + rest, m + k)
  {
    hide Visible, WellFormed, Item, ItemLen;
    FirstItem(s);
    CutFurther(s, m, k - 1);
    assert s[m..][k - 1] == s[m + k - 1];
  }

  // ---------------------------------------------------------------- what is printed

  /** A code that ends in ~ prints one. */
  function Tilde(s: string): nat {
    if s != "" && s[0] == COLOR_CODE && ItemLen(s) <= |s| && s[ItemLen(s) - 1] == COLOR_CODE then 1 else 0
  }

  /** How many codes of a text end in ~. */
  function Tildes(s: string): nat {
    if s == "" then 0 else Tilde(s) + if ItemLen(s) <= |s| then Tildes(s[ItemLen(s)..]) else 0
  }

  /** The text on a screen without colours. */
  function Printed(s: string): string {
    if s == "" then ""
    else
      var item := Item(s) + if Tilde(s) == 1 then [COLOR_CODE] else "";
      item + if ItemLen(s) <= |s| then Printed(s[ItemLen(s)..]) else ""
  }

  lemma {:induction false} PrintedAt(s: string, i: nat)
    requires i < |s|
    ensures Printed(s[i..]) == (if s[i] != COLOR_CODE then [s[i]] else "")
                               + (if Tilde(s[i..]) == 1 then [COLOR_CODE] else "")
                               + if i + ItemAt(s, i) <= |s| then Printed(s[i + ItemAt(s, i)..]) else ""
    ensures Tilde(s[i..]) == if s[i] == COLOR_CODE && i + ItemAt(s, i) <= |s| && s[i + ItemAt(s, i) - 1] == COLOR_CODE
                             then 1 else 0
  {
    var t, n := s[i..], ItemAt(s, i);
    assert t[0] == s[i];
    var item := Item(t) + if Tilde(t) == 1 then [COLOR_CODE] else "";
    assert Printed(t) == item + if n <= |t| then Printed(t[n..]) else "";
    hide Printed;
    if n <= |t| {
      assert t[n..] == s[i + n..] && t[n - 1] == s[i + n - 1];
    }
  }

  /** parse_color_codes without colours: the output goes out in pieces. */
  method ParseColorCodes(outbuf: string) returns (sent: string)
    ensures sent == Printed(outbuf)
  {
    hide Printed, Tilde;
    sent := "";
    var output, i := "", 0;
    assert outbuf[0..] == outbuf;
    while i < |outbuf|
      invariant 0 <= i && (i <= |outbuf| ==> sent + output + Printed(outbuf[i..]) == Printed(outbuf))
      invariant i > |outbuf| ==> sent + output == Printed(outbuf)
      decreases |outbuf| - i
    {
      if |output| >= OUT_SIZ - 32 {
        sent := sent + output;
        output := "";
      }
      PrintedAt(outbuf, i);
      if outbuf[i] != COLOR_CODE {
        output := output + [outbuf[i]];
      } else {
        i := i + 1;
        if i < |outbuf| && outbuf[i] == '!' {
          i := i + 1;
        }
        if i < |outbuf| && outbuf[i] == COLOR_CODE {
          output := output + [COLOR_CODE];
        }
      }
      i := i + 1;
    }
    sent := sent + output;
    PrintedLength("");
    assert i == |outbuf| ==> outbuf[i..] == "";
  }

  /** The printed text has the characters that strlen_color counts and one for each code that ends in ~. */
  lemma {:induction false} PrintedLength(s: string)
    ensures |Printed(s)| == |Visible(s)| + Tildes(s)
    ensures Tildes(s) == 0 ==> Printed(s) == Visible(s)
  {
    if s != "" && ItemLen(s) <= |s| {
      var tail := s[ItemLen(s)..];
      PrintedLength(tail);
      assert Printed(s) == Item(s) + (if Tilde(s) == 1 then [COLOR_CODE] else "") + Printed(tail);
      assert Visible(s) == Item(s) + Visible(tail) && Tildes(s) == Tilde(s) + Tildes(tail);
      assert Tilde(s) == 0 ==> Item(s) + "" == Item(s);
      hide Printed, Visible, Tildes;
    }
  }

  /** What each kind of character or code shows: a character itself, a code nothing, ~~ and ~!~ print a ~, and half a
      code at the end is dropped. */
  lemma {:induction false} WhatIsShown(c: char, s: string)
    ensures c != '~' ==> Visible([c] + s) == [c] + Visible(s) && Printed([c] + s) == [c] + Printed(s)
    ensures c != '!' ==> Visible(['~', c] + s) == Visible(s)
    ensures c != '!' ==> Printed(['~', c] + s) == (if c == '~' then "~" else "") + Printed(s)
    ensures Visible(['~', '!', c] + s) == Visible(s)
    ensures Printed(['~', '!', c] + s) == (if c == '~' then "~" else "") + Printed(s)
    ensures Visible("") == Visible("~") == Visible("~!") == ""
    ensures Printed("") == Printed("~") == Printed("~!") == ""
  {
    var one, code, bold := [c] + s, ['~', c] + s, ['~', '!', c] + s;
    assert one[1..] == s && code[2..] == s && bold[3..] == s;
    assert c == '~' ==> Tilde(code) == 1 && Tilde(bold) == 1;
    assert c != '~' ==> Tilde(bold) == 0 && (c != '!' ==> Tilde(code) == 0);
    assert "" + Visible(s) == Visible(s);
    assert "" + Printed(s) == Printed(s);
    assert Item(code) + "~" == "~";
  }

  /** A code starts at index c, behind whole items, and its last character is ~. */
  predicate TildeAt(s: string, c: int) {
    0 <= c < |s| && s[c] == COLOR_CODE && c + ItemAt(s, c) <= |s| && s[c + ItemAt(s, c) - 1] == COLOR_CODE
      && WellFormed(s[..c])
  }

  /** A text is printed as strlen_color counts it if and only if none of its codes ends in ~. */
  lemma {:induction false} CountedExactly(s: string)
    ensures |Printed(s)| == |Visible(s)| <==> forall c :: !TildeAt(s, c)
    ensures Printed(s) == Visible(s) <==> |Printed(s)| == |Visible(s)|
  {
    PrintedLength(s);
    TildesAreCodes(s);
  }

  lemma {:induction false} TildesAreCodes(s: string)
    ensures Tildes(s) > 0 <==> exists c :: TildeAt(s, c)
  {
    if s != "" {
      TildeAtStart(s);
      var n := ItemLen(s);
      if n <= |s| {
        TildesAreCodes(s[n..]);
        if c :| TildeAt(s[n..], c) {
          TildeFurther(s, c);
        }
        assert Tildes(s) == Tilde(s) + Tildes(s[n..]);
        if c :| TildeAt(s, c) {
          if c >= n {
            TildeFurther(s, c - n);
          } else if c > 0 {
            NoTildeInside(s, c);
          }
        }
      } else if c :| TildeAt(s, c) {
        if c > 0 {
          NoTildeInside(s, c);
        }
      }
    }
  }

  lemma {:induction false} TildeAtStart(s: string)
    requires s != ""
    ensures TildeAt(s, 0) <==> Tilde(s) == 1
  {
    assert s[..0] == "";
    assert s[0..] == s;
  }

  lemma {:induction false} NoTildeInside(s: string, c: nat)
    requires s != "" && 0 < c < |s| && c < ItemLen(s)
    ensures !TildeAt(s, c)
  {
    var head := s[..c];
    assert head != "" && head[0] == s[0];
    assert |s| >= 2 && c >= 2 ==> head[1] == s[1];
  }

  lemma {:induction false} TildeFurther(s: string, c: nat)
    requires s != "" && ItemLen(s) <= |s| && c < |s| - ItemLen(s)
    ensures TildeAt(s, ItemLen(s) + c) <==> TildeAt(s[ItemLen(s)..], c)
  {
    var n := ItemLen(s);
    assert s[..n + c] == s[..n] + s[n..][..c];
    ItemIsWellFormed(s);
    VisibleJoin(s[..n], s[n..][..c]);
    assert s[n..][c] == s[n + c] && s[n..][c..] == s[n + c..];
    hide Visible;
  }

  lemma {:induction false} ItemIsWellFormed(s: string)
    requires s != "" && ItemLen(s) <= |s|
    ensures WellFormed(s[..ItemLen(s)])
  {
    var head := s[..ItemLen(s)];
    assert ItemLen(head) == ItemLen(s) && head[ItemLen(s)..] == "";
  }

  /** Both codes print a character that strlen_color does not count. */
  lemma {:induction false} TildeIsNotCounted()
    ensures Visible("~~") == Visible("~!~") == "" && Printed("~~") == Printed("~!~") == "~"
  {
    assert "~~"[2..] == "" && "~!~"[3..] == "";
  }

  lemma {:induction false} TildesJoin(a: string, b: string)
    requires WellFormed(a)
    ensures Tildes(a + b) == Tildes(a) + Tildes(b)
  {
    if a == "" {
      assert a + b == b;
    } else {
      ItemFits(a);
      ItemOfJoin(a, b);
      assert (a + b)[ItemLen(a) - 1] == a[ItemLen(a) - 1];
      TildesJoin(a[ItemLen(a)..], b);
    }
  }

  /** Cut text has no codes that end in ~ if the text has none. */
  lemma {:induction false} TildesOfCut(s: string, width: nat)
    requires WellFormed(s)
    ensures Tildes(s[..Cut(s, width)]) <= Tildes(s)
  {
    hide Cut, Tildes, Visible, WellFormed, Kept;
    KeptText(s, width);
    var n := Cut(s, width);
    assert s == s[..n] + s[n..];
    TildesJoin(s[..n], s[n..]);
    assert Tildes(s[..n]) <= Tildes(s);
  }

  // ---------------------------------------------------------------- fill_str_len

  /** What can be used to fill: nothing, or something that occupies columns. */
  predicate Fills(src: string) {
    src == "" || (WellFormed(src) && Visible(src) != "")
  }

  function Repeat(src: string, k: nat): string {
    if k == 0 then "" else Repeat(src, k - 1) + src
  }

  function Filled(src: string, len: nat): string
    requires Fills(src)
  {
    if src == "" || len == 0 then ""
    else
      var cz := |Visible(src)|;
      Repeat(src, len / cz) + if len % cz == 0 then "" else src[..Cut(src, len % cz)]
  }

  /** fill_str_len */
  method FillStrLen(src: string, length: nat) returns (result: string)
    requires Fills(src)
    ensures result == Filled(src, length)
  {
    if src == "" || length == 0 {
      return "";
    }
    var cz := StrlenColor(src);
    DivMod(length, cz);
    var mod := length % cz;
    var len := length / cz;
    assert Filled(src, length) == Repeat(src, len) + if mod == 0 then "" else src[..Cut(src, mod)];
    hide WellFormed, Visible, Cut, Filled, Repeat;
    result := Copies(src, len);
    var rest := FillRest(src, mod);
    result := result + rest;
  }

  /** The first loop of fill_str_len: whole copies of the fill. */
  method Copies(src: string, len: nat) returns (result: string)
    ensures result == Repeat(src, len)
  {
    result := "";
    for c := 0 to len
      invariant result == Repeat(src, c)
    {
      result := result + src;
    }
  }

  /** The second loop of fill_str_len: the part of the fill that is still missing. */
  method FillRest(src: string, mod: nat) returns (rest: string)
    requires WellFormed(src)
    ensures rest == if mod == 0 then "" else src[..Cut(src, mod)]
  {
    hide Cut, WellFormed, Visible;
    rest := "";
    var c, count := 0, 0;
    assert src[0..] == src;
    while c < |src| && count < mod
      invariant 0 <= c <= |src| && count <= mod && rest == src[..c]
      invariant WellFormed(src[c..])
      invariant count < mod ==> Cut(src, mod) == c + Cut(src[c..], mod - count)
      invariant 0 < mod == count ==> Cut(src, mod) == c
      invariant mod == 0 ==> c == 0
    {
      CutAt(src, c, mod - count);
      if src[c] == COLOR_CODE {
        rest := rest + [src[c]];
        c := c + 1;
        if src[c] == '!' {
          rest := rest + [src[c]];
          c := c + 1;
        }
        rest := rest + [src[c]];
      } else {
        rest := rest + [src[c]];
        count := count + 1;
      }
      c := c + 1;
    }
    CutEnd(mod - count);
    assert c == |src| ==> src[c..] == "";
  }

  /** A pattern over and over, for a number of columns. */
  function Pattern(v: string, n: nat): (s: string)
    requires v != ""
    ensures |s| == n && forall t :: 0 <= t < n ==> s[t] == v[t % |v|]
  {
    seq(n, t requires 0 <= t < n => v[t % |v|])
  }

  /** The pattern goes on: n columns are a whole number of patterns. */
  lemma {:induction false} PatternFurther(v: string, a: nat, n: nat, m: nat)
    requires v != "" && m <= |v| && n == |v| * a
    ensures Pattern(v, n + m) == Pattern(v, n) + v[..m]
  {
    var r := Pattern(v, n + m);
    forall t | 0 <= t < m
      ensures r[n + t] == v[t]
    {
      NumberTheory.QuotientIsUnique(n + t, |v|, a, t);
    }
    assert r[n..] == v[..m];
    assert r[..n] == Pattern(v, n);
  }

  lemma {:induction false} OneMore(cz: nat, k: nat)
    requires k > 0
    ensures cz * (k - 1) + cz == cz * k
  {
  }

  lemma {:induction false} RepeatVisible(src: string, k: nat, n: nat)
    requires WellFormed(src) && Visible(src) != "" && n == |Visible(src)| * k
    ensures WellFormed(Repeat(src, k)) && Visible(Repeat(src, k)) == Pattern(Visible(src), n)
  {
    var cz := |Visible(src)|;
    if k > 0 {
      OneMore(cz, k);
      RepeatVisible(src, k - 1, n - cz);
      VisibleJoin(Repeat(src, k - 1), src);
      hide Visible, WellFormed;
      PatternFurther(Visible(src), k - 1, n - cz, cz);
      assert Visible(src)[..cz] == Visible(src);
    }
  }

  lemma {:induction false} DivMod(len: nat, cz: nat)
    requires cz > 0
    ensures 0 <= len % cz < cz && len / cz >= 0 && len - len % cz == cz * (len / cz)
  {
  }

  /** The fill occupies exactly the columns asked for. */
  lemma {:induction false} FilledVisible(src: string, len: nat)
    requires src != "" && Fills(src)
    ensures WellFormed(Filled(src, len)) && Visible(Filled(src, len)) == Pattern(Visible(src), len)
  {
    if len > 0 {
      var v, cz := Visible(src), |Visible(src)|;
      var k, m := len / cz, len % cz;
      var n := len - m;
      DivMod(len, cz);
      assert Filled(src, len) == Repeat(src, k) + if m == 0 then "" else src[..Cut(src, m)];
      hide Visible, WellFormed, Cut, Filled, Pattern;
      RepeatVisible(src, k, n);
      if m == 0 {
        assert Repeat(src, k) + "" == Repeat(src, k);
      } else {
        CutKeeps(src, m);
        VisibleJoin(Repeat(src, k), src[..Cut(src, m)]);
        PatternFurther(v, k, n, m);
      }
    }
  }

  // ---------------------------------------------------------------- align_string

  function SizeT(n: int): nat {
    n % SIZE_LIMIT
  }

  /** The columns filled on the left: for RIGHT the difference is taken after the text's length has been
      incremented, and it wraps around when the text is as wide as the field. */
  function LeftFill(align: Align, width: nat, sz: nat): nat {
    match align
    case Left => 0
    case Right => SizeT(width - Min(sz, width) - 1)
    case Center => (width - Min(sz, width)) / 2
    case Indent => 8
  }

  function RightFill(align: Align, width: nat, sz: nat): nat {
    width - Min(SizeT(LeftFill(align, width, sz) + sz), width)
  }

  function FillOr(fill: string): (f: string)
    requires Fills(fill)
    ensures f != "" && Fills(f)
  {
    if fill == "" then
      assert ItemLen(" ") == 1 && " "[1..] == "";
      " "
    else fill
  }

  function Aligned(align: Align, width: nat, color: string, fill: string, str: string): string
    requires WellFormed(str) && Fills(fill)
  {
    if str == "" then ""
    else
      var sz := |Visible(str)|;
      color + Filled(FillOr(fill), LeftFill(align, width, sz)) + str[..Cut(str, width)]
        + Filled(FillOr(fill), RightFill(align, width, sz)) + "~x"
  }

  /** align_string; no color and no fill are empty strings. */
  method AlignString(align: Align, width: nat, color: string, fill: string, str: string) returns (result: string)
    requires WellFormed(str) && Fills(fill)
    ensures result == Aligned(align, width, color, fill, str)
  {
    hide Visible, WellFormed, Filled, Cut, Fills, Pattern;
    if str == "" {
      return "";
    }
    var f := fill;
    if f == "" {
      f := FillOr(fill);
    }
    assert f == FillOr(fill);
    var sz := StrlenColor(str);
    var nCount, cnt := Min(sz, width), 0;
    result := color;
    var part;
    match align {
      case Right =>
        nCount := nCount + 1;
        cnt := SizeT(width - nCount);
        part := FillStrLen(f, SizeT(width - nCount));
        result := result + part;
      case Center =>
        nCount := (width - nCount) / 2;
        cnt := nCount;
        part := FillStrLen(f, nCount);
        result := result + part;
      case Indent =>
        nCount := 8;
        cnt := nCount;
        part := FillStrLen(f, nCount);
        result := result + part;
      case Left =>
        NoFill(f);
        assert result + "" == result;
    }
    var pos := Strpos(str, width);
    result := result + str[..pos];
    cnt := Min(SizeT(cnt + sz), width);
    part := FillStrLen(f, width - cnt);
    result := result + part;
    result := result + "~x";
  }

  lemma {:induction false} NoFill(f: string)
    requires Fills(f)
    ensures Filled(f, 0) == ""
  {
  }

  /** A colour prints nothing. */
  predicate IsColor(color: string) {
    WellFormed(color) && Visible(color) == "" && Tildes(color) == 0
  }

  /** How much of the text is kept: strpos lets one character through even when the width is zero. */
  function Kept(width: nat, sz: nat): nat {
    Min(if width == 0 then 1 else width, sz)
  }

  lemma {:induction false} ResetIsColor()
    ensures IsColor("~x")
  {
    assert ItemLen("~x") == 2 && "~x"[2..] == "";
    assert Tilde("~x") == 0;
  }

  lemma {:induction false} CutToNothing(s: string)
    requires WellFormed(s)
    ensures Cut(s, 0) == Cut(s, 1)
    decreases |s|
  {
    if s != "" && s[0] == COLOR_CODE {
      CutToNothing(s[ItemLen(s)..]);
    }
  }

  lemma {:induction false} VisibleParts(color: string, left: string, text: string, right: string, end: string)
    requires IsColor(color) && WellFormed(left) && WellFormed(text) && WellFormed(right) && IsColor(end)
    ensures WellFormed(color + left + text + right + end)
    ensures Visible(color + left + text + right + end) == Visible(left) + Visible(text) + Visible(right)
    ensures Tildes(color + left + text + right + end) == Tildes(left) + Tildes(text) + Tildes(right)
  {
    hide Visible, WellFormed, Tildes;
    VisibleJoin(color, left);
    VisibleJoin(color + left, text);
    VisibleJoin(color + left + text, right);
    VisibleJoin(color + left + text + right, end);
    TildesJoin(color, left);
    TildesJoin(color + left, text);
    TildesJoin(color + left + text, right);
    TildesJoin(color + left + text + right, end);
    assert Visible(color) + Visible(left) == Visible(left);
  }

  lemma {:induction false} KeptText(str: string, width: nat)
    requires WellFormed(str)
    ensures WellFormed(str[..Cut(str, width)])
    ensures Visible(str[..Cut(str, width)]) == Visible(str)[..Kept(width, |Visible(str)|)]
  {
    if width == 0 {
      CutToNothing(str);
      CutKeeps(str, 1);
    } else {
      CutKeeps(str, width);
    }
  }

  /** What align_string shows: fill, the text cut to the width, fill. */
  lemma {:induction false} AlignedVisible(align: Align, width: nat, color: string, fill: string, str: string)
    requires WellFormed(str) && Fills(fill) && IsColor(color) && str != ""
    ensures var f, sz, r := FillOr(fill), |Visible(str)|, Aligned(align, width, color, fill, str);
            && Visible(f) != "" && WellFormed(r)
            && Visible(r) == Pattern(Visible(f), LeftFill(align, width, sz)) + Visible(str)[..Kept(width, sz)]
                             + Pattern(Visible(f), RightFill(align, width, sz))
            && Tildes(r) == Tildes(Filled(f, LeftFill(align, width, sz))) + Tildes(str[..Cut(str, width)])
                            + Tildes(Filled(f, RightFill(align, width, sz)))
  {
    var f, sz := FillOr(fill), |Visible(str)|;
    assert Visible(f) != "";
    hide Visible, WellFormed, Cut, Filled, LeftFill, RightFill, Fills, Kept, Tildes;
    FilledVisible(f, LeftFill(align, width, sz));
    FilledVisible(f, RightFill(align, width, sz));
    KeptText(str, width);
    ResetIsColor();
    var left, right := Filled(f, LeftFill(align, width, sz)), Filled(f, RightFill(align, width, sz));
    VisibleParts(color, left, str[..Cut(str, width)], right, "~x");
  }

  /** What the fill shows: a space if there is none. */
  lemma {:induction false} FillShows(fill: string)
    requires Fills(fill)
    ensures Visible(FillOr(fill)) == if fill == "" then " " else Visible(fill)
  {
    WhatIsShown(' ', "");
    assert " " + "" == " ";
  }

  /** Aligned text starts with the colour, ends with the code that resets it, and is empty only for an empty text. */
  lemma {:induction false} AlignedEnds(align: Align, width: nat, color: string, fill: string, str: string)
    requires WellFormed(str) && Fills(fill)
    ensures str == "" ==> Aligned(align, width, color, fill, str) == ""
    ensures str != "" ==> var r := Aligned(align, width, color, fill, str);
                          |r| >= |color| + 2 && r[..|color|] == color && r[|r| - 2..] == "~x"
  {
    hide WellFormed, Visible, Fills, Filled, Cut;
  }

  /** LEFT shows the start of the text and then the fill. */
  lemma {:induction false} LeftAligned(width: nat, color: string, fill: string, str: string)
    requires WellFormed(str) && Fills(fill) && IsColor(color) && str != "" && 1 <= width < SIZE_LIMIT - |str|
    ensures var v, g := Visible(str), if fill == "" then " " else Visible(fill);
            var n := Min(width, |v|);
            g != "" && Visible(Aligned(Left, width, color, fill, str)) == v[..n] + Pattern(g, width - n)
  {
    var v, sz := Visible(str), |Visible(str)|;
    VisibleFits(str);
    assert LeftFill(Left, width, sz) == 0 && RightFill(Left, width, sz) == width - Min(width, sz);
    assert Kept(width, sz) == Min(width, sz);
    hide LeftFill, RightFill, Visible, WellFormed, Fills, IsColor, Kept, Aligned, FillOr;
    AlignedVisible(Left, width, color, fill, str);
    FillShows(fill);
    var g := if fill == "" then " " else Visible(fill);
    assert Pattern(g, 0) + v[..Min(width, sz)] == v[..Min(width, sz)];
  }

  /** CENTER shows the text in the middle, with the odd column on its right. */
  lemma {:induction false} CenterAligned(width: nat, color: string, fill: string, str: string)
    requires WellFormed(str) && Fills(fill) && IsColor(color) && str != "" && 1 <= width < SIZE_LIMIT - |str|
    ensures var v, g := Visible(str), if fill == "" then " " else Visible(fill);
            var n := Min(width, |v|);
            var left := (width - n) / 2;
            g != "" && left <= width - n - left <= left + 1
            && Visible(Aligned(Center, width, color, fill, str)) ==
               Pattern(g, left) + v[..n] + Pattern(g, width - n - left)
  {
    var v, sz := Visible(str), |Visible(str)|;
    VisibleFits(str);
    hide LeftFill, RightFill, Visible, WellFormed, Fills, IsColor, Kept, Aligned, FillOr, Min, Pattern;
    CenterColumns(width, sz);
    AlignedVisible(Center, width, color, fill, str);
    FillShows(fill);
  }

  lemma {:induction false} CenterColumns(width: nat, sz: nat)
    requires 1 <= width < SIZE_LIMIT - sz
    ensures var n := Min(width, sz);
            var left := (width - n) / 2;
            && left <= width - n - left <= left + 1 && Kept(width, sz) == n
            && LeftFill(Center, width, sz) == left && RightFill(Center, width, sz) == width - n - left
  {
  }

  /** RIGHT shows a shorter text one column before the edge. */
  lemma {:induction false} RightAligned(width: nat, color: string, fill: string, str: string)
    requires WellFormed(str) && Fills(fill) && IsColor(color) && str != "" && 1 <= width < SIZE_LIMIT - |str|
    requires |Visible(str)| < width
    ensures var v, g := Visible(str), if fill == "" then " " else Visible(fill);
            g != "" && Visible(Aligned(Right, width, color, fill, str)) ==
                       Pattern(g, width - |v| - 1) + v + Pattern(g, 1)
  {
    var v, sz := Visible(str), |Visible(str)|;
    VisibleFits(str);
    assert v[..sz] == v;
    hide LeftFill, RightFill, Visible, WellFormed, Fills, IsColor, Kept, Aligned, FillOr, Pattern;
    RightColumns(width, sz);
    AlignedVisible(Right, width, color, fill, str);
    FillShows(fill);
  }

  /** For a text that is as wide as the field the difference wraps around. */
  lemma {:induction false} RightWrapsAround(width: nat, color: string, fill: string, str: string)
    requires WellFormed(str) && Fills(fill) && IsColor(color) && str != "" && 1 <= width < SIZE_LIMIT - |str|
    requires |Visible(str)| >= width
    ensures var v, g := Visible(str), if fill == "" then " " else Visible(fill);
            g != "" && Visible(Aligned(Right, width, color, fill, str)) ==
                       Pattern(g, 0xffff_ffff_ffff_ffff) + v[..width] + Pattern(g, if |v| == width then 1 else 0)
  {
    VisibleFits(str);
    hide LeftFill, RightFill, Visible, WellFormed, Fills, IsColor, Kept, Aligned, FillOr, Pattern;
    RightColumns(width, |Visible(str)|);
    AlignedVisible(Right, width, color, fill, str);
    FillShows(fill);
  }

  lemma {:induction false} RightColumns(width: nat, sz: nat)
    requires 1 <= width < SIZE_LIMIT - sz
    ensures Kept(width, sz) == if sz < width then sz else width
    ensures sz < width ==> LeftFill(Right, width, sz) == width - sz - 1 && RightFill(Right, width, sz) == 1
    ensures sz >= width ==> LeftFill(Right, width, sz) == SIZE_LIMIT - 1
    ensures sz >= width ==> RightFill(Right, width, sz) == if sz == width then 1 else 0
  {
    if sz >= width {
      assert SIZE_LIMIT - 1 + sz == SIZE_LIMIT + (sz - 1);
      assert SizeT(SIZE_LIMIT - 1 + sz) == sz - 1;
    }
  }

  /** INDENT shows the text behind eight columns. */
  lemma {:induction false} IndentAligned(width: nat, color: string, fill: string, str: string)
    requires WellFormed(str) && Fills(fill) && IsColor(color) && str != "" && 1 <= width < SIZE_LIMIT - |str|
    requires 8 + |str| < SIZE_LIMIT
    ensures var v, g := Visible(str), if fill == "" then " " else Visible(fill);
            g != "" && Visible(Aligned(Indent, width, color, fill, str)) ==
                       Pattern(g, 8) + v[..Min(width, |v|)] + Pattern(g, width - Min(8 + |v|, width))
  {
    VisibleFits(str);
    hide LeftFill, RightFill, Visible, WellFormed, Fills, IsColor, Kept, Aligned, FillOr, Min, Pattern;
    IndentColumns(width, |Visible(str)|);
    AlignedVisible(Indent, width, color, fill, str);
    FillShows(fill);
  }

  lemma {:induction false} IndentColumns(width: nat, sz: nat)
    requires 1 <= width < SIZE_LIMIT - sz && 8 + sz < SIZE_LIMIT
    ensures Kept(width, sz) == Min(width, sz) && LeftFill(Indent, width, sz) == 8
    ensures RightFill(Indent, width, sz) == width - Min(8 + sz, width)
  {
    assert SizeT(8 + sz) == 8 + sz;
  }

  lemma {:induction false} Columns(align: Align, width: nat, sz: nat)
    requires width + sz + 8 < SIZE_LIMIT
    ensures LeftFill(align, width, sz) + Kept(width, sz) + RightFill(align, width, sz) >= width
    ensures LeftFill(align, width, sz) + Kept(width, sz) + RightFill(align, width, sz) == width <==>
              Fits(align, width, sz)
  {
    var left := LeftFill(align, width, sz);
    if align == Right && sz >= width {
      assert left == SIZE_LIMIT - 1;
    } else {
      assert left <= width + 8 && SizeT(left + sz) == left + sz;
    }
  }

  /** The text can be aligned at the width: always for LEFT and CENTER unless the width is zero, for RIGHT exactly
      when the text is shorter than the width, for INDENT exactly when it fits behind its eight columns. */
  predicate Fits(align: Align, width: nat, sz: nat) {
    (width >= 1 || sz == 0) && (align == Right ==> sz < width) && (align == Indent ==> 8 + sz <= width)
  }

  /** As strlen_color counts, the aligned text is at least as wide as asked for, and exactly as wide if it fits. */
  lemma {:induction false} CountedWidth(align: Align, width: nat, color: string, fill: string, str: string)
    requires WellFormed(str) && Fills(fill) && IsColor(color) && str != ""
    requires width + |str| + 8 < SIZE_LIMIT
    ensures |Visible(Aligned(align, width, color, fill, str))| >= width
    ensures |Visible(Aligned(align, width, color, fill, str))| == width <==> Fits(align, width, |Visible(str)|)
  {
    var sz := |Visible(str)|;
    VisibleFits(str);
    Columns(align, width, sz);
    hide Aligned, Visible, WellFormed, Fills, Filled, LeftFill, RightFill, Fits;
    AlignedVisible(align, width, color, fill, str);
    assert |Visible(str)[..Kept(width, sz)]| == Kept(width, sz);
  }

  /** On the screen the aligned text is exactly as wide as asked for if and only if it fits and no code that ends
      in ~ is in what is kept of it or in the fill. */
  lemma {:induction false} ExactWidth(align: Align, width: nat, color: string, fill: string, str: string)
    requires WellFormed(str) && Fills(fill) && IsColor(color) && str != ""
    requires width + |str| + 8 < SIZE_LIMIT
    ensures var sz, f := |Visible(str)|, FillOr(fill);
            |Printed(Aligned(align, width, color, fill, str))| == width <==>
              && Fits(align, width, sz) && Tildes(str[..Cut(str, width)]) == 0
              && Tildes(Filled(f, LeftFill(align, width, sz))) == 0
              && Tildes(Filled(f, RightFill(align, width, sz))) == 0
  {
    hide *;
    PrintedLength(Aligned(align, width, color, fill, str));
    CountedWidth(align, width, color, fill, str);
    AlignedVisible(align, width, color, fill, str);
  }

  /** A fill without such codes makes columns without them. */
  lemma {:induction false} TildesOfFill(src: string, len: nat)
    requires Fills(src) && Tildes(src) == 0
    ensures Tildes(Filled(src, len)) == 0
  {
    if src != "" && len > 0 {
      var cz := |Visible(src)|;
      TildesOfRepeat(src, len / cz);
      TildesOfCut(src, len % cz);
      hide WellFormed, Cut, Visible;
      if len % cz == 0 {
        assert Filled(src, len) == Repeat(src, len / cz);
      } else {
        TildesJoin(Repeat(src, len / cz), src[..Cut(src, len % cz)]);
      }
    }
  }

  lemma {:induction false} TildesOfRepeat(src: string, k: nat)
    requires WellFormed(src) && Tildes(src) == 0
    ensures WellFormed(Repeat(src, k)) && Tildes(Repeat(src, k)) == 0
  {
    if k > 0 {
      TildesOfRepeat(src, k - 1);
      hide WellFormed, Visible, Tildes;
      VisibleJoin(Repeat(src, k - 1), src);
      TildesJoin(Repeat(src, k - 1), src);
    }
  }
}

/** The string routines of src/str.c that scripts, flag lists and run lengths go through, and the
    C library's atoi and strtok, which they rely on. */
module Text {

  predicate IsDigit(c: char) {
    '0' <= c <= '9'
  }

  predicate IsSpace(c: char) {
    c == ' ' || 9 <= c as int <= 13
  }

  /** LOWER */
  function Lower(c: char): char {
    if 'A' <= c <= 'Z' then (c as int + 32) as char else c
  }

  // ---------------------------------------------------------------- decimal numbers

  function DigitChar(d: nat): (c: char)
    requires d < 10
    ensures IsDigit(c) && DigitValue(c) == d
  {
    ('0' as int + d) as char
  }

  function DigitValue(c: char): (d: nat)
    requires IsDigit(c)
    ensures d < 10
  {
    c as int - '0' as int
  }

  /** What printf writes for a number that is not negative. */
  function Digits(n: nat): (s: string)
    ensures s != [] && forall c :: c in s ==> IsDigit(c)
  {
    if n < 10 then [DigitChar(n)] else Digits(n / 10) + [DigitChar(n % 10)]
  }

  function ReadDigits(s: string, acc: nat): nat {
    if s != [] && IsDigit(s[0]) then ReadDigits(s[1..], 10 * acc + DigitValue(s[0])) else acc
  }

  /** atoi and atol: leading white space, a sign, digits; the rest is ignored. */
  function Atoi(s: string): int {
    if s == [] then 0
    else if IsSpace(s[0]) then Atoi(s[1..])
    else if s[0] == '-' then 0 - ReadDigits(s[1..], 0)
    else if s[0] == '+' then ReadDigits(s[1..], 0)
    else ReadDigits(s, 0)
  }

  lemma {:induction false} ReadLastDigit(s: string, c: char, acc: nat)
    requires IsDigit(c) && forall x :: x in s ==> IsDigit(x)
    ensures ReadDigits(s + [c], acc) == 10 * ReadDigits(s, acc) + DigitValue(c)
  {
    if s != [] {
      assert (s + [c])[1..] == s[1..] + [c];
      ReadLastDigit(s[1..], c, 10 * acc + DigitValue(s[0]));
    } else {
      assert (s + [c])[1..] == [];
    }
  }

  lemma {:induction false} ReadsBack(n: nat)
    ensures ReadDigits(Digits(n), 0) == n
  {
    if n < 10 {
      assert Digits(n)[1..] == [];
    } else {
      ReadsBack(n / 10);
      ReadLastDigit(Digits(n / 10), DigitChar(n % 10), 0);
    }
  }

  /** Reading a printed number gives the number. */
  lemma AtoiOfDigits(n: nat)
    ensures Atoi(Digits(n)) == n
  {
    ReadsBack(n);
    assert Digits(n)[0] in Digits(n);
  }

  /** A number with a minus sign, and white space before a number. */
  lemma {:induction false} AtoiOfSigned(n: nat, c: char, s: string)
    ensures Atoi("-" + Digits(n)) + n == 0 && Atoi("+" + Digits(n)) == n
    ensures c == ' ' || c == '\t' || c == '\n' || c == '\r' ==> Atoi([c] + s) == Atoi(s)
    ensures Atoi("") == 0
  {
    ReadsBack(n);
    assert ("-" + Digits(n))[1..] == Digits(n) && ("+" + Digits(n))[1..] == Digits(n);
    assert ([c] + s)[1..] == s;
  }

  /** A digit behind a printed number multiplies it by ten. */
  lemma {:induction false} DigitsOfMore(n: nat, d: nat)
    requires n > 0 && d < 10
    ensures Digits(10 * n + d) == Digits(n) + ["0123456789"[d]] && Digits(d) == ["0123456789"[d]]
  {
    assert (10 * n + d) / 10 == n && (10 * n + d) % 10 == d;
    assert DigitChar(d) == "0123456789"[d];
  }

  // ---------------------------------------------------------------- strtok

  predicate Free(s: string, delims: string) {
    forall c :: c in s ==> c !in delims
  }

  function TokenLength(s: string, delims: string): (n: nat)
    ensures n <= |s|
    ensures s != [] && s[0] !in delims ==> 0 < n
    ensures Free(s[..n], delims) && (n < |s| ==> s[n] in delims)
  {
    if s == [] || s[0] in delims then 0
    else
      var n := TokenLength(s[1..], delims);
      assert s[..n + 1] == [s[0]] + s[1..][..n];
      n + 1
  }

  /** What strtok returns, call after call, until it returns NULL. */
  function Tokens(s: string, delims: string): seq<string>
    decreases |s|
  {
    if s == [] then []
    else if s[0] in delims then Tokens(s[1..], delims)
    else
      var n := TokenLength(s, delims);
      [s[..n]] + Tokens(s[n..], delims)
  }

  lemma {:induction false} FreeTokenLength(s: string, rest: string, delims: string)
    requires Free(s, delims) && (rest != [] ==> rest[0] in delims)
    ensures TokenLength(s + rest, delims) == |s|
  {
    if s == [] {
      assert s + rest == rest;
    } else {
      assert (s + rest)[1..] == s[1..] + rest;
      FreeTokenLength(s[1..], rest, delims);
    }
  }

  /** A token ends where a delimiter or the string's end follows it. */
  lemma FirstToken(s: string, rest: string, delims: string)
    requires s != [] && Free(s, delims) && (rest != [] ==> rest[0] in delims)
    ensures Tokens(s + rest, delims) == [s] + Tokens(rest, delims)
  {
    FreeTokenLength(s, rest, delims);
    assert (s + rest)[0] == s[0] && s[0] in s;
    assert (s + rest)[..|s|] == s && (s + rest)[|s|..] == rest;
  }

  lemma SkipDelimiter(d: char, rest: string, delims: string)
    requires d in delims
    ensures Tokens([d] + rest, delims) == Tokens(rest, delims)
  {
    assert ([d] + rest)[1..] == rest;
  }

  // ---------------------------------------------------------------- src/str.c

  /** The line that get_line copies. */
  function LineOf(s: string): (line: string)
    ensures |line| <= |s|
  {
    if s == [] || s[0] == '\n' then [] else [s[0]] + LineOf(s[1..])
  }

  /** What get_line leaves: it skips the line, its newline, and a carriage return after that. */
  function AfterLine(s: string): (rest: string)
    ensures s != [] ==> |rest| < |s|
  {
    if s == [] then []
    else if s[0] == '\n' then if |s| > 1 && s[1] == '\r' then s[2..] else s[1..]
    else AfterLine(s[1..])
  }

  /** get_line */
  method GetLine(str: string) returns (rest: string, buf: string)
    ensures buf == LineOf(str) && rest == AfterLine(str)
  {
    rest, buf := str, [];
    while rest != []
      invariant LineOf(str) == buf + LineOf(rest) && AfterLine(str) == AfterLine(rest)
      decreases |rest|
    {
      if rest[0] == '\n' {
        break;
      }
      buf := buf + [rest[0]];
      rest := rest[1..];
    }
    if rest != [] {
      rest := rest[1..];
      if rest != [] && rest[0] == '\r' {
        rest := rest[1..];
      }
    }
  }

  lemma {:induction false} LineOfText(line: string, rest: string)
    requires '\n' !in line && (rest != [] ==> rest[0] != '\r')
    ensures LineOf(line + "\n" + rest) == line && AfterLine(line + "\n" + rest) == rest
  {
    var s := line + "\n" + rest;
    if line == [] {
      assert s == "\n" + rest && s[1..] == rest;
    } else {
      assert s[1..] == line[1..] + "\n" + rest;
      assert s[0] == line[0] && line[0] in line;
      LineOfText(line[1..], rest);
    }
  }

  /** The ROM files end their lines with a newline and a carriage return; the last line may have no end. */
  lemma {:induction false} LineEnds(line: string, rest: string)
    requires '\n' !in line
    ensures LineOf(line + "\n\r" + rest) == line && AfterLine(line + "\n\r" + rest) == rest
    ensures LineOf(line) == line && AfterLine(line) == ""
  {
    var s := line + "\n\r" + rest;
    if line == [] {
      assert s == "\n\r" + rest && s[2..] == rest;
    } else {
      assert s[1..] == line[1..] + "\n\r" + rest;
      assert s[0] == line[0] && line[0] in line;
      LineEnds(line[1..], rest);
    }
  }

  function SkipSpaces(s: string): string {
    if s != [] && IsSpace(s[0]) then SkipSpaces(s[1..]) else s
  }

  function DropTrailing(s: string): string {
    if s != [] && IsSpace(s[|s| - 1]) then DropTrailing(s[..|s| - 1]) else s
  }

  predicate Blank(s: string) {
    forall c :: c in s ==> c == ' ' || c == '\t' || c == '\n' || c == '\r' || c as int == 11 || c as int == 12
  }

  /** What is trimmed is white space before and behind the text, and all of it. */
  lemma {:induction false} TrimsBlanks(s: string) returns (front: string, back: string)
    ensures s == front + DropTrailing(SkipSpaces(s)) + back && Blank(front) && Blank(back)
    ensures var t := DropTrailing(SkipSpaces(s)); t != "" ==> !Blank([t[0]]) && !Blank([t[|t| - 1]])
  {
    front := SpacesInFront(s);
    back := SpacesBehind(SkipSpaces(s));
    var t := DropTrailing(SkipSpaces(s));
    assert s == front + (t + back);
    if t != "" {
      assert SkipSpaces(s)[0] == t[0];
      assert t[0] in [t[0]] && t[|t| - 1] in [t[|t| - 1]];
    }
  }

  lemma {:induction false} SpacesInFront(s: string) returns (front: string)
    ensures s == front + SkipSpaces(s) && Blank(front)
    ensures SkipSpaces(s) != "" ==> !IsSpace(SkipSpaces(s)[0])
  {
    front := "";
    if s != "" && IsSpace(s[0]) {
      var more := SpacesInFront(s[1..]);
      front := [s[0]] + more;
    }
  }

  lemma {:induction false} SpacesBehind(s: string) returns (back: string)
    ensures s == DropTrailing(s) + back && Blank(back)
    ensures DropTrailing(s) != "" ==> !IsSpace(DropTrailing(s)[|DropTrailing(s)| - 1])
    decreases |s|
  {
    back := "";
    if s != "" && IsSpace(s[|s| - 1]) {
      var less := SpacesBehind(s[..|s| - 1]);
      back := less + [s[|s| - 1]];
    }
  }

  /** trim */
  method Trim(s: string) returns (t: string)
    ensures t == DropTrailing(SkipSpaces(s))
  {
    var b, e := 0, |s|;
    while b < e && IsSpace(s[b])
      invariant 0 <= b <= e && SkipSpaces(s) == SkipSpaces(s[b..])
    {
      assert s[b..][1..] == s[b + 1..];
      b := b + 1;
    }
    assert SkipSpaces(s) == s[b..] == s[b..e];
    while e > b && IsSpace(s[e - 1])
      invariant b <= e <= |s| && DropTrailing(s[b..]) == DropTrailing(s[b..e])
    {
      assert s[b..e][..e - b - 1] == s[b..e - 1];
      e := e - 1;
    }
    t := s[b..e];
  }

  /** Case is ignored. */
  predicate SameName(a: string, b: string) {
    |a| == |b| && forall i :: 0 <= i < |a| ==> Lower(a[i]) == Lower(b[i])
  }

  /** Two characters are the same to LOWER exactly when they are equal or one letter in two cases. */
  lemma {:induction false} CaseIsIgnored(c: char, d: char)
    ensures Lower(c) == Lower(d) <==>
              || c == d
              || ('A' <= c <= 'Z' && d as int == c as int + 32)
              || ('A' <= d <= 'Z' && c as int == d as int + 32)
  {
  }

  /** str_cmp returns true when the strings differ. */
  method StrCmp(a: string, b: string) returns (differ: bool)
    ensures differ <==> !SameName(a, b)
  {
    var i := 0;
    while i < |a| || i < |b|
      invariant 0 <= i <= |a| && i <= |b|
      invariant forall j :: 0 <= j < i ==> Lower(a[j]) == Lower(b[j])
      decreases |a| - i
    {
      if i == |a| || i == |b| || Lower(a[i]) != Lower(b[i]) {
        return true;
      }
      i := i + 1;
    }
    return false;
  }

  predicate IsPrefix(a: string, b: string) {
    |a| <= |b| && forall i :: 0 <= i < |a| ==> Lower(a[i]) == Lower(b[i])
  }

  /** str_prefix returns true when the first string is empty or no prefix of the second. */
  method StrPrefix(a: string, b: string) returns (no: bool)
    ensures no <==> a == [] || !IsPrefix(a, b)
  {
    if a == [] {
      return true;
    }
    var i := 0;
    while i < |a|
      invariant 0 <= i <= |a| && i <= |b|
      invariant forall j :: 0 <= j < i ==> Lower(a[j]) == Lower(b[j])
    {
      if i == |b| || Lower(a[i]) != Lower(b[i]) {
        return true;
      }
      i := i + 1;
    }
    return false;
  }

  predicate NumberChars(s: string) {
    forall c :: c in s ==> c == '.' || IsDigit(c)
  }

  /** What is_number accepts: a sign, then digits and points. */
  predicate LooksNumeric(s: string) {
    s != [] && NumberChars(if s[0] == '+' || s[0] == '-' then s[1..] else s)
  }

  /** A sign may come first; everything else is a digit or a point. */
  lemma {:induction false} NumericIs(s: string)
    ensures LooksNumeric(s) <==>
              s != "" && forall k :: 0 <= k < |s| ==>
                           '0' <= s[k] <= '9' || s[k] == '.' || (k == 0 && (s[k] == '+' || s[k] == '-'))
  {
    if s != "" {
      var body := if s[0] == '+' || s[0] == '-' then s[1..] else s;
      var n := |s| - |body|;
      assert forall k :: 0 <= k < |body| ==> body[k] in body && body[k] == s[n + k];
      if LooksNumeric(s) {
        forall k | n <= k < |s|
          ensures '0' <= s[k] <= '9' || s[k] == '.'
        {
          assert body[k - n] in body;
        }
      } else {
        var c :| c in body && !(c == '.' || IsDigit(c));
        var k :| 0 <= k < |body| && body[k] == c;
        assert s[n + k] == c;
      }
    }
  }

  /** is_number: 0 for no number, 2 for one with a point, otherwise 1. */
  method IsNumber(arg: string) returns (kind: nat)
    ensures kind == if !LooksNumeric(arg) then 0 else if '.' in arg then 2 else 1
  {
    if arg == [] {
      return 0;
    }
    var precision := false;
    var start := if arg[0] == '+' || arg[0] == '-' then 1 else 0;
    ghost var body := arg[start..];
    var i := start;
    while i < |arg|
      invariant start <= i <= |arg|
      invariant forall k :: 0 <= k < i - start ==> body[k] == '.' || IsDigit(body[k])
      invariant precision <==> '.' in arg[..i]
    {
      assert arg[..i + 1] == arg[..i] + [arg[i]];
      if arg[i] == '.' {
        precision := true;
      } else if !IsDigit(arg[i]) {
        assert body[i - start] in body;
        return 0;
      }
      i := i + 1;
    }
    assert arg[..i] == arg;
    return if precision then 2 else 1;
  }
}

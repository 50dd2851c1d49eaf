/** Strings as the merge engine and the syntax gate see them: Unicode whitespace,
    `str::trim`, and the split of a text into lines done by `str::lines`.
    A Dafny `char` is a Unicode scalar value, exactly like a Rust `char`. */
module Text {

  datatype Option<+T> = None | Some(value: T)

  /** The Unicode White_Space property, which `str::trim` uses. */
  predicate IsSpace(c: char) {
    || '\U{9}' <= c <= '\U{D}'
    || c == ' ' || c == '\U{85}' || c == '\U{A0}' || c == '\U{1680}'
    || '\U{2000}' <= c <= '\U{200A}'
    || c == '\U{2028}' || c == '\U{2029}' || c == '\U{202F}' || c == '\U{205F}' || c == '\U{3000}'
  }

  /** A text of whitespace only. */
  predicate Blank(s: string) {
    s == [] || (IsSpace(s[0]) && Blank(s[1..]))
  }

  function TrimStart(s: string): string {
    if s != [] && IsSpace(s[0]) then TrimStart(s[1..]) else s
  }

  function TrimEnd(s: string): string {
    if s != [] && IsSpace(s[|s| - 1]) then TrimEnd(s[..|s| - 1]) else s
  }

  function Trim(s: string): string {
    TrimEnd(TrimStart(s))
  }

  /** Bytes of a character in UTF-8: `str::len` counts bytes. */
  function Utf8Width(c: char): nat {
    if c < '\U{80}' then 1 else if c < '\U{800}' then 2 else if c < '\U{10000}' then 3 else 4
  }

  function Utf8Len(s: string): nat {
    if s == [] then 0 else Utf8Width(s[0]) + Utf8Len(s[1..])
  }

  /** Position of the first line feed, or the length of the text. */
  function LineFeed(s: string): (i: nat)
    ensures i <= |s| && forall k :: 0 <= k < i ==> s[k] != '\n'
    ensures i < |s| ==> s[i] == '\n'
  {
    if s == [] || s[0] == '\n' then 0
    else
      var i := LineFeed(s[1..]);
      assert forall k :: 1 <= k < i + 1 ==> s[k] == s[1..][k - 1];
      i + 1
  }

  /** A line feed may be preceded by one carriage return, which goes with it. */
  function StripCr(line: string): (r: string)
    ensures r <= line
    ensures |line| > 0 && line[|line| - 1] == '\r' ==> r + "\r" == line
    ensures !(|line| > 0 && line[|line| - 1] == '\r') ==> r == line
  {
    if |line| > 0 && line[|line| - 1] == '\r' then line[..|line| - 1] else line
  }

  /** `str::lines`: a final line without a line feed keeps its carriage return. */
  function Lines(s: string): seq<string> {
    if s == [] then []
    else
      var i := LineFeed(s);
      if i == |s| then [s] else [StripCr(s[..i])] + Lines(s[i + 1..])
  }

  /** Every line followed by a line feed. */
  function Unlines(ls: seq<string>): string {
    if ls == [] then "" else ls[0] + "\n" + Unlines(ls[1..])
  }

  /** `join("\n")`. */
  function JoinLines(ls: seq<string>): string {
    if ls == [] then "" else if |ls| == 1 then ls[0] else ls[0] + "\n" + JoinLines(ls[1..])
  }

  function Concat<T>(parts: seq<seq<T>>): seq<T> {
    if parts == [] then [] else parts[0] + Concat(parts[1..])
  }

  lemma Reassociate<T>(a: seq<T>, b: seq<T>, c: seq<T>)
    ensures a + (b + c) == a + b + c
  {
  }

  lemma InsertCounts<T>(s: seq<T>, k: nat, x: T)
    requires k <= |s|
    ensures multiset(s[..k] + [x] + s[k..]) == multiset(s) + multiset{x}
  {
    assert s == s[..k] + s[k..];
  }

  lemma TailCounts<T>(s: seq<T>)
    requires s != []
    ensures multiset(s[1..]) == multiset(s) - multiset{s[0]}
  {
    assert s == [s[0]] + s[1..];
  }

  lemma {:induction false} NoRepeats<T>(s: seq<T>)
    requires forall a, b :: 0 <= a < b < |s| ==> s[a] != s[b]
    ensures forall e :: multiset(s)[e] == if e in s then 1 else 0
  {
    if s != [] {
      NoRepeats(s[1..]);
      assert s == [s[0]] + s[1..];
    }
  }

  lemma SameMembers<T>(a: seq<T>, b: seq<T>)
    requires forall i, j :: 0 <= i < j < |a| ==> a[i] != a[j]
    requires forall i, j :: 0 <= i < j < |b| ==> b[i] != b[j]
    requires forall e :: e in a <==> e in b
    ensures multiset(a) == multiset(b)
  {
    NoRepeats(a);
    NoRepeats(b);
    forall e ensures multiset(a)[e] == multiset(b)[e] {
    }
  }

  /** Text made of whole lines. */
  predicate Terminated(s: string) {
    s == [] || s[|s| - 1] == '\n'
  }

  /** A line that survives being written out and split again. */
  predicate Clean(line: string) {
    '\n' !in line && (line != [] ==> line[|line| - 1] != '\r')
  }

  lemma {:induction false} JoinIsUnlines(ls: seq<string>)
    requires ls != []
    ensures JoinLines(ls) + "\n" == Unlines(ls)
  {
    if |ls| > 1 {
      JoinIsUnlines(ls[1..]);
      assert JoinLines(ls) + "\n" == ls[0] + "\n" + (JoinLines(ls[1..]) + "\n");
    } else {
      assert Unlines(ls[1..]) == "";
    }
  }

  lemma {:induction false} UnlinesAppend(a: seq<string>, b: seq<string>)
    ensures Unlines(a + b) == Unlines(a) + Unlines(b)
  {
    if a == [] {
      assert a + b == b;
    } else {
      assert (a + b)[1..] == a[1..] + b;
      UnlinesAppend(a[1..], b);
    }
  }

  lemma {:induction false} UnlinesTerminated(ls: seq<string>)
    ensures Terminated(Unlines(ls))
    ensures ls != [] ==> Unlines(ls) != []
  {
    if ls != [] {
      UnlinesTerminated(ls[1..]);
    }
  }

  lemma {:induction false} ConcatAppend<T>(a: seq<seq<T>>, b: seq<seq<T>>)
    ensures Concat(a + b) == Concat(a) + Concat(b)
  {
    if a == [] {
      assert a + b == b;
    } else {
      assert (a + b)[1..] == a[1..] + b;
      ConcatAppend(a[1..], b);
    }
  }

  lemma LinesStep(s: string, i: nat)
    requires i < |s| && LineFeed(s) == i
    ensures Lines(s) == [StripCr(s[..i])] + Lines(s[i + 1..])
  {
  }

  lemma AppendStep(a: string, b: string, i: nat)
    requires i < |a| && LineFeed(a) == i
    ensures Lines(a + b) == [StripCr(a[..i])] + Lines(a[i + 1..] + b)
  {
    var s := a + b;
    assert s[..i] == a[..i] && s[i + 1..] == a[i + 1..] + b && s[i] == a[i];
    LineFeedIs(s, i);
    LinesStep(s, i);
  }

  /** Splitting a text at the end of a line splits its lines. */
  lemma {:induction false} LinesAppend(a: string, b: string)
    requires Terminated(a)
    ensures Lines(a + b) == Lines(a) + Lines(b)
    decreases |a|
  {
    if a == [] {
      assert a + b == b;
    } else {
      var i := LineFeed(a);
      LinesAppend(a[i + 1..], b);
      AppendStep(a, b, i);
      LinesStep(a, i);
      Reassociate([StripCr(a[..i])], Lines(a[i + 1..]), Lines(b));
    }
  }

  lemma {:induction false} LineFeedIs(s: string, i: nat)
    requires i < |s| && s[i] == '\n' && forall k :: 0 <= k < i ==> s[k] != '\n'
    ensures LineFeed(s) == i
  {
    var j := LineFeed(s);
  }

  lemma {:induction false} LinesOfUnlines(ls: seq<string>)
    requires forall i :: 0 <= i < |ls| ==> Clean(ls[i])
    ensures Lines(Unlines(ls)) == ls
  {
    if ls != [] {
      var s := Unlines(ls);
      LineFeedIs(s, |ls[0]|);
      assert s[..|ls[0]|] == ls[0];
      assert s[|ls[0]| + 1..] == Unlines(ls[1..]);
      LinesOfUnlines(ls[1..]);
    }
  }

  /** No line holds a line feed. */
  lemma {:induction false} LinesHaveNoFeed(s: string)
    ensures forall i :: 0 <= i < |Lines(s)| ==> '\n' !in Lines(s)[i]
    decreases |s|
  {
    if s != [] {
      var i := LineFeed(s);
      if i < |s| {
        LinesHaveNoFeed(s[i + 1..]);
        var l := StripCr(s[..i]);
        assert forall k :: 0 <= k < |l| ==> l[k] == s[..i][k];
      } else {
        assert s[..i] == s;
      }
    }
  }

  predicate AllBlank(ls: seq<string>) {
    ls == [] || (Blank(ls[0]) && AllBlank(ls[1..]))
  }

  lemma {:induction false} BlankAppend(a: string, b: string)
    ensures Blank(a + b) <==> Blank(a) && Blank(b)
  {
    if a == [] {
      assert a + b == b;
    } else {
      assert (a + b)[1..] == a[1..] + b;
      BlankAppend(a[1..], b);
    }
  }

  lemma {:induction false} AllBlankAppend(a: seq<string>, b: seq<string>)
    ensures AllBlank(a + b) <==> AllBlank(a) && AllBlank(b)
  {
    if a == [] {
      assert a + b == b;
    } else {
      assert (a + b)[1..] == a[1..] + b;
      AllBlankAppend(a[1..], b);
    }
  }

  lemma {:induction false} TrimEndBlank(s: string)
    ensures TrimEnd(s) == [] <==> Blank(s)
    decreases |s|
  {
    if s != [] {
      var front, last := s[..|s| - 1], [s[|s| - 1]];
      assert s == front + last;
      BlankAppend(front, last);
      TrimEndBlank(front);
    }
  }

  /** `trim` leaves nothing exactly of a blank text. */
  lemma {:induction false} TrimBlank(s: string)
    ensures Trim(s) == [] <==> Blank(s)
  {
    if s != [] && IsSpace(s[0]) {
      TrimBlank(s[1..]);
    } else {
      TrimEndBlank(s);
    }
  }

  lemma BlankFeed(s: string)
    ensures Blank(s + "\n") <==> Blank(s)
    ensures Blank(StripCr(s)) <==> Blank(s)
  {
    BlankAppend(s, "\n");
    BlankAppend(StripCr(s), "\r");
  }

  /** A text is blank exactly when all its lines are. */
  lemma {:induction false} BlankLines(s: string)
    ensures Blank(s) <==> AllBlank(Lines(s))
    decreases |s|
  {
    if s != [] {
      var i := LineFeed(s);
      if i == |s| {
        assert Lines(s) == [s];
      } else {
        var tail := s[i + 1..];
        BlankLines(tail);
        BlankAppend(s[..i] + "\n", tail);
        BlankFeed(s[..i]);
        assert s == s[..i] + "\n" + tail;
      }
    }
  }

  lemma {:induction false} BlankUnlines(ls: seq<string>)
    ensures Blank(Unlines(ls)) <==> AllBlank(ls)
  {
    if ls != [] {
      BlankUnlines(ls[1..]);
      BlankAppend(ls[0] + "\n", Unlines(ls[1..]));
      BlankFeed(ls[0]);
    }
  }

  // ---------------------------------------------------------------- decimal numbers

  // ---------------------------------------------------------------- what trimming and splitting give

  lemma {:induction false} TrimStartExactly(s: string) returns (i: nat)
    ensures i <= |s| && TrimStart(s) == s[i..] && Blank(s[..i]) && (i < |s| ==> !IsSpace(s[i]))
  {
    if s != [] && IsSpace(s[0]) {
      var k := TrimStartExactly(s[1..]);
      i := k + 1;
      assert s[..i][1..] == s[1..][..k] && s[1..][k..] == s[i..];
    } else {
      i := 0;
    }
  }

  lemma {:induction false} TrimEndExactly(s: string) returns (j: nat)
    ensures j <= |s| && TrimEnd(s) == s[..j] && Blank(s[j..]) && (j > 0 ==> !IsSpace(s[j - 1]))
    decreases |s|
  {
    if s != [] && IsSpace(s[|s| - 1]) {
      var front, last := s[..|s| - 1], [s[|s| - 1]];
      j := TrimEndExactly(front);
      BlankTail(s, front, j);
    } else {
      j := |s|;
      assert s[..j] == s && s[j..] == [];
    }
  }

  lemma BlankTail(s: string, front: string, j: nat)
    requires s != [] && front == s[..|s| - 1] && j <= |front| && Blank(front[j..]) && IsSpace(s[|s| - 1])
    ensures front[..j] == s[..j] && Blank(s[j..])
  {
    var last := [s[|s| - 1]];
    assert s[j..] == front[j..] + last;
    assert Blank(last) by { assert last[1..] == []; }
    BlankAppend(front[j..], last);
  }

  /** Trimming removes whitespace at both ends and nothing else. */
  lemma TrimExactly(s: string) returns (i: nat, j: nat)
    ensures i <= j <= |s| && Trim(s) == s[i..j] && Blank(s[..i]) && Blank(s[j..])
    ensures i < j ==> !IsSpace(s[i]) && !IsSpace(s[j - 1])
  {
    i := TrimStartExactly(s);
    var k := TrimEndExactly(s[i..]);
    j := i + k;
    assert s[i..][..k] == s[i..j] && s[i..][k..] == s[j..];
  }

  /** Lines, each followed by its end. */
  function Weave(lines: seq<string>, ends: seq<string>): string
    requires |lines| == |ends|
  {
    if lines == [] then "" else lines[0] + ends[0] + Weave(lines[1..], ends[1..])
  }

  /** A line holds no line feed and ends with a line feed, a carriage return and a line feed, or the text. */
  predicate LineEnds(line: string, end: string, last: bool) {
    && '\n' !in line
    && (end == "\n" || end == "\r\n" || (last && end == "" && line != ""))
    && (end == "\n" && line != [] ==> line[|line| - 1] != '\r')
  }

  /** Splitting takes the text apart into its lines and their ends. */
  lemma {:induction false} LinesExactly(s: string) returns (ends: seq<string>)
    ensures |ends| == |Lines(s)| && s == Weave(Lines(s), ends)
    ensures forall i :: 0 <= i < |ends| ==> LineEnds(Lines(s)[i], ends[i], i == |ends| - 1)
    decreases |s|
  {
    if s == [] {
      ends := [];
    } else {
      var i := LineFeed(s);
      if i == |s| {
        ends := [""];
        assert Lines(s) == [s] && [s][1..] == [] && s + "" + "" == s;
      } else {
        var line := StripCr(s[..i]);
        var end, rest := s[|line|..i + 1], s[i + 1..];
        var more := LinesExactly(rest);
        ends := [end] + more;
        LinesStep(s, i);
        FirstLine(s, i, line, end, rest);
        assert Lines(s)[1..] == Lines(rest) && ends[1..] == more;
      }
    }
  }

  lemma LineAndEnd(s: string, i: nat, line: string, eol: string, rest: string)
    requires i < |s| && s[i] == '\n' && line == StripCr(s[..i]) && eol == s[|line|..i + 1] && rest == s[i + 1..]
    ensures s == line + eol + rest
    ensures if line == s[..i] then eol == "\n" else eol == "\r\n"
  {
  }

  lemma FirstLine(s: string, i: nat, line: string, end: string, rest: string)
    requires i < |s| && LineFeed(s) == i && line == StripCr(s[..i]) && end == s[|line|..i + 1] && rest == s[i + 1..]
    ensures s == line + end + rest && LineEnds(line, end, false)
  {
    LineAndEnd(s, i, line, end, rest);
    NoFeedBefore(s, i, line);
  }

  lemma NoFeedBefore(s: string, i: nat, line: string)
    requires i <= |s| && LineFeed(s) == i && line <= s[..i]
    ensures '\n' !in line
  {
    assert forall k :: 0 <= k < |line| ==> line[k] == s[k];
  }

  function Digit(d: nat): char
    requires d < 10
  {
    '0' + d as char
  }

  function Digits(n: nat): string {
    if n < 10 then [Digit(n)] else Digits(n / 10) + [Digit(n % 10)]
  }

  /** `i64::to_string`. */
  function Decimal(z: int): string {
    if z < 0 then "-" + Digits(-z) else Digits(z)
  }

  lemma {:induction false} DigitsOnly(n: nat)
    ensures Digits(n) != [] && forall i :: 0 <= i < |Digits(n)| ==> '0' <= Digits(n)[i] <= '9'
  {
    if n >= 10 {
      DigitsOnly(n / 10);
    }
  }

  lemma {:induction false} DigitsInjective(a: nat, b: nat)
    requires Digits(a) == Digits(b)
    ensures a == b
    decreases a
  {
    DigitsOnly(a / 10);
    DigitsOnly(b / 10);
    var da, db := Digits(a), Digits(b);
    assert da[|da| - 1] == Digit(a % 10) && db[|db| - 1] == Digit(b % 10);
    if a >= 10 && b >= 10 {
      assert da[..|da| - 1] == Digits(a / 10) && db[..|db| - 1] == Digits(b / 10);
      DigitsInjective(a / 10, b / 10);
    }
  }

  lemma DecimalInjective(a: int, b: int)
    requires Decimal(a) == Decimal(b)
    ensures a == b
  {
    var m, n: nat := if a < 0 then -a else a, if b < 0 then -b else b;
    DigitsOnly(m);
    DigitsOnly(n);
    assert Decimal(a)[0] == '-' <==> a < 0;
    assert Decimal(b)[0] == '-' <==> b < 0;
    if a < 0 {
      assert Decimal(a)[1..] == Digits(m) && Decimal(b)[1..] == Digits(n);
    }
    DigitsInjective(m, n);
  }

  /** A number holds no separator. */
  lemma DecimalPlain(z: int, c: char)
    requires c != '-' && !('0' <= c <= '9')
    ensures c !in Decimal(z)
  {
    DigitsOnly(if z < 0 then -z else z);
  }

  /** The number that decimal digits stand for. */
  function Reads(s: string): int
    requires forall i :: 0 <= i < |s| ==> '0' <= s[i] <= '9'
  {
    if s == [] then 0 else 10 * Reads(s[..|s| - 1]) + (s[|s| - 1] as int - '0' as int)
  }

  /** Written in decimal, a number reads as itself, without a leading zero and with a sign only if it is negative. */
  lemma {:induction false} DigitsExactly(n: nat)
    ensures forall i :: 0 <= i < |Digits(n)| ==> '0' <= Digits(n)[i] <= '9'
    ensures Digits(n) != [] && Reads(Digits(n)) == n && (n > 0 ==> Digits(n)[0] != '0')
  {
    DigitsOnly(n);
    if n >= 10 {
      DigitsExactly(n / 10);
      assert Digits(n)[..|Digits(n)| - 1] == Digits(n / 10);
    }
  }

  /** The Unicode White_Space property, code point by code point. */
  lemma SpaceExactly(c: char)
    ensures IsSpace(c) <==>
            c as int in {0x9, 0xA, 0xB, 0xC, 0xD, 0x20, 0x85, 0xA0, 0x1680, 0x2000, 0x2001, 0x2002, 0x2003, 0x2004,
            0x2005,
                         0x2006, 0x2007, 0x2008, 0x2009, 0x200A, 0x2028, 0x2029, 0x202F, 0x205F, 0x3000}
  {
  }
}

/** What the bracket check decides on any text. `Code` removes strings and comments by skipping to their ends, without
    the flags of the scanner; the check accepts exactly the texts whose remaining code is balanced, and what it reports
    is read off that code. */
module GateLaws {
  import opened Text
  import opened SyntaxGate
  import opened GateTheory

  // ---------------------------------------------------------------- the code of a text

  function Size(lines: seq<string>): nat {
    if lines == [] then 0 else 1 + |lines[0]| + Size(lines[1..])
  }

  /** Without the first character of the first line. */
  function Drop(lines: seq<string>): (rest: seq<string>)
    requires lines != [] && lines[0] != []
    ensures |rest| == |lines| && Size(rest) < Size(lines)
  {
    [lines[0][1..]] + lines[1..]
  }

  /** What follows the next quote that no backslash precedes; nothing if there is none. A string may span lines. */
  function AfterQuote(lines: seq<string>, quote: char, prev: char): (rest: seq<string>)
    ensures |rest| <= |lines| && (rest != [] ==> Size(rest) < Size(lines))
    decreases Size(lines)
  {
    if lines == [] then []
    else if lines[0] == [] then AfterQuote(lines[1..], quote, prev)
    else if lines[0][0] == quote && prev != '\\' then Drop(lines)
    else AfterQuote(Drop(lines), quote, lines[0][0])
  }

  /** What follows the end of a block comment. */
  function AfterComment(lines: seq<string>, prev: char): (rest: seq<string>)
    ensures |rest| <= |lines| && (rest != [] ==> Size(rest) < Size(lines))
    decreases Size(lines)
  {
    if lines == [] then []
    else if lines[0] == [] then AfterComment(lines[1..], prev)
    else if prev == '*' && lines[0][0] == '/' then Drop(lines)
    else AfterComment(Drop(lines), lines[0][0])
  }

  function Blanks(n: nat): (bs: seq<string>)
    ensures |bs| == n && forall i :: 0 <= i < n ==> bs[i] == ""
  {
    seq(n, _ => "")
  }

  /** Line by line, the characters outside strings and comments. `slash` says that a slash comes right before: with
      another one it begins a line comment, with a star a block comment. It survives the end of a line. */
  function Code(lines: seq<string>, slash: bool): (code: seq<string>)
    ensures |code| == |lines|
    decreases Size(lines)
  {
    if lines == [] then []
    else if lines[0] == [] then [""] + Code(lines[1..], slash)
    else
      var c := lines[0][0];
      if c == '"' || c == '\'' then
        var rest := AfterQuote(Drop(lines), c, c);
        Blanks(|lines| - |rest|) + Code(rest, false)
      else if slash && c == '/' then
        [""] + Code(lines[1..], true)
      else if slash && c == '*' then
        var rest := AfterComment(Drop(lines), '*');
        Blanks(|lines| - |rest|) + Code(rest, true)
      else
        Prepend(c, Code(Drop(lines), c == '/'))
  }

  function Prepend(c: char, code: seq<string>): (r: seq<string>)
    requires code != []
    ensures |r| == |code|
  {
    [[c] + code[0]] + code[1..]
  }

  // ---------------------------------------------------------------- counting through the code

  /** The counters where one first drops below zero. */
  function Fall(c: Counts, t: string): Counts
    requires !Safe(c, t)
    decreases t
  {
    if !c.Bump(t[0]).NonNegative() then c.Bump(t[0]) else Fall(c.Bump(t[0]), t[1..])
  }

  datatype Tally = Through(counts: Counts) | Fell(line: nat, counts: Counts)

  function Count(c: Counts, code: seq<string>, at: nat): Tally
    decreases code
  {
    if code == [] then Through(c)
    else if Safe(c, code[0]) then Count(After(c, code[0]), code[1..], at + 1)
    else Fell(at + 1, Fall(c, code[0]))
  }

  lemma CountBlank(c: Counts, code: seq<string>, at: nat)
    ensures Count(c, [""] + code, at) == Count(c, code, at + 1)
  {
    assert ([""] + code)[1..] == code;
  }

  lemma {:induction false} CountBlanks(c: Counts, n: nat, code: seq<string>, at: nat)
    ensures Count(c, Blanks(n) + code, at) == Count(c, code, at + n)
  {
    if n == 0 {
      assert Blanks(n) + code == code;
    } else {
      CountBlanks(c, n - 1, code, at + 1);
      assert Blanks(n) + code == [""] + (Blanks(n - 1) + code);
      CountBlank(c, Blanks(n - 1) + code, at);
    }
  }

  lemma CountPrepend(c: Counts, ch: char, code: seq<string>, at: nat)
    requires code != []
    ensures Count(c, Prepend(ch, code), at) ==
            if c.Bump(ch).NonNegative() then Count(c.Bump(ch), code, at) else Fell(at + 1, c.Bump(ch))
  {
    var t, d := [ch] + code[0], c.Bump(ch);
    assert t[1..] == code[0] && Prepend(ch, code)[1..] == code[1..];
    assert Safe(c, t) <==> d.NonNegative() && Safe(d, code[0]);
    assert After(c, t) == After(d, code[0]);
  }

  // ---------------------------------------------------------------- the scanner counts through the code

  predicate Agrees(p: Progress, t: Tally) {
    match p
    case Running(s) => t == Through(s.counts)
    case Stopped(line, counts) => t == Fell(line, counts)
  }

  lemma ScanEmpty(s: Scanner, lines: seq<string>, at: nat)
    requires lines != [] && lines[0] == []
    ensures ScanLines(s, lines, at) == ScanLines(s, lines[1..], at + 1)
  {
  }

  /** The first character of the first line. */
  lemma ScanFirst(s: Scanner, lines: seq<string>, at: nat)
    requires lines != [] && lines[0] != []
    ensures var c := lines[0][0];
            var t := s.Step(c);
            ScanLines(s, lines, at) ==
              if s.Plain() && !t.counts.NonNegative() then Stopped(at + 1, t.counts)
              else if s.StartsLineComment(c) then ScanLines(t, lines[1..], at + 1)
              else ScanLines(t, Drop(lines), at)
  {
    assert Drop(lines)[0] == lines[0][1..] && Drop(lines)[1..] == lines[1..];
  }

  lemma {:induction false} ScanQuote(s: Scanner, lines: seq<string>, at: nat, quote: char)
    requires !s.inBlock && (if s.inDouble then quote == '"' else s.inSingle && quote == '\'')
    requires !(s.inDouble && s.inSingle)
    ensures var rest := AfterQuote(lines, quote, s.prev);
            var p := ScanLines(s, lines, at);
            if rest == [] then p.Running? && p.scanner.counts == s.counts
            else p == ScanLines(Scanner(s.counts, false, false, false, quote), rest, at + |lines| - |rest|)
    decreases Size(lines)
  {
    if lines != [] {
      if lines[0] == [] {
        ScanEmpty(s, lines, at);
        ScanQuote(s, lines[1..], at + 1, quote);
      } else {
        ScanFirst(s, lines, at);
        if !(lines[0][0] == quote && s.prev != '\\') {
          ScanQuote(s.Step(lines[0][0]), Drop(lines), at, quote);
        }
      }
    }
  }

  lemma {:induction false} ScanComment(s: Scanner, lines: seq<string>, at: nat)
    requires s.inBlock && !s.inDouble && !s.inSingle
    ensures var rest := AfterComment(lines, s.prev);
            var p := ScanLines(s, lines, at);
            if rest == [] then p.Running? && p.scanner.counts == s.counts
            else p == ScanLines(Scanner(s.counts, false, false, false, '/'), rest, at + |lines| - |rest|)
    decreases Size(lines)
  {
    if lines != [] {
      if lines[0] == [] {
        ScanEmpty(s, lines, at);
        ScanComment(s, lines[1..], at + 1);
      } else {
        ScanFirst(s, lines, at);
        if !(s.prev == '*' && lines[0][0] == '/') {
          ScanComment(s.Step(lines[0][0]), Drop(lines), at);
        }
      }
    }
  }

  /** A string or comment hides what lies before `rest`. */
  lemma Hidden(p: Progress, c: Counts, n: nat, rest: seq<string>, slash: bool, at: nat)
    requires rest == [] ==> p.Running? && p.scanner.counts == c
    requires rest != [] ==> Agrees(p, Count(c, Code(rest, slash), at + n))
    ensures Agrees(p, Count(c, Blanks(n) + Code(rest, slash), at))
  {
    CountBlanks(c, n, Code(rest, slash), at);
  }

  lemma {:induction false} ScanCode(s: Scanner, lines: seq<string>, at: nat)
    requires s.Plain() && s.counts.NonNegative()
    ensures Agrees(ScanLines(s, lines, at), Count(s.counts, Code(lines, s.prev == '/'), at))
    decreases Size(lines)
  {
    if lines != [] {
      if lines[0] == [] {
        ScanEmpty(s, lines, at);
        ScanCode(s, lines[1..], at + 1);
        CountBlank(s.counts, Code(lines[1..], s.prev == '/'), at);
      } else {
        ScanCodeFirst(s, lines, at);
      }
    }
  }

  lemma {:induction false} ScanCodeFirst(s: Scanner, lines: seq<string>, at: nat)
    requires s.Plain() && s.counts.NonNegative() && lines != [] && lines[0] != []
    ensures Agrees(ScanLines(s, lines, at), Count(s.counts, Code(lines, s.prev == '/'), at))
    decreases Size(lines), 1
  {
    var c, slash := lines[0][0], s.prev == '/';
    if c == '"' || c == '\'' {
      ScanOverString(s, lines, at, c);
    } else if slash && c == '/' {
      ScanFirst(s, lines, at);
      ScanCode(s.Step(c), lines[1..], at + 1);
      CountBlank(s.counts, Code(lines[1..], true), at);
    } else if slash && c == '*' {
      ScanOverComment(s, lines, at);
    } else {
      ScanOverChar(s, lines, at, c);
    }
  }

  lemma {:induction false} ScanOverString(s: Scanner, lines: seq<string>, at: nat, c: char)
    requires s.Plain() && s.counts.NonNegative() && lines != [] && lines[0] != []
    requires lines[0][0] == c && (c == '"' || c == '\'')
    ensures Agrees(ScanLines(s, lines, at), Count(s.counts, Code(lines, s.prev == '/'), at))
    decreases Size(lines), 0
  {
    var tail := Drop(lines);
    var rest := AfterQuote(tail, c, c);
    ScanFirst(s, lines, at);
    ScanQuote(s.Step(c), tail, at, c);
    if rest != [] {
      ScanCode(Scanner(s.counts, false, false, false, c), rest, at + |lines| - |rest|);
    }
    Hidden(ScanLines(s, lines, at), s.counts, |lines| - |rest|, rest, false, at);
  }

  lemma {:induction false} ScanOverComment(s: Scanner, lines: seq<string>, at: nat)
    requires s.Plain() && s.counts.NonNegative() && lines != [] && lines[0] != []
    requires s.prev == '/' && lines[0][0] == '*'
    ensures Agrees(ScanLines(s, lines, at), Count(s.counts, Code(lines, true), at))
    decreases Size(lines), 0
  {
    var tail := Drop(lines);
    var rest := AfterComment(tail, '*');
    ScanFirst(s, lines, at);
    ScanComment(s.Step('*'), tail, at);
    if rest != [] {
      ScanCode(Scanner(s.counts, false, false, false, '/'), rest, at + |lines| - |rest|);
    }
    Hidden(ScanLines(s, lines, at), s.counts, |lines| - |rest|, rest, true, at);
  }

  lemma {:induction false} ScanOverChar(s: Scanner, lines: seq<string>, at: nat, c: char)
    requires s.Plain() && s.counts.NonNegative() && lines != [] && lines[0] != [] && lines[0][0] == c
    requires c != '"' && c != '\'' && !(s.prev == '/' && (c == '/' || c == '*'))
    ensures Agrees(ScanLines(s, lines, at), Count(s.counts, Code(lines, s.prev == '/'), at))
    decreases Size(lines), 0
  {
    ScanFirst(s, lines, at);
    CountPrepend(s.counts, c, Code(Drop(lines), c == '/'), at);
    if s.counts.Bump(c).NonNegative() {
      ScanCode(s.Step(c), Drop(lines), at);
    }
  }

  // ---------------------------------------------------------------- what is reported

  /** Some prefix closes more than it opened. */
  ghost predicate Overdrawn(t: string) {
    exists i :: 0 <= i <= |t| && Short(t[..i])
  }

  /** More closers than openers of some kind. */
  ghost predicate Short(t: string) {
    exists k: Kind :: Occurrences(t, Opener(k)) < Occurrences(t, Closer(k))
  }

  /** Openers minus closers of a kind. */
  function Surplus(t: string, k: Kind): int {
    Occurrences(t, Opener(k)) - Occurrences(t, Closer(k))
  }

  lemma SafeOrOverdrawn(t: string)
    ensures Safe(ZERO, t) <==> !Overdrawn(t)
  {
    SafePrefixes(ZERO, t);
    forall i | 0 <= i <= |t| ensures After(ZERO, t[..i]).NonNegative() <==> !Short(t[..i]) {
      PrefixCounts(t[..i]);
    }
  }

  /** Counting line by line is counting through the concatenation. */
  lemma {:induction false} CountThrough(done: string, code: seq<string>, at: nat)
    requires Safe(ZERO, done)
    ensures match Count(After(ZERO, done), code, at)
            case Through(c) => Safe(ZERO, done + Concat(code)) && c == After(ZERO, done + Concat(code))
            case Fell(line, c) =>
              && at < line <= at + |code|
              && Safe(ZERO, done + Concat(code[..line - 1 - at]))
              && !Safe(ZERO, done + Concat(code[..line - at]))
              && c == Fall(ZERO, done + Concat(code[..line - at]))
    decreases |code|
  {
    if code == [] {
      assert done + Concat(code) == done;
    } else {
      var c, next := After(ZERO, done), done + code[0];
      AfterAppend(ZERO, done, code[0]);
      if Safe(c, code[0]) {
        CountThrough(next, code[1..], at + 1);
        Reassociate(done, code[0], Concat(code[1..]));
        var r := Count(c, code, at);
        if r.Fell? {
          PrefixConcat(done, code, r.line - 1 - at);
          PrefixConcat(done, code, r.line - at);
        }
      } else {
        FallAppend(ZERO, done, code[0]);
        assert code[..0] == [] && done + Concat(code[..0]) == done;
        assert code[..1] == [code[0]] && Concat([code[0]]) == code[0];
      }
    }
  }

  lemma PrefixConcat(done: string, code: seq<string>, n: nat)
    requires 1 <= n <= |code|
    ensures done + Concat(code[..n]) == done + code[0] + Concat(code[1..][..n - 1])
  {
    assert code[..n][1..] == code[1..][..n - 1];
    Reassociate(done, code[0], Concat(code[1..][..n - 1]));
  }

  lemma {:induction false} FallAppend(c: Counts, a: string, b: string)
    requires Safe(c, a) && !Safe(After(c, a), b)
    ensures !Safe(c, a + b) && Fall(c, a + b) == Fall(After(c, a), b)
    decreases a
  {
    AfterAppend(c, a, b);
    if a == [] {
      assert a + b == b;
    } else {
      assert (a + b)[1..] == a[1..] + b;
      FallAppend(c.Bump(a[0]), a[1..], b);
    }
  }

  /** The counters of a fall are those of the shortest prefix that closes too much. */
  lemma {:induction false} FallPrefix(c: Counts, t: string) returns (i: nat)
    requires !Safe(c, t)
    ensures 1 <= i <= |t| && Fall(c, t) == After(c, t[..i]) && !After(c, t[..i]).NonNegative() && Safe(c, t[..i - 1])
    decreases t
  {
    var d := c.Bump(t[0]);
    if !d.NonNegative() {
      i := 1;
      assert t[..1][1..] == [] && t[..0] == [];
    } else {
      var j := FallPrefix(d, t[1..]);
      i := j + 1;
      assert t[..i][1..] == t[1..][..j] && t[..j][1..] == t[1..][..j - 1];
    }
  }

  /** The code that the check counts. */
  function CodeOf(content: string): seq<string> {
    Code(Lines(content), false)
  }

  /** `Count` decides the check. */
  lemma ErrorIsCount(content: string)
    ensures BalanceError(content) ==
            match Count(ZERO, CodeOf(content), 0)
            case Fell(line, c) => Some(UnmatchedClosing(line, c.round, c.curly, c.square))
            case Through(c) =>
              if c == ZERO then None
              else Some(Unbalanced(AtLeastZero(c.round), AtLeastZero(c.curly), AtLeastZero(c.square)))
  {
    ScanCode(Fresh('\0'), Lines(content), 0);
  }

  /** The check accepts exactly the texts whose code is balanced. */
  lemma AcceptedExactly(content: string)
    ensures BalanceError(content) == None <==> Balanced(Concat(CodeOf(content)))
  {
    var code := CodeOf(content);
    ErrorIsCount(content);
    CountThrough("", code, 0);
    assert "" + Concat(code) == Concat(code);
    NestedIsBalanced(Concat(code));
    if Count(ZERO, code, 0).Fell? {
      var line := Count(ZERO, code, 0).line;
      assert "" + Concat(code[..line]) == Concat(code[..line]);
      FellIsOverdrawn(code, line);
    }
  }

  /** The shortest prefix that closes too much, and its counters. */
  lemma ShortestShort(upto: string) returns (i: nat)
    requires !Safe(ZERO, upto)
    ensures 1 <= i <= |upto| && !Overdrawn(upto[..i - 1]) && Short(upto[..i])
    ensures Fall(ZERO, upto) ==
            Counts(Surplus(upto[..i], Round), Surplus(upto[..i], Curly), Surplus(upto[..i], Square))
  {
    i := FallPrefix(ZERO, upto);
    SafeOrOverdrawn(upto[..i - 1]);
    PrefixCounts(upto[..i]);
    SurplusIs(upto[..i]);
  }

  lemma SurplusIs(t: string)
    ensures After(ZERO, t) == Counts(Surplus(t, Round), Surplus(t, Curly), Surplus(t, Square))
  {
    AfterCounts(ZERO, t, Round);
    AfterCounts(ZERO, t, Curly);
    AfterCounts(ZERO, t, Square);
  }

  /** An unmatched closing bracket is reported on the first line up to which the code closes more than it opened, with
      the openers minus closers of the shortest such prefix. */
  lemma UnmatchedExactly(content: string) returns (i: nat)
    requires BalanceError(content).Some? && BalanceError(content).value.UnmatchedClosing?
    ensures var e, code := BalanceError(content).value, CodeOf(content);
            && 1 <= e.line <= |code|
            && !Overdrawn(Concat(code[..e.line - 1]))
            && var upto := Concat(code[..e.line]);
               && 1 <= i <= |upto| && !Overdrawn(upto[..i - 1]) && Short(upto[..i])
               && e == UnmatchedClosing(e.line, Surplus(upto[..i], Round), Surplus(upto[..i], Curly),
                                        Surplus(upto[..i], Square))
  {
    var code := CodeOf(content);
    ErrorIsCount(content);
    CountThrough("", code, 0);
    var line := Count(ZERO, code, 0).line;
    var before, upto := Concat(code[..line - 1]), Concat(code[..line]);
    assert "" + before == before && "" + upto == upto;
    SafeOrOverdrawn(before);
    i := ShortestShort(upto);
  }

  /** What lies behind a fall does not undo it. */
  lemma FellIsOverdrawn(code: seq<string>, line: nat)
    requires line <= |code| && !Safe(ZERO, Concat(code[..line]))
    ensures !Safe(ZERO, Concat(code))
  {
    assert code == code[..line] + code[line..];
    ConcatAppend(code[..line], code[line..]);
    AfterAppend(ZERO, Concat(code[..line]), Concat(code[line..]));
  }

  /** Otherwise the brackets left open are reported, by kind. */
  lemma UnbalancedExactly(content: string)
    ensures var all, e := Concat(CodeOf(content)), BalanceError(content);
            (e.Some? && e.value.Unbalanced?) <==> !Overdrawn(all) && exists k: Kind :: Surplus(all, k) != 0
    ensures var all, e := Concat(CodeOf(content)), BalanceError(content);
            e.Some? && e.value.Unbalanced? ==>
              e.value == Unbalanced(Surplus(all, Round), Surplus(all, Curly), Surplus(all, Square))
  {
    var code := CodeOf(content);
    var all := Concat(code);
    ErrorIsCount(content);
    CountThrough("", code, 0);
    assert "" + all == all;
    SafeOrOverdrawn(all);
    SurplusIs(all);
    SomeSurplus(all);
    if Count(ZERO, code, 0).Fell? {
      var line := Count(ZERO, code, 0).line;
      assert "" + Concat(code[..line]) == Concat(code[..line]);
      FellIsOverdrawn(code, line);
    } else {
      SafeEnds(ZERO, all);
    }
  }

  lemma SomeSurplus(t: string)
    ensures (exists k: Kind :: Surplus(t, k) != 0) <==> After(ZERO, t) != ZERO
  {
    SurplusIs(t);
    assert Surplus(t, Round) != 0 || Surplus(t, Curly) != 0 || Surplus(t, Square) != 0 <==> After(ZERO, t) != ZERO;
  }

  // ---------------------------------------------------------------- unclosed strings

  /** The quote that is still open at the end of a line: quotes after a backslash neither open nor close a string. */
  function Dangling(line: string, prev: char): Option<char>
    decreases |line|
  {
    if line == [] then None
    else if (line[0] == '"' || line[0] == '\'') && prev != '\\' then
      var rest := AfterQuote([line[1..]], line[0], line[0]);
      OneLineLeft([line[1..]], line[0], line[0]);
      if rest == [] then Some(line[0]) else Dangling(rest[0], line[0])
    else Dangling(line[1..], line[0])
  }

  lemma {:induction false} OneLineLeft(lines: seq<string>, quote: char, prev: char)
    requires |lines| == 1
    ensures var rest := AfterQuote(lines, quote, prev); rest == [] || (|rest| == 1 && |rest[0]| < |lines[0]|)
    decreases |lines[0]|
  {
    if lines[0] != [] && !(lines[0][0] == quote && prev != '\\') {
      OneLineLeft(Drop(lines), quote, lines[0][0]);
    }
  }

  /** Inside a string: what follows its end decides. */
  lemma {:induction false} InsideString(line: string, prev: char, quote: char)
    requires quote == '"' || quote == '\''
    ensures var rest := AfterQuote([line], quote, prev);
            LeavesStringOpen(line, quote == '"', quote == '\'', prev) <==>
            if rest == [] then quote == '"' else |rest| == 1 && LeavesStringOpen(rest[0], false, false, quote)
    decreases |line|
  {
    if line != [] {
      assert Drop([line]) == [line[1..]];
      if !(line[0] == quote && prev != '\\') {
        InsideString(line[1..], line[0], quote);
      }
    }
  }

  lemma {:induction false} OpenExactly(line: string, prev: char)
    ensures LeavesStringOpen(line, false, false, prev) <==> Dangling(line, prev) == Some('"')
    decreases |line|
  {
    if line != [] {
      var c := line[0];
      if (c == '"' || c == '\'') && prev != '\\' {
        InsideString(line[1..], c, c);
        OneLineLeft([line[1..]], c, c);
        var rest := AfterQuote([line[1..]], c, c);
        if rest != [] {
          OpenExactly(rest[0], c);
        }
      } else {
        OpenExactly(line[1..], c);
      }
    }
  }

  /** The second check passes exactly when no line ends inside a double-quoted string. */
  lemma StringsExactly(content: string)
    ensures StringsClosed(content) <==> forall line :: line in Lines(content) ==> Dangling(line, '\0') != Some('"')
  {
    var lines := Lines(content);
    forall line ensures ClosedLine(line) <==> Dangling(line, '\0') != Some('"') {
      OpenExactly(line, '\0');
    }
    if StringsClosed(content) {
      forall line | line in lines ensures Dangling(line, '\0') != Some('"') {
        var i :| 0 <= i < |lines| && lines[i] == line;
        assert ClosedLine(lines[i]);
      }
    } else {
      var i :| 0 <= i < |lines| && !ClosedLine(lines[i]);
      assert lines[i] in lines;
    }
  }

  /** The whole gate: unknown languages pass; otherwise the code must be balanced and no line may end inside a
      double-quoted string. */
  lemma GateExactly(content: string, language: Language)
    ensures Passes(content, language) <==>
            || language.Unknown?
            || (Balanced(Concat(CodeOf(content))) && forall line :: line in Lines(content) ==>
                Dangling(line, '\0') != Some('"'))
  {
    AcceptedExactly(content);
    StringsExactly(content);
  }
}

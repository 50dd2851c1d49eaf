/** The gate that a text must pass before it is accepted: a bracket scanner that knows
    strings and comments, and a per-line check for an unclosed string.
    Rust, TypeScript and JavaScript get exactly these two checks. */
module SyntaxGate {
  import opened Text

  datatype Language = Rust | TypeScript | JavaScript | Unknown

  datatype SyntaxError =
    | UnmatchedClosing(line: nat, round: int, curly: int, square: int)
    | Unbalanced(round: int, curly: int, square: int)
    | UnclosedString(line: nat)

  datatype CheckResult = Valid | Invalid(errors: seq<SyntaxError>) | Skipped {
    predicate IsValid() {
      Valid? || Skipped?
    }
  }

  // ---------------------------------------------------------------- bracket counters

  /** Open brackets of each kind. */
  datatype Counts = Counts(round: int, curly: int, square: int) {
    predicate NonNegative() {
      round >= 0 && curly >= 0 && square >= 0
    }

    function Sum(): int {
      round + curly + square
    }

    function Plus(o: Counts): Counts {
      Counts(round + o.round, curly + o.curly, square + o.square)
    }

    function Bump(ch: char): Counts {
      match ch
      case '(' => this.(round := round + 1)
      case ')' => this.(round := round - 1)
      case '{' => this.(curly := curly + 1)
      case '}' => this.(curly := curly - 1)
      case '[' => this.(square := square + 1)
      case ']' => this.(square := square - 1)
      case _ => this
    }
  }

  const ZERO := Counts(0, 0, 0)

  /** The counters after reading a text as plain characters. */
  function After(c: Counts, t: string): Counts
    decreases t
  {
    if t == [] then c else After(c.Bump(t[0]), t[1..])
  }

  /** No counter drops below zero on the way. */
  predicate Safe(c: Counts, t: string)
    decreases t
  {
    t == [] || (c.Bump(t[0]).NonNegative() && Safe(c.Bump(t[0]), t[1..]))
  }

  /** Read as plain characters from nothing open, the text never closes too much and ends with nothing open. */
  predicate Nested(t: string) {
    Safe(ZERO, t) && After(ZERO, t) == ZERO
  }

  // ---------------------------------------------------------------- the bracket scanner

  datatype Scanner = Scanner(counts: Counts, inDouble: bool, inSingle: bool, inBlock: bool, prev: char) {
    /** Outside every string and comment. */
    predicate Plain() {
      !inDouble && !inSingle && !inBlock
    }

    predicate StartsLineComment(ch: char) {
      Plain() && ch == '/' && prev == '/'
    }

    /** One character outside a line comment. */
    function Step(ch: char): Scanner {
      if inBlock then
        this.(inBlock := !(prev == '*' && ch == '/'), prev := ch)
      else if inDouble then
        this.(inDouble := !(ch == '"' && prev != '\\'), prev := ch)
      else if inSingle then
        this.(inSingle := !(ch == '\'' && prev != '\\'), prev := ch)
      else if ch == '"' then
        this.(inDouble := true, prev := ch)
      else if ch == '\'' then
        this.(inSingle := true, prev := ch)
      else if ch == '*' && prev == '/' then
        this.(inBlock := true, prev := ch)
      else
        this.(counts := counts.Bump(ch), prev := ch)
    }
  }

  /** Nothing open, in plain mode, remembering one previous character. */
  function Fresh(prev: char): Scanner {
    Scanner(ZERO, false, false, false, prev)
  }

  datatype Progress = Running(scanner: Scanner) | Stopped(line: nat, counts: Counts)

  /** One line; a line comment hides what follows it, and leaves `prev` at the second slash. */
  function ScanLine(s: Scanner, line: string, at: nat): Progress
    decreases line
  {
    if line == [] then Running(s)
    else
      var t := s.Step(line[0]);
      if s.Plain() && !t.counts.NonNegative() then Stopped(at + 1, t.counts)
      else if s.StartsLineComment(line[0]) then Running(t)
      else ScanLine(t, line[1..], at)
  }

  function ScanLines(s: Scanner, lines: seq<string>, at: nat): Progress
    decreases lines
  {
    if lines == [] then Running(s)
    else
      match ScanLine(s, lines[0], at)
      case Running(t) => ScanLines(t, lines[1..], at + 1)
      case Stopped(_, _) => ScanLine(s, lines[0], at)
  }

  function AtLeastZero(n: int): int {
    if n < 0 then 0 else n
  }

  function BalanceError(content: string): Option<SyntaxError> {
    match ScanLines(Fresh('\0'), Lines(content), 0)
    case Stopped(line, c) => Some(UnmatchedClosing(line, c.round, c.curly, c.square))
    case Running(s) =>
      if s.counts == ZERO then None
      else Some(Unbalanced(AtLeastZero(s.counts.round), AtLeastZero(s.counts.curly), AtLeastZero(s.counts.square)))
  }

  lemma ScanLineFrom(s: Scanner, line: string, k: nat, at: nat)
    requires k < |line|
    ensures var t := s.Step(line[k]);
            ScanLine(s, line[k..], at) ==
              if s.Plain() && !t.counts.NonNegative() then Stopped(at + 1, t.counts)
              else if s.StartsLineComment(line[k]) then Running(t)
              else ScanLine(t, line[k + 1..], at)
  {
    assert line[k..][1..] == line[k + 1..];
  }

  lemma ScanLinesFrom(s: Scanner, lines: seq<string>, k: nat)
    requires k < |lines|
    ensures ScanLines(s, lines[k..], k) ==
              match ScanLine(s, lines[k], k)
              case Running(t) => ScanLines(t, lines[k + 1..], k + 1)
              case Stopped(_, _) => ScanLine(s, lines[k], k)
  {
    assert lines[k..][1..] == lines[k + 1..];
  }

  /** The scanner as it is written: counters and mode flags updated character by character. */
  method CheckBracketBalance(content: string) returns (error: Option<SyntaxError>)
    ensures error == BalanceError(content)
  {
    var round, curly, square := 0, 0, 0;
    var inDouble, inSingle, inBlock := false, false, false;
    var prev := '\0';
    var lines := Lines(content);
    for lineIdx := 0 to |lines|
      invariant ScanLines(Fresh('\0'), lines, 0)
             == ScanLines(Scanner(Counts(round, curly, square), inDouble, inSingle, inBlock, prev),
                          lines[lineIdx..], lineIdx)
    {
      var line := lines[lineIdx];
      var lineComment := false;
      ghost var entry := Scanner(Counts(round, curly, square), inDouble, inSingle, inBlock, prev);
      ScanLinesFrom(entry, lines, lineIdx);
      for k := 0 to |line|
        invariant lineComment ==> !inBlock
        invariant ScanLine(entry, line, lineIdx)
               == ScanLine(Scanner(Counts(round, curly, square), inDouble, inSingle, inBlock, prev),
                           if lineComment then [] else line[k..], lineIdx)
      {
        var ch := line[k];
        ScanLineFrom(Scanner(Counts(round, curly, square), inDouble, inSingle, inBlock, prev), line, k, lineIdx);
        if inBlock {
          if prev == '*' && ch == '/' {
            inBlock := false;
          }
          prev := ch;
          continue;
        }
        if lineComment {
          break;
        }
        if inDouble {
          if ch == '"' && prev != '\\' {
            inDouble := false;
          }
          prev := ch;
          continue;
        }
        if inSingle {
          if ch == '\'' && prev != '\\' {
            inSingle := false;
          }
          prev := ch;
          continue;
        }
        match ch {
          case '"' => inDouble := true;
          case '\'' => inSingle := true;
          case '/' => if prev == '/' { lineComment := true; }
          case '*' => if prev == '/' { inBlock := true; }
          case '(' => round := round + 1;
          case ')' => round := round - 1;
          case '{' => curly := curly + 1;
          case '}' => curly := curly - 1;
          case '[' => square := square + 1;
          case ']' => square := square - 1;
          case _ =>
        }
        if round < 0 || curly < 0 || square < 0 {
          return Some(UnmatchedClosing(lineIdx + 1, round, curly, square));
        }
        prev := ch;
      }
    }
    if round != 0 || curly != 0 || square != 0 {
      error := Some(Unbalanced(AtLeastZero(round), AtLeastZero(curly), AtLeastZero(square)));
    } else {
      error := None;
    }
  }

  // ---------------------------------------------------------------- unclosed strings

  /** Whether a double-quoted string is open at the end of the line. */
  predicate LeavesStringOpen(line: string, inDouble: bool, inSingle: bool, prev: char) {
    if line == [] then inDouble
    else
      var ch := line[0];
      if ch == '"' && !inSingle && prev != '\\' then LeavesStringOpen(line[1..], !inDouble, inSingle, ch)
      else if ch == '\'' && !inDouble && prev != '\\' then LeavesStringOpen(line[1..], inDouble, !inSingle, ch)
      else LeavesStringOpen(line[1..], inDouble, inSingle, ch)
  }

  predicate ClosedLine(line: string) {
    !LeavesStringOpen(line, false, false, '\0')
  }

  predicate StringsClosed(content: string) {
    forall i :: 0 <= i < |Lines(content)| ==> ClosedLine(Lines(content)[i])
  }

  /** The first line that leaves a string open is the one reported. */
  method CheckUnclosedString(content: string) returns (error: Option<SyntaxError>)
    ensures error.None? <==> StringsClosed(content)
    ensures error.Some? ==>
              && error.value.UnclosedString?
              && 1 <= error.value.line <= |Lines(content)|
              && !ClosedLine(Lines(content)[error.value.line - 1])
              && forall i :: 0 <= i < error.value.line - 1 ==> ClosedLine(Lines(content)[i])
  {
    var lines := Lines(content);
    for idx := 0 to |lines|
      invariant forall i :: 0 <= i < idx ==> ClosedLine(lines[i])
    {
      var line := lines[idx];
      var inDouble, inSingle, prev := false, false, '\0';
      for k := 0 to |line|
        invariant LeavesStringOpen(line, false, false, '\0') == LeavesStringOpen(line[k..], inDouble, inSingle, prev)
      {
        var ch := line[k];
        if ch == '"' && !inSingle && prev != '\\' {
          inDouble := !inDouble;
        } else if ch == '\'' && !inDouble && prev != '\\' {
          inSingle := !inSingle;
        }
        prev := ch;
      }
      assert line[|line|..] == [];
      if inDouble {
        assert !ClosedLine(Lines(content)[idx]);
        return Some(UnclosedString(idx + 1));
      }
    }
    error := None;
  }

  // ---------------------------------------------------------------- the gate

  /** What the Rust, TypeScript and JavaScript checks accept. */
  predicate Accepts(content: string) {
    BalanceError(content) == None && StringsClosed(content)
  }

  predicate Passes(content: string, language: Language) {
    language.Unknown? || Accepts(content)
  }

  /** Both checks run: an unbalanced bracket is reported before an unclosed string, and neither hides the other. */
  method Check(content: string, language: Language) returns (r: CheckResult)
    ensures r.IsValid() <==> Passes(content, language)
    ensures r.Skipped? <==> language.Unknown?
    ensures r.Invalid? ==>
              var balance := BalanceError(content);
              && r.errors != []
              && |r.errors| == (if balance.Some? then 1 else 0) + (if StringsClosed(content) then 0 else 1)
              && (balance.Some? ==> r.errors[0] == balance.value)
              && (!StringsClosed(content) <==> r.errors[|r.errors| - 1].UnclosedString?)
  {
    if language.Unknown? {
      return Skipped;
    }
    var errors := [];
    var e := CheckBracketBalance(content);
    if e.Some? {
      errors := errors + [e.value];
    }
    e := CheckUnclosedString(content);
    if e.Some? {
      errors := errors + [e.value];
    }
    r := if errors == [] then Valid else Invalid(errors);
  }
}

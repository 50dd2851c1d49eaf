/** What the gate means. `Balanced` counts brackets prefix by prefix and knows nothing of the
    scanner; on text without quotes and slashes the gate accepts exactly the balanced texts.
    On any text, pieces that close everything they open can be concatenated freely. */
module GateTheory {
  import opened Text
  import opened SyntaxGate

  // ---------------------------------------------------------------- counting, independently of the scanner

  datatype Kind = Round | Curly | Square

  function Opener(k: Kind): char {
    match k case Round => '(' case Curly => '{' case Square => '['
  }

  function Closer(k: Kind): char {
    match k case Round => ')' case Curly => '}' case Square => ']'
  }

  function Occurrences(t: string, c: char): nat {
    if t == [] then 0 else (if t[0] == c then 1 else 0) + Occurrences(t[1..], c)
  }

  /** Every prefix has at least as many openers as closers of each kind, and the whole text has as many. */
  ghost predicate Balanced(t: string) {
    forall k: Kind ::
      && Occurrences(t, Opener(k)) == Occurrences(t, Closer(k))
      && forall i :: 0 <= i <= |t| ==> Occurrences(t[..i], Opener(k)) >= Occurrences(t[..i], Closer(k))
  }

  /** Text in which the scanner never leaves plain mode. */
  predicate Neutral(t: string) {
    '"' !in t && '\'' !in t && '/' !in t
  }

  function Of(c: Counts, k: Kind): int {
    match k case Round => c.round case Curly => c.curly case Square => c.square
  }

  lemma {:induction false} AfterCounts(c: Counts, t: string, k: Kind)
    ensures Of(After(c, t), k) == Of(c, k) + Occurrences(t, Opener(k)) - Occurrences(t, Closer(k))
    decreases t
  {
    if t != [] {
      AfterCounts(c.Bump(t[0]), t[1..], k);
    }
  }

  lemma {:induction false} SafePrefixes(c: Counts, t: string)
    requires c.NonNegative()
    ensures Safe(c, t) <==> forall i :: 0 <= i <= |t| ==> After(c, t[..i]).NonNegative()
    decreases t
  {
    if t != [] {
      var d := c.Bump(t[0]);
      forall i | 1 <= i <= |t| ensures After(c, t[..i]) == After(d, t[1..][..i - 1]) {
        assert t[..i][1..] == t[1..][..i - 1];
      }
      if d.NonNegative() {
        SafePrefixes(d, t[1..]);
        if forall i :: 0 <= i <= |t| ==> After(c, t[..i]).NonNegative() {
          forall j | 0 <= j <= |t[1..]| ensures After(d, t[1..][..j]).NonNegative() {
            assert After(c, t[..j + 1]).NonNegative();
          }
        }
      } else {
        assert After(c, t[..1]) == After(d, t[1..][..0]) == d;
      }
    }
  }

  lemma PrefixCounts(t: string)
    ensures After(ZERO, t).NonNegative() <==> forall k: Kind :: Occurrences(t, Opener(k)) >= Occurrences(t, Closer(k))
    ensures After(ZERO, t) == ZERO <==> forall k: Kind :: Occurrences(t, Opener(k)) == Occurrences(t, Closer(k))
  {
    AfterCounts(ZERO, t, Round);
    AfterCounts(ZERO, t, Curly);
    AfterCounts(ZERO, t, Square);
  }

  /** The counters of `Nested` are the bracket counts of `Balanced`. */
  lemma NestedIsBalanced(t: string)
    ensures Nested(t) <==> Balanced(t)
  {
    SafePrefixes(ZERO, t);
    forall i | 0 <= i <= |t|
      ensures After(ZERO, t[..i]).NonNegative()
         <==> forall k: Kind :: Occurrences(t[..i], Opener(k)) >= Occurrences(t[..i], Closer(k))
    {
      PrefixCounts(t[..i]);
    }
    PrefixCounts(t);
  }

  // ---------------------------------------------------------------- algebra of Safe and After

  lemma {:induction false} AfterAppend(c: Counts, a: string, b: string)
    ensures After(c, a + b) == After(After(c, a), b)
    ensures Safe(c, a + b) <==> Safe(c, a) && Safe(After(c, a), b)
    decreases a
  {
    if a == [] {
      assert a + b == b;
    } else {
      assert (a + b)[1..] == a[1..] + b;
      AfterAppend(c.Bump(a[0]), a[1..], b);
    }
  }

  /** What is already open only helps. */
  lemma {:induction false} AfterShift(c: Counts, d: Counts, t: string)
    requires d.NonNegative()
    ensures After(c.Plus(d), t) == After(c, t).Plus(d)
    ensures Safe(c, t) ==> Safe(c.Plus(d), t)
    decreases t
  {
    if t != [] {
      assert c.Plus(d).Bump(t[0]) == c.Bump(t[0]).Plus(d);
      AfterShift(c.Bump(t[0]), d, t[1..]);
    }
  }

  lemma {:induction false} SafeEnds(c: Counts, t: string)
    requires c.NonNegative() && Safe(c, t)
    ensures After(c, t).NonNegative()
    decreases t
  {
    if t != [] {
      SafeEnds(c.Bump(t[0]), t[1..]);
    }
  }

  lemma NestedInside(c: Counts, m: string)
    requires c.NonNegative() && Nested(m)
    ensures Safe(c, m) && After(c, m) == c
  {
    AfterShift(ZERO, c, m);
    assert ZERO.Plus(c) == c;
  }

  lemma NestedAppend(a: string, b: string)
    requires Nested(a) && Nested(b)
    ensures Nested(a + b)
  {
    AfterAppend(ZERO, a, b);
  }

  lemma {:induction false} NestedConcat(parts: seq<string>)
    requires forall i :: 0 <= i < |parts| ==> Nested(parts[i])
    ensures Nested(Concat(parts))
  {
    if parts != [] {
      NestedConcat(parts[1..]);
      NestedAppend(parts[0], Concat(parts[1..]));
    }
  }

  /** Wherever it stands, a nested fragment may be replaced by another one. */
  lemma NestedSubstitute(pre: string, old_: string, new_: string, post: string)
    requires Nested(pre + old_ + post) && Nested(old_) && Nested(new_)
    ensures Nested(pre + new_ + post)
  {
    var c := After(ZERO, pre);
    AfterAppend(ZERO, pre + old_, post);
    AfterAppend(ZERO, pre, old_);
    AfterAppend(ZERO, pre + new_, post);
    AfterAppend(ZERO, pre, new_);
    SafeEnds(ZERO, pre);
    NestedInside(c, old_);
    NestedInside(c, new_);
  }

  /** One combined depth is enough to cut: if it is zero, so is each of the three counters. */
  lemma NestedCut(a: string, b: string)
    requires Nested(a + b) && After(ZERO, a).Sum() == 0
    ensures Nested(a) && Nested(b)
  {
    AfterAppend(ZERO, a, b);
    SafeEnds(ZERO, a);
  }

  // ---------------------------------------------------------------- the gate on neutral text

  /** In plain mode with these counters, and not after a slash. */
  predicate PlainAt(p: Progress, c: Counts) {
    p.Running? && p.scanner.Plain() && p.scanner.prev != '/' && p.scanner.counts == c
  }

  lemma {:induction false} NeutralLine(s: Scanner, line: string, at: nat)
    requires PlainAt(Running(s), s.counts) && Neutral(line)
    ensures if Safe(s.counts, line) then PlainAt(ScanLine(s, line, at), After(s.counts, line))
            else ScanLine(s, line, at).Stopped?
    decreases line
  {
    if line != [] {
      var t := s.Step(line[0]);
      assert t == Scanner(s.counts.Bump(line[0]), false, false, false, line[0]);
      if t.counts.NonNegative() {
        NeutralLine(t, line[1..], at);
      }
    }
  }

  lemma LineEnd(c: Counts, eol: string)
    requires c.NonNegative() && (eol == "\n" || eol == "\r\n")
    ensures Safe(c, eol) && After(c, eol) == c
  {
    assert eol == "\r\n" ==> eol[1..] == "\n";
    assert Safe(c, "\n") && After(c, "\n") == c;
  }

  /** Line terminators carry no brackets, so scanning the lines is reading the text. */
  lemma {:induction false} NeutralLines(s: Scanner, t: string, at: nat)
    requires PlainAt(Running(s), s.counts) && s.counts.NonNegative() && Neutral(t)
    ensures if Safe(s.counts, t) then PlainAt(ScanLines(s, Lines(t), at), After(s.counts, t))
            else ScanLines(s, Lines(t), at).Stopped?
    decreases |t|
  {
    if t != [] {
      var i := LineFeed(t);
      if i == |t| {
        assert Lines(t) == [t];
        NeutralLine(s, t, at);
      } else {
        var line := StripCr(t[..i]);
        var eol, rest := t[|line|..i + 1], t[i + 1..];
        assert t == line + eol + rest;
        assert eol == "\n" || eol == "\r\n";
        assert Lines(t) == [line] + Lines(rest);
        AfterAppend(s.counts, line + eol, rest);
        AfterAppend(s.counts, line, eol);
        NeutralLine(s, line, at);
        if Safe(s.counts, line) {
          SafeEnds(s.counts, line);
          LineEnd(After(s.counts, line), eol);
          NeutralLines(ScanLine(s, line, at).scanner, rest, at + 1);
        }
      }
    }
  }

  lemma {:induction false} NeutralClosed(line: string, prev: char)
    requires Neutral(line)
    ensures !LeavesStringOpen(line, false, false, prev)
    decreases line
  {
    if line != [] {
      NeutralClosed(line[1..], line[0]);
    }
  }

  lemma {:induction false} NeutralInLines(t: string)
    requires Neutral(t)
    ensures forall i :: 0 <= i < |Lines(t)| ==> Neutral(Lines(t)[i])
    decreases |t|
  {
    if t != [] {
      var i := LineFeed(t);
      if i < |t| {
        var line := StripCr(t[..i]);
        assert forall k :: 0 <= k < |line| ==> line[k] == t[k];
        NeutralInLines(t[i + 1..]);
      }
    }
  }

  /** On neutral text the gate accepts exactly the balanced texts. */
  lemma NeutralGate(t: string)
    requires Neutral(t)
    ensures Accepts(t) <==> Balanced(t)
    ensures Accepts(t) <==> Nested(t)
  {
    NeutralLines(Fresh('\0'), t, 0);
    NestedIsBalanced(t);
    NeutralInLines(t);
    forall i | 0 <= i < |Lines(t)| ensures ClosedLine(Lines(t)[i]) {
      NeutralClosed(Lines(t)[i], '\0');
    }
  }

  // ---------------------------------------------------------------- the gate on any text

  /** Entered in plain mode after `prev`, the piece ends in plain mode with nothing open. */
  predicate Closes(t: string, prev: char) {
    var r := ScanLines(Fresh(prev), Lines(t), 0);
    r.Running? && r.scanner.Plain() && r.scanner.counts == ZERO
  }

  /** The character the scanner remembers after the piece. */
  function Leaves(t: string, prev: char): char
    requires Closes(t, prev)
  {
    ScanLines(Fresh(prev), Lines(t), 0).scanner.prev
  }

  /** Whole-line pieces that close what they open. A slash at the end of one piece can pair with the start
      of the next, so either no piece ends in one or every piece also closes when entered after one. */
  ghost predicate Composable(parts: set<string>) {
    && (forall t :: t in parts ==> Terminated(t) && StringsClosed(t) && Closes(t, '\0'))
    && (|| (forall t :: t in parts ==> Leaves(t, '\0') != '/')
        || (forall t :: t in parts ==> Closes(t, '/')))
  }

  lemma {:induction false} ScanAppend(s: Scanner, a: seq<string>, b: seq<string>, at: nat)
    ensures var r := ScanLines(s, a, at);
            ScanLines(s, a + b, at) == if r.Running? then ScanLines(r.scanner, b, at + |a|) else r
    decreases a
  {
    if a == [] {
      assert a + b == b;
    } else {
      assert (a + b)[0] == a[0] && (a + b)[1..] == a[1..] + b;
      var r := ScanLine(s, a[0], at);
      if r.Running? {
        ScanAppend(r.scanner, a[1..], b, at + 1);
      }
    }
  }

  /** Only the line reported depends on where the scan starts counting. */
  lemma {:induction false} ScanShift(s: Scanner, lines: seq<string>, at: nat, at': nat)
    ensures var r, r' := ScanLines(s, lines, at), ScanLines(s, lines, at');
            (r.Running? <==> r'.Running?) && (r.Running? ==> r == r')
    decreases lines
  {
    if lines != [] {
      LineShift(s, lines[0], at, at');
      var r := ScanLine(s, lines[0], at);
      if r.Running? {
        ScanShift(r.scanner, lines[1..], at + 1, at' + 1);
      }
    }
  }

  lemma {:induction false} LineShift(s: Scanner, line: string, at: nat, at': nat)
    ensures var r, r' := ScanLine(s, line, at), ScanLine(s, line, at');
            (r.Running? <==> r'.Running?) && (r.Running? ==> r == r')
    decreases line
  {
    if line != [] {
      LineShift(s.Step(line[0]), line[1..], at, at');
    }
  }

  /** In plain mode the remembered character matters only when it is a slash. */
  lemma {:induction false} PrevIrrelevant(lines: seq<string>, p: char, q: char, at: nat)
    requires p != '/' && q != '/'
    ensures var r, r' := ScanLines(Fresh(p), lines, at), ScanLines(Fresh(q), lines, at);
            r == r' || (r == Running(Fresh(p)) && r' == Running(Fresh(q)))
    decreases lines
  {
    if lines != [] {
      var line := lines[0];
      if line == [] {
        PrevIrrelevant(lines[1..], p, q, at + 1);
      } else {
        assert Fresh(p).Step(line[0]) == Fresh(q).Step(line[0]);
        assert ScanLine(Fresh(p), line, at) == ScanLine(Fresh(q), line, at);
      }
    }
  }

  /** Entered after any character a composable family can leave, a piece closes and leaves such a character. */
  lemma PieceCloses(parts: set<string>, t: string, p: char)
    requires Composable(parts) && t in parts
    requires p == '/' ==> forall u :: u in parts ==> Closes(u, '/')
    ensures Closes(t, p)
    ensures Leaves(t, p) == '/' ==> forall u :: u in parts ==> Closes(u, '/')
  {
    if p != '/' {
      PrevIrrelevant(Lines(t), p, '\0', 0);
    }
  }

  lemma ClosesAppend(t: string, rest: string, p: char)
    requires Terminated(t) && StringsClosed(t) && StringsClosed(rest) && Closes(t, p) && Closes(rest, Leaves(t, p))
    ensures Closes(t + rest, p) && StringsClosed(t + rest)
  {
    LinesAppend(t, rest);
    ClosedAppend(Lines(t), Lines(rest), t + rest);
    ScanClosed(p, Lines(t), Lines(rest), Leaves(t, p));
  }

  lemma ClosedAppend(a: seq<string>, b: seq<string>, s: string)
    requires Lines(s) == a + b
    requires (forall i :: 0 <= i < |a| ==> ClosedLine(a[i])) && (forall i :: 0 <= i < |b| ==> ClosedLine(b[i]))
    ensures StringsClosed(s)
  {
  }

  /** Scanning on after a piece that closed. */
  lemma ScanClosed(p: char, a: seq<string>, b: seq<string>, q: char)
    requires ScanLines(Fresh(p), a, 0) == Running(Fresh(q))
    requires ScanLines(Fresh(q), b, 0).Running?
    ensures ScanLines(Fresh(p), a + b, 0) == ScanLines(Fresh(q), b, 0)
  {
    ScanAppend(Fresh(p), a, b, 0);
    ScanShift(Fresh(q), b, 0, |a|);
  }

  lemma {:induction false} ComposeFrom(parts: set<string>, ts: seq<string>, p: char)
    requires Composable(parts) && forall i :: 0 <= i < |ts| ==> ts[i] in parts
    requires p == '/' ==> forall u :: u in parts ==> Closes(u, '/')
    ensures Closes(Concat(ts), p) && StringsClosed(Concat(ts))
    decreases ts
  {
    if ts != [] {
      var t, rest := ts[0], Concat(ts[1..]);
      PieceCloses(parts, t, p);
      ComposeFrom(parts, ts[1..], Leaves(t, p));
      ClosesAppend(t, rest, p);
    }
  }

  /** Any text put together from composable pieces, in any order and with repetition, passes the gate. */
  lemma ComposedPasses(parts: set<string>, ts: seq<string>)
    requires Composable(parts) && forall i :: 0 <= i < |ts| ==> ts[i] in parts
    ensures Accepts(Concat(ts))
  {
    ComposeFrom(parts, ts, '\0');
  }

  /** Neutral nested pieces made of whole lines are composable. */
  lemma NeutralComposable(parts: set<string>)
    requires forall t :: t in parts ==> Terminated(t) && Neutral(t) && Nested(t)
    ensures Composable(parts)
  {
    forall t | t in parts ensures StringsClosed(t) && Closes(t, '\0') && Leaves(t, '\0') != '/' {
      NeutralLines(Fresh('\0'), t, 0);
      NeutralGate(t);
    }
  }
}

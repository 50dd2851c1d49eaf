/** Rendering Signal mentions: the placeholders of a text are replaced in place, from right to left. */
module Signal {
  import opened Text

  const PLACEHOLDER := '\U{FFFC}'

  /** A JSON field that may be missing or not a string. */
  datatype Field = Absent | NotText | Value(text: string)

  datatype RawMention = RawMention(start: Option<nat>, length: Option<nat>, number: Field, uuid: Field)

  datatype Mention = Mention(start: nat, length: nat, tag: string)

  /** Defaults, and the tag: the number, or the uuid if there is no number, unless it is blank. */
  function Read(raw: RawMention): Mention {
    var name := if raw.number.Absent? then raw.uuid else raw.number;
    Mention(if raw.start.Some? then raw.start.value else 0,
            if raw.length.Some? then raw.length.value else 1,
            if name.Value? && !Blank(name.text) then "@" + name.text else "@user")
  }

  function ReadAll(raws: seq<RawMention>): (ms: seq<Mention>)
    ensures |ms| == |raws| && forall i :: 0 <= i < |raws| ==> ms[i] == Read(raws[i])
  {
    seq(|raws|, i requires 0 <= i < |raws| => Read(raws[i]))
  }

  function Min(a: nat, b: nat): nat {
    if a < b then a else b
  }

  /** `byte_index_for_char`, in characters: past the end it is the end. */
  function CharIndex(text: string, i: nat): (r: nat)
    ensures r <= |text|
  {
    Min(i, |text|)
  }

  // ---------------------------------------------------------------- the reference: one pass from left to right

  /** The text from `from` on, with the mentions given in ascending order replaced. */
  function LeftToRight(text: string, from: nat, ms: seq<Mention>): string
    requires from <= |text|
    decreases |ms|
  {
    if ms == [] then text[from..]
    else
      var start := Min(ms[0].start, |text|);
      var end := Min(ms[0].start + ms[0].length, |text|);
      (if from <= start then text[from..start] else "") + ms[0].tag + LeftToRight(text, end, ms[1..])
  }

  /** Mentions that start within the text, are not empty, and do not overlap. */
  ghost predicate Spaced(text: string, ms: seq<Mention>) {
    && (forall i :: 0 <= i < |ms| ==> ms[i].start < |text| && ms[i].length >= 1)
    && (forall i, j :: 0 <= i < j < |ms| ==>
          ms[i].start + ms[i].length <= ms[j].start || ms[j].start + ms[j].length <= ms[i].start)
  }

  ghost predicate Ascending(ms: seq<Mention>) {
    forall i, j :: 0 <= i < j < |ms| ==> ms[i].start + ms[i].length <= ms[j].start
  }

  ghost predicate Descending(ms: seq<Mention>) {
    forall i, j :: 0 <= i < j < |ms| ==> ms[j].start <= ms[i].start
  }

  // ---------------------------------------------------------------- as written

  /** Sorting by descending start, modelled as insertion sort. */
  method SortByStart(ms: seq<Mention>) returns (r: seq<Mention>)
    ensures Descending(r) && multiset(r) == multiset(ms)
  {
    r := [];
    for i := 0 to |ms|
      invariant Descending(r) && multiset(r) == multiset(ms[..i])
    {
      var m, k := ms[i], |r|;
      while k > 0 && r[k - 1].start < m.start
        invariant 0 <= k <= |r| && forall a :: k <= a < |r| ==> r[a].start < m.start
      {
        k := k - 1;
      }
      InsertDescending(r, k, m);
      InsertCounts(r, k, m);
      r := r[..k] + [m] + r[k..];
      assert ms[..i + 1] == ms[..i] + [m];
    }
    assert ms[..|ms|] == ms;
  }

  lemma InsertDescending(r: seq<Mention>, k: nat, m: Mention)
    requires Descending(r) && k <= |r|
    requires forall a :: k <= a < |r| ==> r[a].start < m.start
    requires k > 0 ==> m.start <= r[k - 1].start
    ensures Descending(r[..k] + [m] + r[k..])
  {
    var s := r[..k] + [m] + r[k..];
    forall a, b | 0 <= a < b < |s| ensures s[b].start <= s[a].start {
      if b == k && a < k - 1 {
        assert r[k - 1].start <= r[a].start;
      }
    }
  }

  function Backwards(ms: seq<Mention>): (r: seq<Mention>)
    ensures |r| == |ms| && forall i :: 0 <= i < |ms| ==> r[i] == ms[|ms| - 1 - i]
  {
    seq(|ms|, i requires 0 <= i < |ms| => ms[|ms| - 1 - i])
  }

  lemma BackwardsPush(ms: seq<Mention>, m: Mention)
    ensures Backwards(ms + [m]) == [m] + Backwards(ms)
  {
  }

  lemma {:induction false} BackwardsCounts(ms: seq<Mention>)
    ensures multiset(Backwards(ms)) == multiset(ms)
    decreases |ms|
  {
    if ms != [] {
      var front, m := ms[..|ms| - 1], ms[|ms| - 1];
      assert ms == front + [m];
      BackwardsPush(front, m);
      BackwardsCounts(front);
    }
  }

  lemma BackwardsAscends(text: string, ms: seq<Mention>)
    requires Ordered(text, ms)
    ensures Ascending(Backwards(ms))
  {
  }

  /** The replacements, in the order given, on the evolving text: going from right to left it is the left-to-right pass
      over the original text. */
  method ReplaceInTurn(text0: string, ms: seq<Mention>) returns (text: string)
    ensures Ordered(text0, ms) ==> text == LeftToRight(text0, 0, Backwards(ms))
  {
    text := text0;
    ghost var p: nat, done: seq<Mention> := |text0|, [];
    for k := 0 to |ms|
      invariant done == Backwards(ms[..k])
      invariant Ordered(text0, ms) ==> p <= |text0| && text == text0[..p] + LeftToRight(text0, p, done)
      invariant k == 0 ==> done == [] && p == |text0|
      invariant k > 0 ==> done != [] && done[0] == ms[k - 1] && p == done[0].start
    {
      var m := ms[k];
      if Ordered(text0, ms) {
        AddMention(text0, p, done, m, text);
      }
      var start := CharIndex(text, m.start);
      var end := CharIndex(text, m.start + m.length);
      if start <= end && end <= |text| {
        text := text[..start] + m.tag + text[end..];
      }
      assert ms[..k + 1] == ms[..k] + [m];
      BackwardsPush(ms[..k], m);
      p, done := m.start, [m] + done;
    }
    assert ms[..|ms|] == ms;
    if Ordered(text0, ms) {
      ReadAhead(text0, 0, p, done);
    }
  }

  /** `render_signal_mentions`. For spaced mentions, in any order, the in-place rendering is the left-to-right one. */
  method RenderMentions(text0: string, raws: seq<RawMention>) returns (text: string)
    ensures PLACEHOLDER !in text0 ==> text == text0
    ensures PLACEHOLDER in text0 && Spaced(text0, ReadAll(raws)) ==>
              exists ms :: multiset(ms) == multiset(ReadAll(raws)) && Ascending(ms) && text == LeftToRight(text0, 0, ms)
  {
    text := text0;
    if PLACEHOLDER !in text {
      return;
    }
    var sorted := SortByStart(ReadAll(raws));
    if Spaced(text0, ReadAll(raws)) {
      SpacedSorted(text0, ReadAll(raws), sorted);
      BackwardsAscends(text0, sorted);
      BackwardsCounts(sorted);
    }
    text := ReplaceInTurn(text0, sorted);
  }

  /** Descending, with each mention ending before the previous one starts. */
  ghost predicate Ordered(text: string, ms: seq<Mention>) {
    && (forall i :: 0 <= i < |ms| ==> ms[i].start < |text| && ms[i].length >= 1)
    && (forall i, j :: 0 <= i < j < |ms| ==> ms[j].start + ms[j].length <= ms[i].start)
  }

  lemma SpacedSorted(text: string, ms: seq<Mention>, sorted: seq<Mention>)
    requires Spaced(text, ms) && Descending(sorted) && multiset(sorted) == multiset(ms)
    ensures Ordered(text, sorted)
  {
    forall i | 0 <= i < |sorted| ensures sorted[i].start < |text| && sorted[i].length >= 1 {
      assert sorted[i] in multiset(ms);
    }
    forall i, j | 0 <= i < j < |sorted| ensures sorted[j].start + sorted[j].length <= sorted[i].start {
      PairApart(text, ms, sorted, i, j);
    }
  }

  /** Two entries of a permutation are two different entries of the original. */
  lemma PairApart(text: string, ms: seq<Mention>, sorted: seq<Mention>, i: nat, j: nat)
    requires Spaced(text, ms) && Descending(sorted) && multiset(sorted) == multiset(ms) && i < j < |sorted|
    ensures sorted[j].start + sorted[j].length <= sorted[i].start
  {
    assert sorted[i] in multiset(ms) && sorted[j] in multiset(ms);
    if sorted[i] == sorted[j] {
      Twice(sorted, i, j);
      var a, b := TwicePositions(ms, sorted[i]);
    } else {
      var a :| 0 <= a < |ms| && ms[a] == sorted[i];
      var b :| 0 <= b < |ms| && ms[b] == sorted[j];
    }
  }

  lemma Twice(s: seq<Mention>, i: nat, j: nat)
    requires i < j < |s| && s[i] == s[j]
    ensures multiset(s)[s[i]] >= 2
  {
    assert s == s[..j] + [s[j]] + s[j + 1..];
    assert s[i] in s[..j];
  }

  lemma {:induction false} TwicePositions(s: seq<Mention>, m: Mention) returns (a: nat, b: nat)
    requires multiset(s)[m] >= 2
    ensures a < b < |s| && s[a] == m && s[b] == m
  {
    assert s == [s[0]] + s[1..];
    if s[0] == m {
      assert m in multiset(s[1..]);
      b :| 1 <= b < |s| && s[b] == m;
      a := 0;
    } else {
      a, b := TwicePositions(s[1..], m);
      a, b := a + 1, b + 1;
    }
  }

  lemma CutInTwo(text: string, from: nat, p: nat, end: nat)
    requires from <= p <= end <= |text|
    ensures text[from..end] == text[from..p] + text[p..end]
  {
  }

  lemma LeftToRightStep(text: string, from: nat, ms: seq<Mention>, start: nat, rest: string)
    requires ms != [] && from <= start <= |text| && start == Min(ms[0].start, |text|)
    requires rest == LeftToRight(text, Min(ms[0].start + ms[0].length, |text|), ms[1..])
    ensures LeftToRight(text, from, ms) == text[from..start] + (ms[0].tag + rest)
  {
    Reassociate(text[from..start], ms[0].tag, rest);
  }

  /** Untouched text can be read off first. */
  lemma ReadAhead(text: string, from: nat, p: nat, ms: seq<Mention>)
    requires from <= p <= |text| && (ms == [] || p <= ms[0].start)
    ensures LeftToRight(text, from, ms) == text[from..p] + LeftToRight(text, p, ms)
  {
    if ms == [] {
      CutInTwo(text, from, p, |text|);
    } else {
      var start := Min(ms[0].start, |text|);
      var rest := LeftToRight(text, Min(ms[0].start + ms[0].length, |text|), ms[1..]);
      LeftToRightStep(text, from, ms, start, rest);
      LeftToRightStep(text, p, ms, start, rest);
      CutInTwo(text, from, p, start);
      Reassociate(text[from..p], text[p..start], ms[0].tag + rest);
    }
  }

  /** One replacement in the evolving text is one more mention in the left-to-right rendering. */
  lemma AddMention(text: string, p: nat, asc: seq<Mention>, m: Mention, before: string)
    requires p <= |text| && m.start < |text| && m.length >= 1
    requires asc == [] ==> p == |text|
    requires asc != [] ==> p == asc[0].start && m.start + m.length <= p
    requires before == text[..p] + LeftToRight(text, p, asc)
    ensures var start, end := CharIndex(before, m.start), CharIndex(before, m.start + m.length);
            && start <= end
            && before[..start] + m.tag + before[end..] == text[..m.start] + LeftToRight(text, m.start, [m] + asc)
  {
    var end := Min(m.start + m.length, p);
    if asc == [] {
      assert before == text;
    }
    ReadAhead(text, end, p, asc);
    Splice(text, p, LeftToRight(text, p, asc), m.start, end, m.tag, before);
    FirstMention(text, m, asc, [m] + asc, end);
  }

  lemma FirstMention(text: string, m: Mention, asc: seq<Mention>, ms: seq<Mention>, end: nat)
    requires m.start < |text| && ms == [m] + asc && end == Min(m.start + m.length, |text|)
    ensures LeftToRight(text, m.start, ms) == m.tag + LeftToRight(text, end, asc)
  {
    assert ms[0] == m && ms[1..] == asc;
    assert text[m.start..m.start] + m.tag == m.tag;
  }

  lemma Splice(text: string, p: nat, tail: string, start: nat, end: nat, tag: string, before: string)
    requires start <= end <= p <= |text| && before == text[..p] + tail
    ensures before[..start] + tag + before[end..] == text[..start] + (tag + (text[end..p] + tail))
  {
    assert before[..start] == text[..start];
    assert before[end..] == text[end..p] + tail;
  }

  ghost predicate NonEmpty(ms: seq<Mention>) {
    forall i :: 0 <= i < |ms| ==> ms[i].length >= 1
  }

  /** The ascending order of spaced mentions is unique, so the rendering does not depend on the order given. */
  lemma {:induction false} AscendingUnique(a: seq<Mention>, b: seq<Mention>)
    requires NonEmpty(a) && Ascending(a) && Ascending(b) && multiset(a) == multiset(b)
    ensures a == b
    decreases |a|
  {
    if a == [] {
      assert |multiset(b)| == |b|;
    } else {
      SameFirst(a, b);
      TailAscends(a);
      TailAscends(b);
      TailCounts(a);
      TailCounts(b);
      AscendingUnique(a[1..], b[1..]);
      assert a == [a[0]] + a[1..] && b == [b[0]] + b[1..];
    }
  }

  lemma TailAscends(ms: seq<Mention>)
    requires Ascending(ms) && ms != []
    ensures Ascending(ms[1..]) && (NonEmpty(ms) ==> NonEmpty(ms[1..]))
  {
  }

  lemma SameFirst(a: seq<Mention>, b: seq<Mention>)
    requires NonEmpty(a) && Ascending(a) && Ascending(b) && multiset(a) == multiset(b) && a != []
    ensures b != [] && b[0] == a[0]
  {
    assert a[0] in multiset(b);
    var p :| 0 <= p < |b| && b[p] == a[0];
    assert b[0] in multiset(a);
    var q :| 0 <= q < |a| && a[q] == b[0];
  }

  // ---------------------------------------------------------------- what the left-to-right pass gives

  /** Mentions from `from` on that end, in order, before `to`. */
  ghost predicate Between(ms: seq<Mention>, from: nat, to: nat) {
    && Ascending(ms)
    && forall i :: 0 <= i < |ms| ==> from <= ms[i].start && ms[i].start + ms[i].length <= to
  }

  lemma {:induction false} LastReplaced(text: string, from: nat, ms: seq<Mention>, m: Mention)
    requires from <= m.start < |text| && Between(ms, from, m.start)
    ensures LeftToRight(text, from, ms + [m]) ==
            LeftToRight(text[..m.start], from, ms) + m.tag + text[Min(m.start + m.length, |text|)..]
    decreases |ms|
  {
    if ms == [] {
      OnlyReplaced(text, from, m);
      assert ms + [m] == [m];
    } else {
      RestBetween(ms, from, m.start);
      LastReplaced(text, ms[0].start + ms[0].length, ms[1..], m);
      FirstReplaced(text, from, ms, m);
    }
  }

  lemma OnlyReplaced(text: string, from: nat, m: Mention)
    requires from <= m.start < |text|
    ensures LeftToRight(text, from, [m]) ==
            LeftToRight(text[..m.start], from, []) + m.tag + text[Min(m.start + m.length, |text|)..]
  {
    var rest := text[Min(m.start + m.length, |text|)..];
    assert [m][1..] == [];
    LeftToRightStep(text, from, [m], m.start, rest);
    Reassociate(text[from..m.start], m.tag, rest);
    assert text[..m.start][from..] == text[from..m.start];
  }

  /** The first mention, in front of the others. */
  lemma FirstReplaced(text: string, from: nat, ms: seq<Mention>, m: Mention)
    requires from <= m.start < |text| && ms != [] && Between(ms, from, m.start)
    requires var at := ms[0].start + ms[0].length;
             LeftToRight(text, at, ms[1..] + [m]) ==
             LeftToRight(text[..m.start], at, ms[1..]) + m.tag + text[Min(m.start + m.length, |text|)..]
    ensures LeftToRight(text, from, ms + [m]) ==
            LeftToRight(text[..m.start], from, ms) + m.tag + text[Min(m.start + m.length, |text|)..]
  {
    var h, at, head, all := ms[0], ms[0].start + ms[0].length, text[..m.start], ms + [m];
    var inner, post := LeftToRight(head, at, ms[1..]), text[Min(m.start + m.length, |text|)..];
    assert all[0] == h && all[1..] == ms[1..] + [m];
    LeftToRightStep(text, from, all, h.start, inner + m.tag + post);
    LeftToRightStep(head, from, ms, h.start, inner);
    assert head[from..h.start] == text[from..h.start];
    Regrouped(text[from..h.start], h.tag, inner, m.tag, post);
  }

  lemma Regrouped(a: string, b: string, c: string, d: string, e: string)
    ensures a + (b + (c + d + e)) == a + (b + c) + d + e
  {
  }

  lemma RestBetween(ms: seq<Mention>, from: nat, to: nat)
    requires Between(ms, from, to) && ms != []
    ensures Between(ms[1..], ms[0].start + ms[0].length, to)
  {
  }

  /** Without mentions the text stays; the last mention's characters give way to its tag, what follows it stays, and
      what
      precedes it is rendered with the other mentions. */
  lemma RenderedExactly(text: string, ms: seq<Mention>, m: Mention)
    requires Ascending(ms + [m]) && m.start < |text|
    ensures LeftToRight(text, 0, []) == text
    ensures LeftToRight(text, 0, ms + [m]) ==
            LeftToRight(text[..m.start], 0, ms) + m.tag + text[Min(m.start + m.length, |text|)..]
  {
    var all := ms + [m];
    forall i | 0 <= i < |ms| ensures ms[i].start + ms[i].length <= m.start {
      assert all[i] == ms[i] && all[|ms|] == m;
    }
    assert Ascending(ms) by { assert forall i :: 0 <= i < |ms| ==> all[i] == ms[i]; }
    LastReplaced(text, 0, ms, m);
  }

  /** The number is this text, or there is no number and the uuid is. */
  predicate Names(raw: RawMention, name: string) {
    raw.number == Value(name) || (raw.number.Absent? && raw.uuid == Value(name))
  }

  /** The tag is the name, if there is one that is not blank, and otherwise a stand-in. A mention without a position
      starts the text, one without a length covers one character. */
  lemma ReadExactly(raw: RawMention, name: string)
    ensures var m := Read(raw);
            && m.start == (if raw.start.Some? then raw.start.value else 0)
            && m.length == (if raw.length.Some? then raw.length.value else 1)
            && (Trim(name) != [] && Names(raw, name) ==> m.tag == ['@'] + name)
            && (m.tag == "@user" || exists t :: Trim(t) != [] && m.tag == ['@'] + t && Names(raw, t))
  {
    TrimBlank(name);
    var n := if raw.number.Absent? then raw.uuid else raw.number;
    if n.Value? { TrimBlank(n.text); }
  }
}

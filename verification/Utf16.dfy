/** UTF-16 lengths and slices, as Telegram counts them (section 2.1 of RFC 2781). */
module Utf16 {
  import opened Text

  const USIZE_MAX := 0xFFFF_FFFF_FFFF_FFFF

  /** `char::len_utf16`. */
  function Width(c: char): nat {
    if c as int < 0x10000 then 1 else 2
  }

  /** The code units of one character: itself, or a surrogate pair. */
  function EncodeChar(c: char): (u: seq<nat>)
    ensures |u| == Width(c)
  {
    if c as int < 0x10000 then [c as int]
    else
      var v := c as int - 0x10000;
      [0xD800 + v / 0x400, 0xDC00 + v % 0x400]
  }

  /** A character outside the basic plane is spread over a high and a low surrogate, from which it can be read back. */
  lemma EncodeCharExactly(c: char)
    ensures var u := EncodeChar(c);
            if c as int < 0x10000 then u == [c as int]
            else && |u| == 2 && 0xD800 <= u[0] < 0xDC00 <= u[1] < 0xE000
                 && 0x10000 + (u[0] - 0xD800) * 0x400 + (u[1] - 0xDC00) == c as int
  {
  }

  function Encode(s: string): seq<nat> {
    if s == [] then [] else EncodeChar(s[0]) + Encode(s[1..])
  }

  function Utf16Len(s: string): nat {
    |Encode(s)|
  }

  lemma {:induction false} EncodeAppend(a: string, b: string)
    ensures Encode(a + b) == Encode(a) + Encode(b)
  {
    if a == [] {
      assert a + b == b;
    } else {
      assert (a + b)[1..] == a[1..] + b;
      EncodeAppend(a[1..], b);
    }
  }

  lemma EncodePush(s: string, c: char)
    ensures Encode(s + [c]) == Encode(s) + EncodeChar(c)
  {
    EncodeAppend(s, [c]);
    assert Encode([c]) == EncodeChar(c) + Encode([]);
  }

  /** Code units before character `i`. */
  function UnitsBefore(s: string, i: nat): nat
    requires i <= |s|
  {
    Utf16Len(s[..i])
  }

  lemma UnitsStep(s: string, i: nat)
    requires i < |s|
    ensures UnitsBefore(s, i + 1) == UnitsBefore(s, i) + Width(s[i])
  {
    assert s[..i + 1] == s[..i] + [s[i]];
    EncodePush(s[..i], s[i]);
  }

  lemma {:induction false} UnitsGrow(s: string, i: nat, j: nat)
    requires i < j <= |s|
    ensures UnitsBefore(s, i) < UnitsBefore(s, j)
    decreases j
  {
    UnitsStep(s, j - 1);
    if i < j - 1 {
      UnitsGrow(s, i, j - 1);
    }
  }

  /** A position in code units that falls between two characters, or at an end. */
  ghost predicate Boundary(s: string, units: nat) {
    exists i :: 0 <= i <= |s| && UnitsBefore(s, i) == units
  }

  /** Cutting characters out of a text cuts their code units out of its encoding. */
  lemma SliceEncodes(s: string, i: nat, j: nat)
    requires i <= j <= |s|
    ensures UnitsBefore(s, i) <= UnitsBefore(s, j) <= |Encode(s)|
    ensures Encode(s[i..j]) == Encode(s)[UnitsBefore(s, i)..UnitsBefore(s, j)]
  {
    assert s == s[..j] + s[j..];
    EncodeAppend(s[..j], s[j..]);
    assert s[..j] == s[..i] + s[i..j];
    EncodeAppend(s[..i], s[i..j]);
  }

  /** `substring_by_utf16_units`: a result exactly when both ends fall on character boundaries within the text, and
      then the text whose encoding is the requested slice. Byte offsets are represented by character positions. */
  method SubstringByUtf16Units(text: string, offset: nat, length: nat) returns (r: Option<string>)
    requires Utf16Len(text) <= USIZE_MAX
    ensures r.Some? <==> Boundary(text, offset) && Boundary(text, offset + length)
    ensures r.Some? ==> offset + length <= |Encode(text)| && Encode(r.value) == Encode(text)[offset..offset + length]
  {
    var end := offset + length;
    if end > USIZE_MAX {
      Outside(text, end);
      return None;
    }
    var pos, start, stop := 0, None, None;
    var i := 0;
    while i < |text|
      invariant 0 <= i <= |text| && pos == UnitsBefore(text, i)
      invariant start.None? ==> forall k :: 0 <= k < i ==> UnitsBefore(text, k) != offset
      invariant start.Some? ==> 0 <= start.value <= |text| && UnitsBefore(text, start.value) == offset
      invariant stop.None? && forall k :: 0 <= k < i ==> UnitsBefore(text, k) != end
    {
      if start.None? && pos == offset {
        start := Some(i);
      }
      if stop.None? && pos == end {
        stop := Some(i);
        break;
      }
      UnitsStep(text, i);
      pos := pos + Width(text[i]);
      i := i + 1;
    }
    if start.None? && pos == offset {
      start := Some(i);
    }
    if stop.None? && pos == end {
      stop := Some(i);
    }
    if start.None? || stop.None? {
      forall k | i < k <= |text| ensures UnitsBefore(text, k) > pos {
        UnitsGrow(text, i, k);
      }
      return None;
    }
    if stop.value < start.value {
      UnitsGrow(text, stop.value, start.value);
    }
    SliceEncodes(text, start.value, stop.value);
    r := Some(text[start.value..stop.value]);
  }

  lemma Outside(s: string, units: nat)
    requires units > Utf16Len(s)
    ensures !Boundary(s, units)
  {
    forall i | 0 <= i <= |s| ensures UnitsBefore(s, i) != units {
      SliceEncodes(s, 0, i);
    }
  }
}

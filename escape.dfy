/**
 * Inline style escapes `ESC [ <digits> m` inside a text window's string:
 * stripping them before reflow (`tui_text_extract`), reading one of them
 * while rendering (`tui_string_ansi_extract`) and applying its code to the
 * current letter colour (`tui_string_ansi_handle`).
 */
module Escape {
  import opened Base

  const ESC: char := '\U{1B}'

  /** Drops the characters of an escape up to and including the first 'm'; all of them when there is none. */
  function SkipEscape(s: seq<char>): (r: seq<char>)
    ensures |r| <= |s|
    ensures |s| > 0 ==> |r| < |s|
    decreases |s|
  {
    if s == [] then []
    else if s[0] == 'm' then s[1..]
    else SkipEscape(s[1..])
  }

  /** The plain text of a string: every escape removed, all other characters kept in order. */
  function Plain(s: seq<char>): seq<char>
    decreases |s|
  {
    if s == [] then []
    else if s[0] == ESC then Plain(SkipEscape(s))
    else [s[0]] + Plain(s[1..])
  }

  /** `tui_text_extract`: copies every character outside an escape into a new buffer. */
  method TextExtract(s: seq<char>) returns (text: seq<char>)
    ensures text == Plain(s)
  {
    var length := |s|;
    var buffer := new char[length + 1];
    var textLen := 0;
    ghost var kept: seq<char> := [];
    var index := 0;
    while index < length
      invariant 0 <= textLen <= index <= length + 1 && textLen <= length
      invariant buffer[..textLen] == kept
      invariant kept + Plain(s[Min(index, length)..]) == Plain(s)
    {
      var letter := s[index];
      if letter == ESC {
        var start := index;
        index := EscapeEnd(s, index);
        PlainAfterEscape(s, start, index);
      } else {
        PlainKeeps(s, index);
        assert kept + ([letter] + Plain(s[index + 1..])) == (kept + [letter]) + Plain(s[index + 1..]);
        buffer[textLen] := letter;
        textLen := textLen + 1;
        kept := kept + [letter];
      }
      index := index + 1;
    }
    buffer[textLen] := '\0';
    text := buffer[..textLen];
  }

  /** The scan over an escape: the index of the first 'm' from `start` on, else the end of the string. */
  method EscapeEnd(s: seq<char>, start: int) returns (index: int)
    requires 0 <= start <= |s|
    ensures start <= index <= |s|
    ensures forall k :: start <= k < index ==> s[k] != 'm'
    ensures index == |s| || s[index] == 'm'
  {
    index := start;
    while index < |s| && s[index] != 'm'
      invariant start <= index <= |s|
      invariant forall k :: start <= k < index ==> s[k] != 'm'
    {
      index := index + 1;
    }
  }

  /** A character outside an escape is kept in front of the plain text of the rest. */
  lemma PlainKeeps(s: seq<char>, i: int)
    requires 0 <= i < |s| && s[i] != ESC
    ensures Plain(s[i..]) == [s[i]] + Plain(s[i + 1..])
  {
    assert s[i..][1..] == s[i + 1..];
  }

  /** Skipping an escape passes over characters other than 'm' one by one. */
  lemma {:induction false} SkipEscapeRun(s: seq<char>, i: int, end: int)
    requires 0 <= i <= end <= |s|
    requires forall k :: i <= k < end ==> s[k] != 'm'
    ensures SkipEscape(s[i..]) == SkipEscape(s[end..])
    decreases end - i
  {
    if i < end {
      assert s[i..][1..] == s[i + 1..];
      SkipEscapeRun(s, i + 1, end);
    }
  }

  /**
   * An escape starting at `start` and ending on the 'm' at `end`, or
   * running to the end of the string, contributes nothing.
   */
  lemma PlainAfterEscape(s: seq<char>, start: int, end: int)
    requires 0 <= start <= end <= |s| && start < |s| && s[start] == ESC
    requires forall k :: start <= k < end ==> s[k] != 'm'
    requires end == |s| || s[end] == 'm'
    ensures Plain(s[start..]) == Plain(s[Min(end + 1, |s|)..])
  {
    SkipEscapeRun(s, start, end);
    if end < |s| {
      assert s[end..][1..] == s[end + 1..];
    }
  }

  lemma {:induction false} SkipEscapeSuffix(s: seq<char>)
    ensures exists k :: 0 <= k <= |s| && SkipEscape(s) == s[k..]
    decreases |s|
  {
    if s != [] && s[0] != 'm' {
      SkipEscapeSuffix(s[1..]);
      var k :| 0 <= k <= |s[1..]| && SkipEscape(s[1..]) == s[1..][k..];
      assert s[1..][k..] == s[k + 1..];
    } else if s != [] {
      assert s[1..] == s[1..];
    } else {
      assert SkipEscape(s) == s[0..];
    }
  }

  /** The plain text never holds ESC, is no longer than the string, and only holds characters of the string. */
  lemma {:induction false} PlainShape(s: seq<char>)
    ensures ESC !in Plain(s)
    ensures |Plain(s)| <= |s|
    ensures multiset(Plain(s)) <= multiset(s)
    decreases |s|
  {
    if s != [] {
      if s[0] == ESC {
        SkipEscapeSuffix(s);
        var k :| 0 <= k <= |s| && SkipEscape(s) == s[k..];
        PlainShape(s[k..]);
        assert s == s[..k] + s[k..];
        assert multiset(s) == multiset(s[..k]) + multiset(s[k..]);
      } else {
        PlainShape(s[1..]);
        assert s == [s[0]] + s[1..];
        assert multiset(s) == multiset([s[0]]) + multiset(s[1..]);
      }
    }
  }

  /** A string without ESC is its own plain text. */
  lemma {:induction false} PlainIdentity(s: seq<char>)
    requires ESC !in s
    ensures Plain(s) == s
    decreases |s|
  {
    if s != [] {
      PlainIdentity(s[1..]);
    }
  }

  /** Characters before an escape are kept in order in front of the plain text of the rest. */
  lemma {:induction false} PlainPrefix(a: seq<char>, b: seq<char>)
    requires ESC !in a
    ensures Plain(a + b) == a + Plain(b)
    decreases |a|
  {
    if a != [] {
      assert (a + b)[1..] == a[1..] + b;
      PlainPrefix(a[1..], b);
    } else {
      assert a + b == b;
    }
  }

  lemma {:induction false} SkipUnterminated(r: seq<char>)
    requires 'm' !in r
    ensures SkipEscape(r) == []
    decreases |r|
  {
    if r != [] {
      SkipUnterminated(r[1..]);
    }
  }

  /** An escape with no terminating 'm' swallows the rest of the string. */
  lemma PlainUnterminated(a: seq<char>, r: seq<char>)
    requires ESC !in a && 'm' !in r
    ensures Plain(a + [ESC] + r) == a
  {
    PlainPrefix(a, [ESC] + r);
    assert a + [ESC] + r == a + ([ESC] + r);
    SkipUnterminated([ESC] + r);
  }

  lemma {:induction false} SkipTerminated(body: seq<char>, rest: seq<char>)
    requires 'm' !in body
    ensures SkipEscape(body + ['m'] + rest) == rest
    decreases |body|
  {
    if body != [] {
      assert (body + ['m'] + rest)[1..] == body[1..] + ['m'] + rest;
      SkipTerminated(body[1..], rest);
    } else {
      assert body + ['m'] + rest == ['m'] + rest;
    }
  }

  /** A complete escape `ESC <body> m` contributes nothing to the plain text. */
  lemma PlainDropsEscape(body: seq<char>, rest: seq<char>)
    requires 'm' !in body
    ensures Plain([ESC] + body + ['m'] + rest) == Plain(rest)
  {
    SkipTerminated([ESC] + body, rest);
  }

  /** A word wrapped in a colour escape and a reset escape comes out as the word alone. */
  lemma PlainStyled(code: seq<char>, word: seq<char>)
    requires 'm' !in code && ESC !in word
    ensures Plain([ESC] + code + ['m'] + word + [ESC] + "[0m") == word
  {
    PlainDropsEscape(code, word + [ESC] + "[0m");
    assert [ESC] + code + ['m'] + word + [ESC] + "[0m" == [ESC] + code + ['m'] + (word + [ESC] + "[0m");
    PlainPrefix(word, [ESC] + "[0" + ['m'] + []);
    PlainDropsEscape("[0", []);
    assert word + [ESC] + "[0m" == word + ([ESC] + "[0" + ['m'] + []);
  }

  /** The red example: two escapes around "red" leave exactly "red". */
  lemma PlainExample()
    ensures Plain("\U{1B}[31mred\U{1B}[0m") == "red"
  {
    PlainStyled("[31", "red");
    assert "\U{1B}[31mred\U{1B}[0m" == [ESC] + "[31" + ['m'] + "red" + [ESC] + "[0m";
  }

  /** The characters of an escape after its two-character `ESC [` lead, up to the first 'm'. */
  function EscapeBody(s: seq<char>): (b: seq<char>)
    ensures 'm' !in b && |b| <= |s|
    ensures b == s[..|b|]
    ensures |b| < |s| ==> s[|b|] == 'm'
    decreases |s|
  {
    if s == [] || s[0] == 'm' then [] else [s[0]] + EscapeBody(s[1..])
  }

  /**
   * `tui_string_ansi_extract`: reads the escape that starts with ESC at
   * `index`, skipping two characters, and leaves `index` on its 'm' (or at
   * or past the end when there is none).
   */
  method AnsiExtract(s: seq<char>, index: nat) returns (ansi: seq<char>, next: nat)
    requires index < |s|
    ensures var from := Min(index + 2, |s|);
      ansi == EscapeBody(s[from..]) && next == Max(index + 2, from + |ansi|)
  {
    var length := |s|;
    var buffer := new char[length - index + 1];
    var ansiLen := 0;
    next := index + 2;
    ghost var from := Min(index + 2, length);
    while next < length && s[next] != 'm'
      invariant from + ansiLen <= length && ansiLen <= length - index
      invariant next == Max(index + 2, from + ansiLen)
      invariant buffer[..ansiLen] == s[from..from + ansiLen]
      invariant 'm' !in s[from..from + ansiLen]
      decreases length - next
    {
      buffer[ansiLen] := s[next];
      ansiLen := ansiLen + 1;
      next := next + 1;
    }
    buffer[ansiLen] := '\0';
    ansi := buffer[..ansiLen];
    EscapeBodyPrefix(s[from..], ansi);
  }

  lemma {:induction false} EscapeBodyPrefix(s: seq<char>, b: seq<char>)
    requires |b| <= |s| && 'm' !in b
    requires b == s[..|b|]
    requires |b| == |s| || s[|b|] == 'm'
    ensures EscapeBody(s) == b
    decreases |s|
  {
    if b != [] {
      assert s[0] == b[0];
      EscapeBodyPrefix(s[1..], b[1..]);
    }
  }

  predicate IsDigit(c: char) { '0' <= c <= '9' }

  predicate IsCSpace(c: char)
  {
    c == ' ' || c == '\t' || c == '\n' || c == '\U{B}' || c == '\U{C}' || c == '\r'
  }

  /** Value of the leading decimal digits of `s`, `acc` being the value read so far. */
  function DigitsValue(s: seq<char>, acc: nat): nat
    decreases |s|
  {
    if s == [] || !IsDigit(s[0]) then acc
    else DigitsValue(s[1..], acc * 10 + (s[0] as int - '0' as int))
  }

  /**
   * The C library's `atoi`: leading white space, an optional sign, then
   * decimal digits; no digits read as 0.
   */
  function AtoI(s: seq<char>): int
    decreases |s|
  {
    if s != [] && IsCSpace(s[0]) then AtoI(s[1..])
    else if s != [] && s[0] == '-' then -(DigitsValue(s[1..], 0) as int)
    else if s != [] && s[0] == '+' then DigitsValue(s[1..], 0)
    else DigitsValue(s, 0)
  }

  /** Code 5: the cell reached is where the input cursor goes. */
  const CODE_CURSOR := 5

  /**
   * `tui_string_ansi_handle` on the letter colour: 0 resets to the window's
   * resolved colour, 30 to 37 set the foreground to `code - 30`, 40 to 47 set
   * the background to `code - 40`; every other code, the cursor code 5
   * included, leaves the colour alone.
   */
  function AnsiColor(code: int, color: Color, windowColor: Color): (c: Color)
    ensures code == 0 ==> c == windowColor
    ensures code != 0 ==> c.fg == (if 30 <= code <= 37 then code - 30 else color.fg)
    ensures code != 0 ==> c.bg == (if 40 <= code <= 47 then code - 40 else color.bg)
  {
    if code == 0 then windowColor
    else if 30 <= code <= 37 then color.(fg := code - 30)
    else if 40 <= code <= 47 then color.(bg := code - 40)
    else color
  }

  /**
   * The palette is shifted by one against the escape codes: code 30 gives
   * foreground 0, which is the "none" colour, and 31 gives black; an empty
   * escape `ESC [ m` reads as code 0 and resets the colour.
   */
  lemma AnsiPaletteShift(color: Color, windowColor: Color)
    ensures AnsiColor(AtoI("30"), color, windowColor).fg == COLOR_NONE
    ensures AnsiColor(AtoI("31"), color, windowColor).fg == COLOR_BLACK
    ensures AnsiColor(AtoI(""), color, windowColor) == windowColor
    ensures AtoI("5") == CODE_CURSOR
  {
    assert DigitsValue("30", 0) == DigitsValue("0", 3) == 30;
    assert DigitsValue("31", 0) == DigitsValue("1", 3) == 31;
  }
}

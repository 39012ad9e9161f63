/**
 * The parts of Python's `str` that the job manager and the job scripts rely on:
 * `split()` on whitespace, `split(sep)`, `sep.join`, `strip()`, `lower()`, `int()` of
 * a decimal literal and `str()` of an integer. Whitespace and letter case are those
 * of the characters below 128.
 */
module PyText {
  import opened Wrappers

  /** `str.isspace` on one character below 128. */
  predicate IsSpace(c: char)
  {
    c == ' ' || 9 <= c as int <= 13 || 28 <= c as int <= 31
  }

  predicate NoSpace(s: string)
  {
    forall i :: 0 <= i < |s| ==> !IsSpace(s[i])
  }

  /** The number of whitespace characters s starts with. */
  function LeadingSpaces(s: string): (n: nat)
    ensures n <= |s|
    ensures forall k :: 0 <= k < n ==> IsSpace(s[k])
    ensures n < |s| ==> !IsSpace(s[n])
  {
    if s != [] && IsSpace(s[0]) then 1 + LeadingSpaces(s[1..]) else 0
  }

  /** Where the whitespace s ends with begins. */
  function TrailingStart(s: string): (m: nat)
    ensures m <= |s|
    ensures forall k :: m <= k < |s| ==> IsSpace(s[k])
    ensures 0 < m ==> !IsSpace(s[m - 1])
  {
    if s != [] && IsSpace(s[|s| - 1]) then TrailingStart(s[..|s| - 1]) else |s|
  }

  /** `s.strip()`: s without the whitespace it starts and ends with. */
  function Strip(s: string): (r: string)
    ensures r == [] || (!IsSpace(r[0]) && !IsSpace(r[|r| - 1]))
    ensures r != [] ==> LeadingSpaces(s) < TrailingStart(s) && r == s[LeadingSpaces(s)..TrailingStart(s)]
    ensures r == [] ==> forall k :: 0 <= k < |s| ==> IsSpace(s[k])
  {
    var n := LeadingSpaces(s);
    if n == |s| then []
    else
      var m := TrailingStart(s);
      s[n..m]
  }

  /** A string that neither starts nor ends with whitespace is its own strip. */
  lemma StripKeeps(s: string)
    requires s != [] && !IsSpace(s[0]) && !IsSpace(s[|s| - 1])
    ensures Strip(s) == s
  {
    assert LeadingSpaces(s) == 0;
    assert TrailingStart(s) == |s|;
  }

  /** The longest prefix of s without whitespace. */
  function WordAt(s: string): (w: string)
    ensures |w| <= |s| && w == s[..|w|] && NoSpace(w)
    ensures |w| < |s| ==> IsSpace(s[|w|])
  {
    if s == [] || IsSpace(s[0]) then [] else [s[0]] + WordAt(s[1..])
  }

  /**
   * `s.split()`: the maximal runs of characters that are not whitespace, in order.
   * No word is empty and none holds whitespace.
   */
  function Words(s: string): (ws: seq<string>)
    ensures forall i :: 0 <= i < |ws| ==> ws[i] != [] && NoSpace(ws[i])
    decreases |s|
  {
    var t := s[LeadingSpaces(s)..];
    if t == [] then []
    else
      var w := WordAt(t);
      [w] + Words(t[|w|..])
  }

  /** `sep.join(parts)`: the parts with one separator between each two. */
  function Join(parts: seq<string>, sep: char): string
  {
    if parts == [] then []
    else if |parts| == 1 then parts[0]
    else parts[0] + [sep] + Join(parts[1..], sep)
  }

  lemma JoinTwo(a: string, b: string, sep: char)
    ensures Join([a, b], sep) == a + [sep] + b
  {
    assert [a, b][1..] == [b];
  }

  lemma JoinThree(a: string, b: string, c: string, sep: char)
    ensures Join([a, b, c], sep) == a + [sep] + (b + [sep] + c)
  {
    assert [a, b, c][1..] == [b, c];
    JoinTwo(b, c, sep);
  }

  /** A character put in front of the first part of a join is put in front of the join. */
  lemma JoinCons(c: char, parts: seq<string>, sep: char)
    requires parts != []
    ensures Join([[c] + parts[0]] + parts[1..], sep) == [c] + Join(parts, sep)
  {
    var q := [[c] + parts[0]] + parts[1..];
    assert q[1..] == parts[1..];
  }

  /**
   * `s.split(sep)`: the pieces of s between the separators. There is always at least
   * one piece, no piece holds the separator, and joining them back gives s.
   */
  function Split(s: string, sep: char): (parts: seq<string>)
    ensures |parts| >= 1
    ensures forall i :: 0 <= i < |parts| ==> sep !in parts[i]
    ensures Join(parts, sep) == s
  {
    if s == [] then [[]]
    else
      var rest := Split(s[1..], sep);
      if s[0] == sep then
        assert ([[]] + rest)[1..] == rest;
        [[]] + rest
      else
        JoinCons(s[0], rest, sep);
        assert s == [s[0]] + s[1..];
        [[s[0]] + rest[0]] + rest[1..]
  }

  /** With two pieces or more, the first piece is the text before the first separator. */
  lemma SplitFirst(s: string, sep: char)
    requires |Split(s, sep)| >= 2
    ensures var first := Split(s, sep)[0];
      |first| < |s| && s[..|first| + 1] == first + [sep]
  {
    var parts := Split(s, sep);
    var rest := Join(parts[1..], sep);
    assert s == parts[0] + [sep] + rest;
    assert s[..|parts[0]| + 1] == parts[0] + [sep];
  }

  /** Splitting a join of pieces without the separator gives the pieces back. */
  lemma {:induction false} SplitOfJoin(parts: seq<string>, sep: char)
    requires |parts| >= 1 && forall i :: 0 <= i < |parts| ==> sep !in parts[i]
    ensures Split(Join(parts, sep), sep) == parts
    decreases |Join(parts, sep)|
  {
    var s := Join(parts, sep);
    if parts[0] == [] {
      if |parts| > 1 {
        var tail := parts[1..];
        assert s == [sep] + Join(tail, sep);
        SplitOfJoin(tail, sep);
        assert s[1..] == Join(tail, sep);
        assert parts == [[]] + tail;
      }
    } else {
      var c, u := parts[0][0], parts[0][1..];
      var shorter := [u] + parts[1..];
      assert parts[0] == [c] + u;
      JoinCons(c, shorter, sep);
      assert [[c] + shorter[0]] + shorter[1..] == parts;
      assert s == [c] + Join(shorter, sep);
      forall i | 0 <= i < |shorter|
        ensures sep !in shorter[i]
      {
        if i == 0 {
          assert forall k :: 0 <= k < |u| ==> u[k] == parts[0][k + 1];
        } else {
          assert shorter[i] == parts[i];
        }
      }
      SplitOfJoin(shorter, sep);
      assert s[1..] == Join(shorter, sep);
      assert c != sep by {
        assert parts[0][0] == c;
      }
    }
  }

  /** The first word of a word followed by whitespace or nothing is that word. */
  lemma {:induction false} WordAtPrefix(w: string, rest: string)
    requires NoSpace(w) && (rest == [] || IsSpace(rest[0]))
    ensures WordAt(w + rest) == w
  {
    if w != [] {
      assert (w + rest)[1..] == w[1..] + rest;
      WordAtPrefix(w[1..], rest);
    } else {
      assert w + rest == rest;
    }
  }

  /** Whitespace in front of a string does not change its words. */
  lemma WordsSkipSpace(c: char, s: string)
    requires IsSpace(c)
    ensures Words([c] + s) == Words(s)
  {
    var t := [c] + s;
    assert t[1..] == s;
    assert t[LeadingSpaces(t)..] == s[LeadingSpaces(s)..];
  }

  /** A word followed by whitespace or nothing is the first of the words. */
  lemma WordsOfWordThen(w: string, rest: string)
    requires w != [] && NoSpace(w) && (rest == [] || IsSpace(rest[0]))
    ensures Words(w + rest) == [w] + Words(rest)
  {
    var s := w + rest;
    assert s[0] == w[0];
    assert LeadingSpaces(s) == 0;
    assert s[0..] == s;
    WordAtPrefix(w, rest);
    assert s[|w|..] == rest;
  }

  /** One word in front of a join whose words are known. */
  lemma WordsOfJoinStep(ws: seq<string>)
    requires |ws| > 1 && ws[0] != [] && NoSpace(ws[0])
    requires Words(Join(ws[1..], ' ')) == ws[1..]
    ensures Words(Join(ws, ' ')) == ws
  {
    var tail := Join(ws[1..], ' ');
    assert Join(ws, ' ') == ws[0] + ([' '] + tail);
    WordsOfWordThen(ws[0], [' '] + tail);
    WordsSkipSpace(' ', tail);
    assert ws == [ws[0]] + ws[1..];
  }

  /** Words joined by single spaces split back into the same words. */
  lemma {:induction false} WordsOfJoin(ws: seq<string>)
    requires forall i :: 0 <= i < |ws| ==> ws[i] != [] && NoSpace(ws[i])
    ensures Words(Join(ws, ' ')) == ws
  {
    if |ws| == 1 {
      WordsOfWordThen(ws[0], []);
      assert ws[0] + [] == ws[0];
    } else if |ws| > 1 {
      WordsOfJoin(ws[1..]);
      WordsOfJoinStep(ws);
    }
  }

  /** `str.lower` on one character: ASCII capitals become small letters. */
  function LowerChar(c: char): char
  {
    if 'A' <= c <= 'Z' then (c as int + 32) as char else c
  }

  /** `s.lower()`. */
  function Lower(s: string): (r: string)
    ensures |r| == |s| && forall i :: 0 <= i < |s| ==> r[i] == LowerChar(s[i])
  {
    seq(|s|, i requires 0 <= i < |s| => LowerChar(s[i]))
  }

  /** Lowering twice is lowering once. */
  lemma LowerIdempotent(s: string)
    ensures Lower(Lower(s)) == Lower(s)
  {
    assert forall i :: 0 <= i < |s| ==> LowerChar(LowerChar(s[i])) == LowerChar(s[i]);
  }

  predicate IsDigit(c: char)
  {
    '0' <= c <= '9'
  }

  function DigitValue(c: char): nat
    requires IsDigit(c)
  {
    c as int - '0' as int
  }

  function DigitChar(d: nat): (c: char)
    requires d < 10
    ensures IsDigit(c) && DigitValue(c) == d
  {
    ('0' as int + d) as char
  }

  /**
   * The digits `int()` accepts after the sign: decimal digits, with single underscores
   * allowed between two of them.
   */
  predicate DigitRun(s: string)
  {
    s != [] && IsDigit(s[0]) && IsDigit(s[|s| - 1]) && DigitChars(s) &&
    forall i :: 0 <= i < |s| - 1 && s[i] == '_' ==> s[i + 1] != '_'
  }

  predicate DigitChars(s: string)
  {
    forall i :: 0 <= i < |s| ==> IsDigit(s[i]) || s[i] == '_'
  }

  /** The number the digits of s spell, underscores skipped. */
  function DigitsValue(s: string): nat
    requires DigitChars(s)
  {
    if s == [] then 0
    else
      var init := s[..|s| - 1];
      assert forall i :: 0 <= i < |init| ==> init[i] == s[i];
      if s[|s| - 1] == '_' then DigitsValue(init)
      else 10 * DigitsValue(init) + DigitValue(s[|s| - 1])
  }

  /** `int(s)` in base 10: None where Python raises a ValueError. */
  function ParseInt(s: string): Option<int>
  {
    var t := Strip(s);
    if t != [] && (t[0] == '+' || t[0] == '-') then
      var d := t[1..];
      if DigitRun(d) then
        var v: int := DigitsValue(d);
        Some(if t[0] == '-' then -v else v)
      else None
    else if DigitRun(t) then Some(DigitsValue(t))
    else None
  }

  /** `str(n)` for n >= 0: its decimal digits, without leading zeros. */
  function ShowNat(n: nat): (s: string)
    ensures s != [] && forall i :: 0 <= i < |s| ==> IsDigit(s[i])
  {
    if n < 10 then [DigitChar(n)] else ShowNat(n / 10) + [DigitChar(n % 10)]
  }

  /** `str(n)`: a minus sign for a negative n, then the digits. */
  function ShowInt(n: int): string
  {
    if n < 0 then "-" + ShowNat(-n) else ShowNat(n)
  }

  /** A printed integer is digits and at most a minus sign: no whitespace and no separator. */
  lemma ShowIntPlain(n: int)
    ensures ShowInt(n) != [] && NoSpace(ShowInt(n))
    ensures forall i :: 0 <= i < |ShowInt(n)| ==> IsDigit(ShowInt(n)[i]) || ShowInt(n)[i] == '-'
  {
    var s := ShowInt(n);
    if n < 0 {
      assert forall i :: 1 <= i < |s| ==> s[i] == ShowNat(-n)[i - 1];
    }
  }

  lemma {:induction false} DigitsOfShowNat(n: nat)
    ensures DigitRun(ShowNat(n)) && DigitsValue(ShowNat(n)) == n
  {
    var s := ShowNat(n);
    if n >= 10 {
      DigitsOfShowNat(n / 10);
      assert s[..|s| - 1] == ShowNat(n / 10);
    }
  }

  /** `int(str(n)) == n`: the printed integer parses back. */
  lemma ParseShowInt(n: int)
    ensures ParseInt(ShowInt(n)) == Some(n)
  {
    var s := ShowInt(n);
    if n < 0 {
      DigitsOfShowNat(-n);
      assert s[1..] == ShowNat(-n);
      StripKeeps(s);
    } else {
      DigitsOfShowNat(n);
      StripKeeps(s);
    }
  }
}

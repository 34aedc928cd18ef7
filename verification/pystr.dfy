/** The Python built-ins the inventory store leans on, given a meaning here:
    `str.isspace`, `str.rstrip`, `str.split(sep)` (with its
    inverse `sep.join`), `str.endswith`, `"%s" % n` for an integer and `int(s)`
    for a string. */
module PyStr {

  datatype Option<T> = None | Some(value: T)

  /** Python's `str.isspace` for one character. */
  predicate IsSpace(c: char) {
    c == ' ' || ('\t' <= c <= '\r') || ('\U{1C}' <= c <= '\U{1F}')
    || c == '\U{85}' || c == '\U{A0}' || c == '\U{1680}'
    || ('\U{2000}' <= c <= '\U{200A}') || c == '\U{2028}' || c == '\U{2029}'
    || c == '\U{202F}' || c == '\U{205F}' || c == '\U{3000}'
  }

  /** `s.rstrip()`: drops trailing white space. */
  function RStrip(s: string): (r: string)
    ensures r <= s
    decreases |s|
  {
    if s != [] && IsSpace(s[|s| - 1]) then RStrip(s[..|s| - 1]) else s
  }

  /** `s.rstrip()` is the longest prefix of `s` that does not end in white
      space: what it drops is all white space. */
  lemma {:induction false} RStripSpec(s: string)
    ensures RStrip(s) <= s
    ensures RStrip(s) == [] || !IsSpace(RStrip(s)[|RStrip(s)| - 1])
    ensures forall k :: |RStrip(s)| <= k < |s| ==> IsSpace(s[k])
    decreases |s|
  {
    if s != [] && IsSpace(s[|s| - 1]) {
      RStripSpec(s[..|s| - 1]);
    }
  }

  /** Appending text after a character that is not white space shields that
      character: `(a + b).rstrip() == a + b.rstrip()`. */
  lemma {:induction false} RStripAfter(a: string, b: string)
    requires a != [] && !IsSpace(a[|a| - 1])
    ensures RStrip(a + b) == a + RStrip(b)
    decreases |b|
  {
    if b == [] {
      assert a + b == a;
    } else if IsSpace(b[|b| - 1]) {
      assert (a + b)[..|a + b| - 1] == a + b[..|b| - 1];
      RStripAfter(a, b[..|b| - 1]);
    } else {
      assert (a + b)[|a + b| - 1] == b[|b| - 1];
    }
  }

  /** The white space `int()` skips around its digits: ASCII `" \t\n\v\f\r"`
      and the non-ASCII white space of `str.isspace`. The ASCII separators
      `'\x1c'`..`'\x1f'` count for `str.isspace` but not here. */
  predicate IsIntSpace(c: char) {
    IsSpace(c) && !('\U{1C}' <= c <= '\U{1F}')
  }

  predicate AllIntSpace(s: string) {
    forall k :: 0 <= k < |s| ==> IsIntSpace(s[k])
  }

  /** The text `int()` reads: `s` without the white space around it. */
  function IntTrim(s: string): string
    decreases |s|
  {
    if s != [] && IsIntSpace(s[0]) then IntTrim(s[1..])
    else if s != [] && IsIntSpace(s[|s| - 1]) then IntTrim(s[..|s| - 1])
    else s
  }

  /** `IntTrim(s)` neither starts nor ends with white space. */
  lemma {:induction false} IntTrimEnds(s: string)
    ensures IntTrim(s) == [] || (!IsIntSpace(IntTrim(s)[0]) && !IsIntSpace(IntTrim(s)[|IntTrim(s)| - 1]))
    decreases |s|
  {
    if s != [] && IsIntSpace(s[0]) {
      IntTrimEnds(s[1..]);
    } else if s != [] && IsIntSpace(s[|s| - 1]) {
      IntTrimEnds(s[..|s| - 1]);
    }
  }

  /** `t` sits at position `i` of `s` with only white space around it. */
  predicate SliceAt(s: string, t: string, i: int) {
    0 <= i <= |s| - |t| && s[i..i + |t|] == t && AllIntSpace(s[..i]) && AllIntSpace(s[i + |t|..])
  }

  /** `IntTrim(s)` is a slice of `s`, and everything around it is white
      space. */
  lemma {:induction false} IntTrimSlice(s: string)
    ensures exists i :: SliceAt(s, IntTrim(s), i)
    decreases |s|
  {
    var t := IntTrim(s);
    if s != [] && IsIntSpace(s[0]) {
      IntTrimSlice(s[1..]);
      var j :| SliceAt(s[1..], t, j);
      SliceAtFront(s, t, j);
    } else if s != [] && IsIntSpace(s[|s| - 1]) {
      IntTrimSlice(s[..|s| - 1]);
      var j :| SliceAt(s[..|s| - 1], t, j);
      SliceAtBack(s, t, j);
    } else {
      assert s[0..0 + |t|] == t;
      assert s[..0] == [] && s[0 + |t|..] == [];
      assert SliceAt(s, t, 0);
    }
  }

  lemma SliceAtFront(s: string, t: string, j: int)
    requires s != [] && IsIntSpace(s[0]) && SliceAt(s[1..], t, j)
    ensures SliceAt(s, t, j + 1)
  {
    var u := s[1..];
    assert s[j + 1..j + 1 + |t|] == u[j..j + |t|];
    assert s[j + 1 + |t|..] == u[j + |t|..];
    assert s[..j + 1] == [s[0]] + u[..j];
    SpacePrefix(s[0], u[..j]);
  }

  lemma SliceAtBack(s: string, t: string, j: int)
    requires s != [] && IsIntSpace(s[|s| - 1]) && SliceAt(s[..|s| - 1], t, j)
    ensures SliceAt(s, t, j)
  {
    var u := s[..|s| - 1];
    assert s[j..j + |t|] == u[j..j + |t|];
    assert s[..j] == u[..j];
    assert s[j + |t|..] == u[j + |t|..] + [s[|s| - 1]];
    SpaceSuffix(u[j + |t|..], s[|s| - 1]);
  }

  lemma SpacePrefix(c: char, w: string)
    requires IsIntSpace(c) && AllIntSpace(w)
    ensures AllIntSpace([c] + w)
  {
    assert forall k :: 1 <= k < |w| + 1 ==> ([c] + w)[k] == w[k - 1];
  }

  lemma SpaceSuffix(w: string, c: char)
    requires IsIntSpace(c) && AllIntSpace(w)
    ensures AllIntSpace(w + [c])
  {
    assert forall k :: 0 <= k < |w| ==> (w + [c])[k] == w[k];
  }

  /** `s.split(sep)`: the pieces of `s` between occurrences of `sep`; the
      empty string gives one empty piece. */
  function Split(s: string, sep: char): (fields: seq<string>)
    ensures |fields| >= 1
    decreases |s|
  {
    if s == [] then [[]]
    else
      var rest := Split(s[1..], sep);
      if s[0] == sep then [[]] + rest else [[s[0]] + rest[0]] + rest[1..]
  }

  /** `sep.join(fields)`. */
  function Join(fields: seq<string>, sep: char): string
    requires |fields| >= 1
  {
    if |fields| == 1 then fields[0] else fields[0] + [sep] + Join(fields[1..], sep)
  }

  /** Splitting loses nothing: joining the pieces gives the string back, and
      no piece holds the separator. */
  lemma {:induction false} JoinSplit(s: string, sep: char)
    ensures Join(Split(s, sep), sep) == s
    ensures forall i :: 0 <= i < |Split(s, sep)| ==> sep !in Split(s, sep)[i]
    decreases |s|
  {
    if s != [] {
      var rest := Split(s[1..], sep);
      JoinSplit(s[1..], sep);
      if s[0] == sep {
        assert ([[]] + rest)[1..] == rest;
        assert s == [sep] + s[1..];
      } else {
        var fields := [[s[0]] + rest[0]] + rest[1..];
        if |rest| == 1 {
          assert s == [s[0]] + s[1..];
        } else {
          assert fields[1..] == rest[1..];
          assert Join(rest, sep) == rest[0] + [sep] + Join(rest[1..], sep);
          assert s == [s[0]] + s[1..];
        }
        forall i | 0 <= i < |fields| ensures sep !in fields[i] {
          if i > 0 { assert fields[i] == rest[i]; }
        }
      }
    }
  }

  /** The number of pieces is one more than the number of separators. */
  lemma {:induction false} SplitCount(s: string, sep: char)
    ensures |Split(s, sep)| == multiset(s)[sep] + 1
    decreases |s|
  {
    if s != [] {
      SplitCount(s[1..], sep);
      assert s == [s[0]] + s[1..];
      assert multiset(s) == multiset([s[0]]) + multiset(s[1..]);
    }
  }

  /** A string without the separator is one piece. */
  lemma {:induction false} SplitNoSep(a: string, sep: char)
    requires sep !in a
    ensures Split(a, sep) == [a]
    decreases |a|
  {
    if a != [] {
      SplitNoSep(a[1..], sep);
      assert [a[0]] + a[1..] == a;
    }
  }

  /** A separator-free head splits off as the first piece. */
  lemma {:induction false} SplitAfterHead(a: string, b: string, sep: char)
    requires sep !in a
    ensures Split(a + [sep] + b, sep) == [a] + Split(b, sep)
    decreases |a|
  {
    var s := a + [sep] + b;
    if a == [] {
      assert s == [sep] + b;
      assert s[1..] == b;
    } else {
      assert s[1..] == a[1..] + [sep] + b;
      SplitAfterHead(a[1..], b, sep);
      assert [a[0]] + a[1..] == a;
    }
  }

  /** Splitting inverts joining when no piece holds the separator. */
  lemma {:induction false} SplitJoin(fields: seq<string>, sep: char)
    requires |fields| >= 1
    requires forall i :: 0 <= i < |fields| ==> sep !in fields[i]
    ensures Split(Join(fields, sep), sep) == fields
    decreases |fields|
  {
    if |fields| == 1 {
      SplitNoSep(fields[0], sep);
    } else {
      SplitJoin(fields[1..], sep);
      SplitAfterHead(fields[0], Join(fields[1..], sep), sep);
      assert [fields[0]] + fields[1..] == fields;
    }
  }

  /** `s.endswith(suffix)`. */
  predicate EndsWith(s: string, suffix: string) {
    |suffix| <= |s| && s[|s| - |suffix|..] == suffix
  }

  predicate IsDigit(c: char) {
    '0' <= c <= '9'
  }

  predicate AllDigits(s: string) {
    forall i :: 0 <= i < |s| ==> IsDigit(s[i])
  }

  function DigitChar(d: nat): (c: char)
    requires d < 10
    ensures IsDigit(c)
  {
    ('0' as int + d) as char
  }

  function DigitValue(c: char): nat
    requires IsDigit(c)
  {
    c as int - '0' as int
  }

  /** Decimal digits of a natural number, without leading zeros. */
  function ShowNat(n: nat): (s: string)
    ensures s != [] && AllDigits(s)
    ensures |s| > 1 ==> s[0] != '0'
  {
    if n < 10 then [DigitChar(n)] else ShowNat(n / 10) + [DigitChar(n % 10)]
  }

  /** The number a string of decimal digits denotes. */
  function DigitsValue(s: string): nat
    requires AllDigits(s)
  {
    if s == [] then 0 else DigitsValue(s[..|s| - 1]) * 10 + DigitValue(s[|s| - 1])
  }

  /** `"%s" % n` (equally `str(n)`) for an integer `n`. */
  function ShowInt(n: int): (s: string)
    ensures s != [] && (s[0] == '-' <==> n < 0)
  {
    if n < 0 then "-" + ShowNat(-n) else ShowNat(n)
  }

  /** The text of an integer is a minus sign or a digit followed by digits:
      it holds no comma, no line break and no white space. */
  lemma ShowIntChars(n: int)
    ensures ShowInt(n) != [] && AllDigits(ShowInt(n)[1..])
    ensures ShowInt(n)[0] == '-' || IsDigit(ShowInt(n)[0])
    ensures forall i :: 0 <= i < |ShowInt(n)| ==> !IsSpace(ShowInt(n)[i]) && ShowInt(n)[i] != ','
  {
    if n < 0 {
      assert ShowInt(n)[1..] == ShowNat(-n);
    }
  }

  /** A non-empty run of decimal digits, or nothing. */
  function ParseDigits(s: string): Option<nat> {
    if s != [] && AllDigits(s) then Some(DigitsValue(s)) else None
  }

  /** The text `int()` accepts once the white space around it is gone: a run
      of digits, or a sign followed by at least one digit. */
  predicate IntText(t: string) {
    t != [] && (AllDigits(t) || ((t[0] == '-' || t[0] == '+') && |t| >= 2 && AllDigits(t[1..])))
  }

  /** `int(s)` for a string `s`: surrounding white space is ignored, then an
      optional sign and at least one ASCII decimal digit. */
  function ParseInt(s: string): (r: Option<int>)
    ensures r.Some? <==> IntText(IntTrim(s))
    ensures r.Some? && IntTrim(s)[0] == '-' ==> r.value <= 0
    ensures r.Some? && IntTrim(s)[0] != '-' ==> r.value >= 0
  {
    var t := IntTrim(s);
    if t != [] && t[0] == '-' then
      match ParseDigits(t[1..])
      case Some(n) => Some(-(n as int))
      case None => None
    else if t != [] && t[0] == '+' then
      match ParseDigits(t[1..])
      case Some(n) => Some(n)
      case None => None
    else
      match ParseDigits(t)
      case Some(n) => Some(n)
      case None => None
  }

  /** White space in front of the text does not change what `int()` makes
      of it. */
  lemma ParseIntLeadingSpace(c: char, s: string)
    requires IsIntSpace(c)
    ensures ParseInt([c] + s) == ParseInt(s)
  {
    assert ([c] + s)[1..] == s;
  }

  /** Trimming ignores one more white-space character at the end. */
  lemma {:induction false} IntTrimTrailingSpace(s: string, c: char)
    requires IsIntSpace(c)
    ensures IntTrim(s + [c]) == IntTrim(s)
    decreases |s|
  {
    if s == [] {
      assert [c][1..] == [];
    } else if IsIntSpace(s[0]) {
      assert (s + [c])[1..] == s[1..] + [c];
      IntTrimTrailingSpace(s[1..], c);
    } else {
      assert (s + [c])[..|s|] == s;
    }
  }

  /** Nor does white space after it. */
  lemma ParseIntTrailingSpace(s: string, c: char)
    requires IsIntSpace(c)
    ensures ParseInt(s + [c]) == ParseInt(s)
  {
    IntTrimTrailingSpace(s, c);
  }

  lemma {:induction false} DigitsOfShowNat(n: nat)
    ensures DigitsValue(ShowNat(n)) == n
  {
    if n >= 10 {
      var s := ShowNat(n);
      assert s[..|s| - 1] == ShowNat(n / 10);
      DigitsOfShowNat(n / 10);
    }
  }

  /** `int(str(n)) == n` for every integer. */
  lemma IntRoundTrip(n: int)
    ensures ParseInt(ShowInt(n)) == Some(n)
  {
    var s := ShowInt(n);
    ShowIntChars(n);
    assert IntTrim(s) == s;
    if n < 0 {
      assert s[1..] == ShowNat(-n);
      DigitsOfShowNat(-n);
    } else {
      DigitsOfShowNat(n);
    }
  }
}

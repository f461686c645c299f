/** Text operations shared by both halves of the system: substring search
    (JavaScript `includes`/`indexOf`, Python `in`), splitting and joining on a
    separator (JavaScript and Python `split` with an explicit separator behave
    alike), Python's `strip()`, and decimal integer text (Python `str(int)`
    and `int(str)`, JavaScript template interpolation of an integer). */
module Strings {
  import opened Wrappers

  // ---------------------------------------------------------------------
  // Substrings

  /** `sub` occurs in `s` starting at index `i`. */
  ghost predicate OccursAt(s: string, sub: string, i: int) {
    0 <= i && i + |sub| <= |s| && s[i..i + |sub|] == sub
  }

  lemma OccursAtZero(s: string, sub: string)
    ensures OccursAt(s, sub, 0) <==> sub <= s
  {
  }

  lemma OccursAtShift(s: string, sub: string, i: int)
    requires |s| > 0 && 0 <= i
    ensures OccursAt(s[1..], sub, i) <==> OccursAt(s, sub, i + 1)
  {
    if 0 <= i && i + |sub| <= |s| - 1 {
      assert s[1..][i..i + |sub|] == s[i + 1..i + 1 + |sub|];
    }
  }

  /** `s.includes(sub)` in JavaScript, `sub in s` in Python. */
  function Includes(s: string, sub: string): (b: bool)
    ensures b <==> exists i :: OccursAt(s, sub, i)
    decreases |s|
  {
    if sub <= s then
      assert OccursAt(s, sub, 0);
      true
    else if s == [] then
      false
    else
      IncludesStep(s, sub);
      Includes(s[1..], sub)
  }

  lemma IncludesStep(s: string, sub: string)
    requires |s| > 0 && !(sub <= s)
    ensures (exists i :: OccursAt(s, sub, i)) <==> (exists i :: OccursAt(s[1..], sub, i))
  {
    OccursAtZero(s, sub);
    if exists i :: OccursAt(s, sub, i) {
      var i :| OccursAt(s, sub, i);
      OccursAtShift(s, sub, i - 1);
    }
    if exists i :: OccursAt(s[1..], sub, i) {
      var i :| OccursAt(s[1..], sub, i);
      OccursAtShift(s, sub, i);
    }
  }

  /** The first index at which `sub` occurs in `s`, if any. */
  function FindFirst(s: string, sub: string): (r: Option<nat>)
    ensures r.Some? ==> OccursAt(s, sub, r.value)
    ensures r.Some? ==> forall j :: 0 <= j < r.value ==> !OccursAt(s, sub, j)
    ensures r.None? <==> !Includes(s, sub)
    decreases |s|
  {
    if sub <= s then
      assert OccursAt(s, sub, 0);
      Some(0)
    else if s == [] then
      None
    else
      IncludesStep(s, sub);
      OccursAtZero(s, sub);
      match FindFirst(s[1..], sub)
      case None => None
      case Some(i) =>
        OccursAtShift(s, sub, i);
        forall j | 0 <= j < i + 1 ensures !OccursAt(s, sub, j) {
          if j > 0 { OccursAtShift(s, sub, j - 1); }
        }
        Some(i + 1)
  }

  /** JavaScript `Array.prototype.indexOf`: the first position of `x`, or -1. */
  function IndexOf<T(==)>(xs: seq<T>, x: T): (r: int)
    ensures -1 <= r < |xs|
    ensures r == -1 <==> x !in xs
    ensures 0 <= r ==> xs[r] == x && x !in xs[..r]
  {
    if xs == [] then -1
    else if xs[0] == x then 0
    else
      var r := IndexOf(xs[1..], x);
      if r == -1 then -1
      else
        assert xs[..r + 1] == [xs[0]] + xs[1..][..r];
        r + 1
  }

  /** An index holding `x` with no `x` before it is the one `IndexOf` finds. */
  lemma {:induction false} IndexOfUnique<T>(xs: seq<T>, x: T, i: nat)
    requires i < |xs| && xs[i] == x && x !in xs[..i]
    ensures IndexOf(xs, x) == i
  {
    if i > 0 {
      assert xs[..i][0] == xs[0];
      assert xs[1..][i - 1] == x;
      assert xs[1..][..i - 1] == xs[..i][1..];
      IndexOfUnique(xs[1..], x, i - 1);
    }
  }

  // ---------------------------------------------------------------------
  // Splitting and joining

  /** `parts` glued together with `sep` between neighbours. */
  function Join(parts: seq<string>, sep: string): string {
    if |parts| == 0 then ""
    else if |parts| == 1 then parts[0]
    else parts[0] + sep + Join(parts[1..], sep)
  }

  /** `s.split(sep)` for a non-empty separator, in JavaScript or Python. */
  function Split(s: string, sep: string): (parts: seq<string>)
    requires |sep| > 0
    ensures |parts| >= 1
    ensures Join(parts, sep) == s
    ensures forall p :: p in parts ==> !Includes(p, sep)
    decreases |s|
  {
    match FindFirst(s, sep)
    case None => [s]
    case Some(i) =>
      var rest := Split(s[i + |sep|..], sep);
      PrefixBeforeFirstHasNoSep(s, sep, i);
      assert s == s[..i] + sep + s[i + |sep|..];
      [s[..i]] + rest
  }

  lemma PrefixBeforeFirstHasNoSep(s: string, sep: string, i: nat)
    requires i <= |s| && |sep| > 0
    requires forall j :: 0 <= j < i ==> !OccursAt(s, sep, j)
    ensures !Includes(s[..i], sep)
  {
    forall j | OccursAt(s[..i], sep, j) ensures OccursAt(s, sep, j) && j < i {
      assert s[..i][j..j + |sep|] == s[j..j + |sep|];
    }
  }

  /** The first occurrence is the only occurrence with none before it. */
  lemma FindFirstIs(s: string, sub: string, k: nat)
    requires OccursAt(s, sub, k)
    requires forall j :: 0 <= j < k ==> !OccursAt(s, sub, j)
    ensures FindFirst(s, sub) == Some(k)
  {
    assert Includes(s, sub);
  }

  /** A one-character separator first occurs right after the first part. */
  lemma JoinFirstSeparator(p0: string, rest: string, c: char)
    requires c !in p0
    ensures FindFirst(p0 + [c] + rest, [c]) == Some(|p0|)
  {
    var s := p0 + [c] + rest;
    assert s[|p0|..|p0| + 1] == [c];
    forall j | 0 <= j < |p0| ensures !OccursAt(s, [c], j) {
      assert s[j] == p0[j] && p0[j] in p0;
      assert s[j..j + 1][0] == s[j];
    }
    FindFirstIs(s, [c], |p0|);
  }

  lemma NoCharNoOccurrence(p: string, c: char)
    requires c !in p
    ensures !Includes(p, [c])
  {
    forall i | 0 <= i < |p| ensures !OccursAt(p, [c], i) {
      assert p[i] in p;
      assert p[i..i + 1][0] == p[i];
    }
  }

  /** Splitting on a one-character separator undoes `Join` when no part
      contains that character. */
  lemma {:induction false} SplitJoin(parts: seq<string>, c: char)
    requires |parts| >= 1
    requires forall p :: p in parts ==> c !in p
    ensures Split(Join(parts, [c]), [c]) == parts
    decreases |parts|
  {
    var s := Join(parts, [c]);
    if |parts| == 1 {
      NoCharNoOccurrence(parts[0], c);
    } else {
      var p0 := parts[0];
      var rest := Join(parts[1..], [c]);
      assert s == p0 + [c] + rest;
      JoinFirstSeparator(p0, rest, c);
      assert s[|p0| + 1..] == rest;
      assert s[..|p0|] == p0;
      SplitJoin(parts[1..], c);
    }
  }

  // ---------------------------------------------------------------------
  // Python whitespace and `strip()`

  /** The characters for which Python's `str.isspace()` holds. */
  predicate IsPyWhitespace(c: char) {
    ('\t' <= c <= '\r') || ('\U{1C}' <= c <= ' ') ||
    c == '\U{85}' || c == '\U{A0}' || c == '\U{1680}' ||
    ('\U{2000}' <= c <= '\U{200A}') || c == '\U{2028}' || c == '\U{2029}' ||
    c == '\U{202F}' || c == '\U{205F}' || c == '\U{3000}'
  }

  /** Python `s.lstrip()`. */
  function LStrip(s: string): (r: string)
    ensures |r| <= |s| && r == s[|s| - |r|..]
    ensures forall i :: 0 <= i < |s| - |r| ==> IsPyWhitespace(s[i])
    ensures r != [] ==> !IsPyWhitespace(r[0])
  {
    if s != [] && IsPyWhitespace(s[0]) then LStrip(s[1..]) else s
  }

  /** Python `s.rstrip()`. */
  function RStrip(s: string): (r: string)
    ensures |r| <= |s| && r == s[..|r|]
    ensures forall i :: |r| <= i < |s| ==> IsPyWhitespace(s[i])
    ensures r != [] ==> !IsPyWhitespace(r[|r| - 1])
  {
    if s != [] && IsPyWhitespace(s[|s| - 1]) then RStrip(s[..|s| - 1]) else s
  }

  /** Python `s.strip()`: `s` without its leading and trailing whitespace. */
  function Strip(s: string): (r: string)
    ensures |r| <= |LStrip(s)| <= |s|
    ensures r == s[|s| - |LStrip(s)|..|s| - |LStrip(s)| + |r|]
    ensures r != [] ==> !IsPyWhitespace(r[0]) && !IsPyWhitespace(r[|r| - 1])
    ensures forall i :: 0 <= i < |s| - |LStrip(s)| ==> IsPyWhitespace(s[i])
    ensures forall i :: |s| - |LStrip(s)| + |r| <= i < |s| ==> IsPyWhitespace(s[i])
  {
    var l := LStrip(s);
    var r := RStrip(l);
    StripFacts(s, l, r);
    r
  }

  lemma StripFacts(s: string, l: string, r: string)
    requires l == LStrip(s) && r == RStrip(l)
    ensures |r| <= |LStrip(s)| <= |s|
    ensures r == s[|s| - |LStrip(s)|..|s| - |LStrip(s)| + |r|]
    ensures r != [] ==> !IsPyWhitespace(r[0]) && !IsPyWhitespace(r[|r| - 1])
    ensures forall i :: 0 <= i < |s| - |LStrip(s)| ==> IsPyWhitespace(s[i])
    ensures forall i :: |s| - |LStrip(s)| + |r| <= i < |s| ==> IsPyWhitespace(s[i])
  {
    assert l[..|r|] == s[|s| - |l|..][..|r|];
    TailWhitespace(s, l, r);
  }

  /** Whitespace after `r` in a suffix `l` of `s` is whitespace in `s`. */
  lemma TailWhitespace(s: string, l: string, r: string)
    requires |l| <= |s| && l == s[|s| - |l|..] && |r| <= |l|
    requires forall i :: |r| <= i < |l| ==> IsPyWhitespace(l[i])
    ensures forall i :: |s| - |l| + |r| <= i < |s| ==> IsPyWhitespace(s[i])
  {
    forall i | |s| - |l| + |r| <= i < |s|
      ensures IsPyWhitespace(s[i])
    {
      assert s[i] == l[i - (|s| - |l|)];
    }
  }

  lemma StripNoWhitespaceEnds(s: string)
    requires s == [] || (!IsPyWhitespace(s[0]) && !IsPyWhitespace(s[|s| - 1]))
    ensures Strip(s) == s
  {
  }

  // ---------------------------------------------------------------------
  // Decimal integers

  predicate IsDigit(c: char) { '0' <= c <= '9' }

  function DigitValue(c: char): nat
    requires IsDigit(c)
  {
    (c as int - '0' as int) as nat
  }

  function DigitChar(d: nat): (c: char)
    requires d < 10
    ensures IsDigit(c) && DigitValue(c) == d
  {
    ('0' as int + d) as char
  }

  /** The value of a string of decimal digits (most significant first). */
  function DigitsValue(s: string): nat
    requires forall i :: 0 <= i < |s| ==> IsDigit(s[i])
  {
    if s == [] then 0 else 10 * DigitsValue(s[..|s| - 1]) + DigitValue(s[|s| - 1])
  }

  /** The shortest decimal text of `n`: Python `str(n)` and JavaScript `${n}`
      for a non-negative integer. */
  function NatToString(n: nat): (s: string)
    ensures |s| >= 1
    ensures forall i :: 0 <= i < |s| ==> IsDigit(s[i])
    ensures |s| > 1 ==> s[0] != '0'
  {
    if n < 10 then [DigitChar(n)] else NatToString(n / 10) + [DigitChar(n % 10)]
  }

  lemma {:induction false} NatToStringValue(n: nat)
    ensures DigitsValue(NatToString(n)) == n
  {
    if n >= 10 {
      var s := NatToString(n);
      assert s[..|s| - 1] == NatToString(n / 10);
      NatToStringValue(n / 10);
    }
  }

  /** Different numbers have different decimal texts. */
  lemma NatToStringInjective(a: nat, b: nat)
    ensures NatToString(a) == NatToString(b) <==> a == b
  {
    NatToStringValue(a);
    NatToStringValue(b);
  }

  /** Python `str(i)` / JavaScript `${i}` for an integer. */
  function IntToString(i: int): string {
    if i < 0 then "-" + NatToString(-i) else NatToString(i)
  }

  /** A Python integer literal body: digits, single underscores allowed
      between two digits. */
  predicate IsDigitGroup(s: string) {
    && |s| >= 1
    && IsDigit(s[0]) && IsDigit(s[|s| - 1])
    && (forall i :: 0 <= i < |s| ==> IsDigit(s[i]) || s[i] == '_')
    && !Includes(s, "__")
  }

  function DropUnderscores(s: string): (r: string)
    ensures forall c :: c in r ==> c in s && c != '_'
    ensures (forall i :: 0 <= i < |s| ==> IsDigit(s[i]) || s[i] == '_') ==>
              forall i :: 0 <= i < |r| ==> IsDigit(r[i])
    ensures (forall i :: 0 <= i < |s| ==> s[i] != '_') ==> r == s
  {
    if s == [] then []
    else (if s[0] == '_' then [] else [s[0]]) + DropUnderscores(s[1..])
  }

  /** Python `int(s)` for a string in base 10: surrounding whitespace is
      ignored, one optional sign, then a digit group; anything else raises
      `ValueError` (here `None`). */
  function PyInt(s: string): (r: Option<int>)
  {
    ParseSignedDigits(Strip(s))
  }

  /** The part of `int(s)` after the whitespace is stripped. */
  function ParseSignedDigits(t: string): (r: Option<int>)
  {
    if |t| >= 1 && (t[0] == '-' || t[0] == '+') then
      if IsDigitGroup(t[1..]) then
        var v: int := DigitsValue(DropUnderscores(t[1..]));
        Some(if t[0] == '-' then -v else v)
      else None
    else if IsDigitGroup(t) then
      Some(DigitsValue(DropUnderscores(t)))
    else None
  }

  lemma DigitsAreGroup(s: string)
    requires |s| >= 1 && forall i :: 0 <= i < |s| ==> IsDigit(s[i])
    ensures IsDigitGroup(s) && DropUnderscores(s) == s
  {
    forall i | 0 <= i && i + 2 <= |s| ensures !OccursAt(s, "__", i) {
      assert s[i..i + 2][0] == s[i] != '_';
    }
  }

  lemma PyIntOfDigits(s: string)
    requires |s| >= 1 && forall i :: 0 <= i < |s| ==> IsDigit(s[i])
    ensures PyInt(s) == Some(DigitsValue(s))
  {
    DigitsAreGroup(s);
    DigitNotWhitespace(s[0]);
    DigitNotWhitespace(s[|s| - 1]);
    StripNoWhitespaceEnds(s);
    assert !(s[0] == '-' || s[0] == '+');
    assert ParseSignedDigits(s) == Some(DigitsValue(DropUnderscores(s)));
  }

  lemma DigitNotWhitespace(c: char)
    requires IsDigit(c)
    ensures !IsPyWhitespace(c)
  {
  }

  /** A minus sign followed by digits parses to the negated digits. */
  lemma PyIntOfNegatedDigits(s: string)
    requires |s| >= 2 && s[0] == '-' && forall i :: 1 <= i < |s| ==> IsDigit(s[i])
    ensures PyInt(s) == Some(-(DigitsValue(s[1..]) as int))
  {
    DigitNotWhitespace(s[|s| - 1]);
    PyIntUnpadded(s);
    DigitsAreGroup(s[1..]);
  }

  /** Without whitespace at either end, `int(s)` parses `s` as it is. */
  lemma PyIntUnpadded(s: string)
    requires s == [] || (!IsPyWhitespace(s[0]) && !IsPyWhitespace(s[|s| - 1]))
    ensures PyInt(s) == ParseSignedDigits(s)
  {
    StripNoWhitespaceEnds(s);
  }

  /** Python's `int(str(i)) == i`. */
  lemma PyIntOfIntToString(i: int)
    ensures PyInt(IntToString(i)) == Some(i)
  {
    var n: nat := if i < 0 then -i else i;
    var d := NatToString(n);
    NatToStringValue(n);
    var v := DigitsValue(d);
    assert v == n;
    if i < 0 {
      var s := "-" + d;
      assert s[1..] == d;
      PyIntOfNegatedDigits(s);
    } else {
      PyIntOfDigits(d);
    }
  }

  /** `s.endswith(suffix)`. */
  predicate EndsWith(s: string, suffix: string) {
    |suffix| <= |s| && s[|s| - |suffix|..] == suffix
  }

  // ---------------------------------------------------------------------
  // Paths

  /** POSIX `os.path.join(a, b)`: an absolute `b` replaces `a`; otherwise
      `b` follows `a`, with a `/` between unless `a` is empty or already
      ends in one. */
  function PathJoin(a: string, b: string): (p: string)
    ensures |b| > 0 && b[0] == '/' ==> p == b
    ensures |p| >= |b| && p[|p| - |b|..] == b
    ensures !(|b| > 0 && b[0] == '/') ==> |p| >= |a| && p[..|a|] == a
    ensures !(|b| > 0 && b[0] == '/') && a != "" && a[|a| - 1] != '/' ==> |p| == |a| + 1 + |b| && p[|a|] == '/'
  {
    if |b| > 0 && b[0] == '/' then b
    else if a == "" || a[|a| - 1] == '/' then a + b
    else a + "/" + b
  }
}

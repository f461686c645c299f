/** The Python values the back end keeps in its dictionaries: the strings
    read from the dataset files, the integer history counter, the list of
    interactions kept per user, and the exceptions the modelled code raises
    or lets propagate. */
module PyValues {
  import opened Wrappers
  import opened Strings
  import opened OrderedMaps

  /** The exceptions the modelled code can raise. */
  datatype PyError = KeyError | ValueError | TypeError | IndexError | AttributeError | EnvironmentError | OSError | StopIteration

  /** One interaction as a user's history stores it: the interaction file's
      columns other than the first and the last, name to value, in header
      order. */
  type Interaction = Entries<string, string>

  /** A value held in a user record or a graph node's attribute bag. */
  datatype PyValue = PStr(s: string) | PInt(i: int) | PHistory(entries: seq<Interaction>)

  /** A Python dict of attributes. */
  type Record = map<string, PyValue>

  // Python `repr` of a string

  /** The quote `repr` chooses: `"` when the text holds `'` but no `"`,
      and `'` otherwise. */
  function ReprQuote(s: string): (q: char)
    ensures q == '"' <==> '\'' in s && '"' !in s
    ensures q == '\'' || q == '"'
  {
    if '\'' in s && '"' !in s then '"' else '\''
  }

  /** The characters up to U+00FF that are not printable and that `repr`
      writes as `\xNN`: the control characters other than tab, newline
      and carriage return, DEL, the C1 controls, the no-break space and the
      soft hyphen. */
  predicate HexEscaped(c: char) {
    (c < ' ' && c != '\t' && c != '\n' && c != '\r') || (0x7F <= c as int <= 0xA0) || c as int == 0xAD
  }

  /** The lower-case hexadecimal digit of `n`. */
  function HexDigit(n: nat): (c: char)
    requires n < 16
    ensures HexValue(c) == n
  {
    if n < 10 then ('0' as int + n) as char else ('a' as int + n - 10) as char
  }

  /** The value of a lower-case hexadecimal digit (0 for any other
      character). */
  function HexValue(c: char): (n: nat)
    ensures n < 16
  {
    if '0' <= c <= '9' then c as int - '0' as int
    else if 'a' <= c <= 'f' then c as int - 'a' as int + 10
    else 0
  }

  /** How `repr` writes one character inside quotes `q`. */
  function EscapeChar(c: char, q: char): string {
    if c == '\\' then ['\\', '\\']
    else if c == q then ['\\', q]
    else if c == '\t' then ['\\', 't']
    else if c == '\n' then ['\\', 'n']
    else if c == '\r' then ['\\', 'r']
    else if HexEscaped(c) then ['\\', 'x', HexDigit(c as int / 16), HexDigit(c as int % 16)]
    else [c]
  }

  /** How `repr` writes a text inside quotes `q`. */
  function Escaped(s: string, q: char): string {
    if s == [] then [] else EscapeChar(s[0], q) + Escaped(s[1..], q)
  }

  /** Python `repr` of a string. */
  function ReprString(s: string): (r: string)
    ensures |r| >= 2 && r[0] == ReprQuote(s) && r[|r| - 1] == ReprQuote(s)
  {
    [ReprQuote(s)] + Escaped(s, ReprQuote(s)) + [ReprQuote(s)]
  }

  /** Reads a quoted text after its opening quote `q`: the characters up to
      the first unescaped `q`, with their escapes undone, and what follows
      that quote. */
  function ReadQuoted(t: string, q: char): (string, string)
    decreases |t|
  {
    if t == [] then ([], [])
    else if t[0] == q then ([], t[1..])
    else if t[0] == '\\' && |t| >= 4 && t[1] == 'x' then
      var r := ReadQuoted(t[4..], q);
      ([(HexValue(t[2]) * 16 + HexValue(t[3])) as char] + r.0, r.1)
    else if t[0] == '\\' && |t| >= 2 then
      var c := if t[1] == 't' then '\t' else if t[1] == 'n' then '\n' else if t[1] == 'r' then '\r' else t[1];
      var r := ReadQuoted(t[2..], q);
      ([c] + r.0, r.1)
    else
      var r := ReadQuoted(t[1..], q);
      ([t[0]] + r.0, r.1)
  }

  lemma ReadEscapeChar(c: char, q: char, rest: string)
    requires q == '\'' || q == '"'
    ensures ReadQuoted(EscapeChar(c, q) + rest, q) == ([c] + ReadQuoted(rest, q).0, ReadQuoted(rest, q).1)
  {
    var t := EscapeChar(c, q) + rest;
    if c == '\\' || c == q || c == '\t' || c == '\n' || c == '\r' {
      assert t[2..] == rest;
    } else if HexEscaped(c) {
      assert t[4..] == rest;
      assert (c as int / 16) * 16 + c as int % 16 == c as int;
    } else {
      assert t[1..] == rest;
    }
  }

  /** Reading back an escaped text closed by its quote gives the text and
      what follows. */
  lemma {:induction false} ReadEscaped(s: string, q: char, rest: string)
    requires q == '\'' || q == '"'
    ensures ReadQuoted(Escaped(s, q) + [q] + rest, q) == (s, rest)
    decreases |s|
  {
    if s == [] {
      assert Escaped(s, q) + [q] + rest == [q] + rest;
    } else {
      assert Escaped(s, q) + [q] + rest == EscapeChar(s[0], q) + (Escaped(s[1..], q) + [q] + rest);
      ReadEscapeChar(s[0], q, Escaped(s[1..], q) + [q] + rest);
      ReadEscaped(s[1..], q, rest);
      assert [s[0]] + s[1..] == s;
    }
  }

  /** No `repr` of a string is a proper prefix of another's: where two
      texts start with string reprs, the strings and the rest agree. */
  lemma ReprStringPrefixFree(s: string, t: string, a: string, b: string)
    requires ReprString(s) + a == ReprString(t) + b
    ensures s == t && a == b
  {
    var x := ReprString(s) + a;
    var q := ReprQuote(s);
    assert x[0] == q && x[0] == ReprQuote(t);
    assert x[1..] == Escaped(s, q) + [q] + a;
    assert x[1..] == Escaped(t, q) + [q] + b;
    ReadEscaped(s, q, a);
    ReadEscaped(t, q, b);
  }

  /** Distinct strings have distinct reprs. */
  lemma ReprStringInjective(s: string, t: string)
    requires ReprString(s) == ReprString(t)
    ensures s == t
  {
    ReprStringPrefixFree(s, t, [], []);
  }

  /** `repr("it's")` is `"it's"`: a text holding only `'` is quoted
      with `"`. */
  lemma ReprQuoteExample()
    ensures ReprString("it's") == "\"it's\""
  {
    var q := ReprQuote("it's");
    assert q == '"' by {
      assert "it's"[2] == '\'';
    }
    assert Escaped("s", q) == "s";
    assert Escaped("'s", q) == "'s";
    assert Escaped("t's", q) == "t's";
    assert Escaped("it's", q) == "it's";
  }

  /** `repr('a\\b')` doubles the backslash. */
  lemma ReprEscapeExample()
    ensures ReprString("a\\b") == "'a\\\\b'"
  {
    assert Escaped("a\\b", '\'') == "a\\\\b";
  }

  /** Python `repr` of a dict of strings, in insertion order. */
  function ReprInteraction(e: Interaction): string {
    "{" + Join(ReprItems(e), ", ") + "}"
  }

  function ReprItems(e: Interaction): (items: seq<string>)
    ensures |items| == |e|
  {
    if e == [] then []
    else [ReprString(e[0].0) + ": " + ReprString(e[0].1)] + ReprItems(e[1..])
  }

  lemma DropCommon<T>(p: seq<T>, x: seq<T>, y: seq<T>)
    requires p + x == p + y
    ensures x == y
  {
    assert x == (p + x)[|p|..];
    assert y == (p + y)[|p|..];
  }

  lemma Regroup5<T>(a: seq<T>, b: seq<T>, c: seq<T>, d: seq<T>, e: seq<T>)
    ensures a + b + c + d + e == a + (b + (c + (d + e)))
  {
  }

  lemma JoinCons(parts: seq<string>, sep: string)
    requires parts != []
    ensures Join(parts, sep) == parts[0] + (if |parts| == 1 then [] else sep + Join(parts[1..], sep))
  {
  }

  /** The items of a non-empty dict text: the first pair, then, if there
      are more, a comma and the rest. */
  lemma ItemsText(e: Interaction)
    requires e != []
    ensures Join(ReprItems(e), ", ") ==
              ReprString(e[0].0) + ": " + ReprString(e[0].1) + (if |e| == 1 then "" else ", " + Join(ReprItems(e[1..]), ", "))
  {
    var items := ReprItems(e);
    assert items[0] == ReprString(e[0].0) + ": " + ReprString(e[0].1);
    assert items[1..] == ReprItems(e[1..]);
    JoinCons(items, ", ");
  }

  /** The items of a dict text closed by `}`, followed by `a`. */
  function Closed(e: Interaction, a: string): string {
    Join(ReprItems(e), ", ") + "}" + a
  }

  /** What follows the first pair of a closed dict text. */
  function AfterFirst(e: Interaction, a: string): string
    requires e != []
  {
    if |e| == 1 then "}" + a else ", " + Closed(e[1..], a)
  }

  lemma ClosedEmpty(a: string)
    ensures Closed([], a) == "}" + a
  {
    assert Join(ReprItems([]), ", ") == [];
  }

  lemma ClosedCons(e: Interaction, a: string)
    requires e != []
    ensures Closed(e, a) == ReprString(e[0].0) + (": " + (ReprString(e[0].1) + AfterFirst(e, a)))
  {
    var items := ReprItems(e);
    var k, v := ReprString(e[0].0), ReprString(e[0].1);
    assert items[0] == k + ": " + v;
    assert items[1..] == ReprItems(e[1..]);
    JoinCons(items, ", ");
    if |e| == 1 {
      GroupOne(k, ": ", v, "}", a);
    } else {
      GroupMany(k, ": ", v, ", ", Join(ReprItems(e[1..]), ", "), "}", a);
    }
  }

  lemma GroupOne<T>(a: seq<T>, b: seq<T>, c: seq<T>, k: seq<T>, x: seq<T>)
    ensures a + b + c + k + x == a + (b + (c + (k + x)))
  {
  }

  lemma GroupMany<T>(a: seq<T>, b: seq<T>, c: seq<T>, s: seq<T>, j: seq<T>, k: seq<T>, x: seq<T>)
    ensures (a + b + c + s + j) + k + x == a + (b + (c + (s + (j + k + x))))
  {
  }

  lemma Regroup3<T>(a: seq<T>, b: seq<T>, c: seq<T>)
    ensures a + b + c == a + (b + c)
  {
  }

  /** An empty dict's closing brace never starts a non-empty dict's
      items, which open with a quote. */
  lemma EmptyNotCons(f: Interaction, a: string, b: string)
    requires f != []
    ensures Closed([], a) != Closed(f, b)
  {
    ClosedEmpty(a);
    ClosedCons(f, b);
    var k := ReprString(f[0].0);
    assert Closed(f, b)[0] == k[0];
  }

  lemma AfterFirstHead(e: Interaction, a: string)
    requires e != []
    ensures |AfterFirst(e, a)| > 0 && AfterFirst(e, a)[0] == if |e| == 1 then '}' else ','
  {
  }

  /** The items of a dict text, closed by `}`, determine the dict and what
      follows. */
  lemma {:induction false} ItemsPrefixFree(e: Interaction, f: Interaction, a: string, b: string)
    requires Closed(e, a) == Closed(f, b)
    ensures e == f && a == b
    decreases |e|
  {
    if e == [] && f == [] {
      ClosedEmpty(a);
      ClosedEmpty(b);
      DropCommon("}", a, b);
    } else if e == [] {
      EmptyNotCons(f, a, b);
    } else if f == [] {
      EmptyNotCons(e, b, a);
    } else {
      ConsCase(e, f, a, b);
      AfterFirstHead(e, a);
      AfterFirstHead(f, b);
      if |e| == 1 && |f| == 1 {
        DropCommon("}", a, b);
        assert e == [e[0]] && f == [f[0]];
      } else if |e| > 1 && |f| > 1 {
        DropCommon(", ", Closed(e[1..], a), Closed(f[1..], b));
        ItemsPrefixFree(e[1..], f[1..], a, b);
        assert e == [e[0]] + e[1..] && f == [f[0]] + f[1..];
      }
    }
  }

  lemma ConsCase(e: Interaction, f: Interaction, a: string, b: string)
    requires e != [] && f != [] && Closed(e, a) == Closed(f, b)
    ensures e[0] == f[0] && AfterFirst(e, a) == AfterFirst(f, b)
  {
    ClosedCons(e, a);
    ClosedCons(f, b);
    FirstPairs(e, f, a, b);
  }

  lemma FirstPairs(e: Interaction, f: Interaction, a: string, b: string)
    requires e != [] && f != []
    requires ReprString(e[0].0) + (": " + (ReprString(e[0].1) + AfterFirst(e, a))) ==
             ReprString(f[0].0) + (": " + (ReprString(f[0].1) + AfterFirst(f, b)))
    ensures e[0] == f[0] && AfterFirst(e, a) == AfterFirst(f, b)
  {
    ReprStringPrefixFree(e[0].0, f[0].0, ": " + (ReprString(e[0].1) + AfterFirst(e, a)),
                         ": " + (ReprString(f[0].1) + AfterFirst(f, b)));
    DropCommon(": ", ReprString(e[0].1) + AfterFirst(e, a), ReprString(f[0].1) + AfterFirst(f, b));
    ReprStringPrefixFree(e[0].1, f[0].1, AfterFirst(e, a), AfterFirst(f, b));
  }

  /** Distinct interactions have distinct dict texts. */
  lemma ReprInteractionInjective(e: Interaction, f: Interaction)
    requires ReprInteraction(e) == ReprInteraction(f)
    ensures e == f
  {
    assert ReprInteraction(e) == "{" + Closed(e, []);
    assert ReprInteraction(f) == "{" + Closed(f, []);
    DropCommon("{", Closed(e, []), Closed(f, []));
    ItemsPrefixFree(e, f, [], []);
  }

  /** Two pieces of a history's text are equal exactly when the two
      interactions are. */
  lemma ReprAllDistinguishes(h: seq<Interaction>, i: nat, j: nat)
    requires i < |h| && j < |h|
    ensures ReprAll(h)[i] == ReprAll(h)[j] <==> h[i] == h[j]
  {
    if ReprAll(h)[i] == ReprAll(h)[j] {
      ReprInteractionInjective(h[i], h[j]);
    }
  }

  /** Python `repr` (and `str`) of a list of interaction dicts. */
  function ReprHistory(h: seq<Interaction>): string {
    "[" + Join(ReprAll(h), ", ") + "]"
  }

  function ReprAll(h: seq<Interaction>): (items: seq<string>)
    ensures |items| == |h|
    ensures forall i :: 0 <= i < |h| ==> items[i] == ReprInteraction(h[i])
  {
    if h == [] then [] else [ReprInteraction(h[0])] + ReprAll(h[1..])
  }

  /** Python `str(v)`. */
  function Str(v: PyValue): string {
    match v
    case PStr(s) => s
    case PInt(i) => IntToString(i)
    case PHistory(h) => ReprHistory(h)
  }

  /** Python `int(v)`: a string is parsed in base 10, an integer is kept and
      a list raises `TypeError`. */
  function Int(v: PyValue): (r: Result<int, PyError>)
    ensures v.PInt? ==> r == Ok(v.i)
    ensures v.PHistory? ==> r == Err(TypeError)
    ensures v.PStr? ==> (r.Ok? <==> PyInt(v.s).Some?)
  {
    match v
    case PStr(s) => if PyInt(s).Some? then Ok(PyInt(s).value) else Err(ValueError)
    case PInt(i) => Ok(i)
    case PHistory(_) => Err(TypeError)
  }

  /** `int(str(i)) == i` for an integer attribute. */
  lemma IntOfStr(v: PyValue)
    requires v.PInt?
    ensures Int(PStr(Str(v))) == Ok(v.i)
  {
    PyIntOfIntToString(v.i);
  }

  /** What a step that can raise reports: the exception, or the state it
      reached. */
  function Outcome<T>(err: Option<PyError>, s: T): Result<T, PyError> {
    if err.Some? then Err(err.value) else Ok(s)
  }
}

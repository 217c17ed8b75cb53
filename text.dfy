/** String helpers shared by the backend views and the client handlers:
    whitespace stripping, splitting and joining at a separator, the
    character replacements used for session file names, and decimal digits. */
module Text {

  import opened Common

  /** The ASCII whitespace that Python's str.strip() and JavaScript's trim() remove. */
  predicate IsSpace(c: char) {
    c == ' ' || c == '\t' || c == '\n' || c == '\r' || c == '\U{000B}' || c == '\U{000C}'
  }

  predicate IsBlank(s: string) {
    forall i :: 0 <= i < |s| ==> IsSpace(s[i])
  }

  /** Leading whitespace removed. */
  function TrimStart(s: string): (r: string)
    ensures |r| <= |s|
  {
    if s != [] && IsSpace(s[0]) then TrimStart(s[1..]) else s
  }

  /** Trailing whitespace removed. */
  function TrimEnd(s: string): (r: string)
    ensures |r| <= |s|
  {
    if s != [] && IsSpace(s[|s| - 1]) then TrimEnd(s[..|s| - 1]) else s
  }

  lemma {:induction false} TrimStartSpec(s: string)
    ensures var r := TrimStart(s);
      r == s[|s| - |r|..] && IsBlank(s[..|s| - |r|]) && (r != [] ==> !IsSpace(r[0]))
  {
    if s != [] && IsSpace(s[0]) {
      TrimStartSpec(s[1..]);
      var r := TrimStart(s);
      assert s[..|s| - |r|] == [s[0]] + s[1..][..|s| - 1 - |r|];
    }
  }

  lemma {:induction false} TrimEndSpec(s: string)
    ensures var r := TrimEnd(s);
      r == s[..|r|] && IsBlank(s[|r|..]) && (r != [] ==> !IsSpace(r[|r| - 1]))
  {
    if s != [] && IsSpace(s[|s| - 1]) {
      TrimEndSpec(s[..|s| - 1]);
      var r := TrimEnd(s);
      assert s[|r|..] == s[..|s| - 1][|r|..] + [s[|s| - 1]];
    }
  }

  /** Python's `s.strip()` and JavaScript's `s.trim()`: leading and
      trailing whitespace removed. */
  function Strip(s: string): (r: string)
    ensures |r| <= |s|
  {
    TrimEnd(TrimStart(s))
  }

  /** Stripping gives the empty string exactly for blank input, and otherwise
      a string that neither starts nor ends with whitespace. */
  lemma StripSpec(s: string)
    ensures Strip(s) == "" <==> IsBlank(s)
    ensures Strip(s) != "" ==> !IsSpace(Strip(s)[0]) && !IsSpace(Strip(s)[|Strip(s)| - 1])
  {
    var t := TrimStart(s);
    TrimStartSpec(s);
    TrimEndSpec(t);
    var r := TrimEnd(t);
    assert s == s[..|s| - |t|] + t;
    if r != "" {
      assert t[0] == r[0];
    } else {
      assert t == t[|r|..];
    }
  }

  /** Stripping only removes characters. */
  lemma StripWithin(s: string)
    ensures forall c :: c in Strip(s) ==> c in s
  {
    var t := TrimStart(s);
    TrimStartSpec(s);
    TrimEndSpec(t);
    forall c | c in Strip(s) ensures c in s {
      var i :| 0 <= i < |Strip(s)| && Strip(s)[i] == c;
      assert t[i] == c;
      assert s[|s| - |t| + i] == c;
    }
  }

  /** Trailing whitespace after a non-space character is exactly what
      `TrimEnd` drops. */
  lemma {:induction false} TrimEndBlankSuffix(s: string, blank: string)
    requires s != [] && !IsSpace(s[|s| - 1]) && IsBlank(blank)
    ensures TrimEnd(s + blank) == s
    decreases |blank|
  {
    if blank != [] {
      var shorter := blank[..|blank| - 1];
      assert (s + blank)[..|s + blank| - 1] == s + shorter;
      TrimEndBlankSuffix(s, shorter);
    } else {
      assert s + blank == s;
    }
  }

  /** A string that neither starts nor ends with whitespace is its own strip. */
  lemma StripOfTrimmed(s: string)
    requires s != [] && !IsSpace(s[0]) && !IsSpace(s[|s| - 1])
    ensures Strip(s) == s
  {
  }

  predicate StartsWith(s: string, prefix: string) {
    |prefix| <= |s| && s[..|prefix|] == prefix
  }

  predicate EndsWith(s: string, suffix: string) {
    |suffix| <= |s| && s[|s| - |suffix|..] == suffix
  }

  /** The index of the first `c` in `s`, or `|s|` when there is none. */
  function IndexOf(s: string, c: char): (k: nat)
    ensures k <= |s|
    ensures k < |s| ==> s[k] == c
    ensures c !in s[..k]
    ensures k == |s| <==> c !in s
  {
    if s == [] then 0
    else if s[0] == c then 0
    else
      var k := 1 + IndexOf(s[1..], c);
      assert s[..k] == [s[0]] + s[1..][..k - 1];
      k
  }

  lemma {:induction false} IndexOfAppend(a: string, t: string, c: char)
    ensures IndexOf(a + t, c) == if c in a then IndexOf(a, c) else |a| + IndexOf(t, c)
  {
    if a != [] {
      assert (a + t)[1..] == a[1..] + t;
      IndexOfAppend(a[1..], t, c);
    } else {
      assert a + t == t;
    }
  }

  /** The first `c` in `a + [c] + b` is the one after `a` when `a` has none. */
  lemma IndexOfAfter(a: string, c: char, b: string)
    requires c !in a
    ensures IndexOf(a + [c] + b, c) == |a|
  {
    var tail := [c] + b;
    assert IndexOf(tail, c) == 0;
    IndexOfAppend(a, tail, c);
    assert a + tail == a + [c] + b;
  }

  /** Python's `s.split(sep)` for a one-character separator: never empty. */
  function Split(s: string, sep: char): (parts: seq<string>)
    ensures |parts| >= 1
    ensures forall i :: 0 <= i < |parts| ==> sep !in parts[i]
    decreases |s|
  {
    var k := IndexOf(s, sep);
    if k == |s| then [s] else [s[..k]] + Split(s[k + 1..], sep)
  }

  /** Python's `sep.join(parts)` and JavaScript's `parts.join(sep)`. */
  function Join(parts: seq<string>, sep: string): string
  {
    if parts == [] then ""
    else if |parts| == 1 then parts[0]
    else parts[0] + sep + Join(parts[1..], sep)
  }

  /** Joining the pieces of a split gives back the original string. */
  lemma {:induction false} JoinSplit(s: string, sep: char)
    ensures Join(Split(s, sep), [sep]) == s
    decreases |s|
  {
    var k := IndexOf(s, sep);
    if k < |s| {
      var head, tail := s[..k], s[k + 1..];
      var rest := Split(tail, sep);
      assert Split(s, sep) == [head] + rest;
      JoinSplit(tail, sep);
      assert Join([head] + rest, [sep]) == head + [sep] + Join(rest, [sep]) by {
        var parts := [head] + rest;
        assert |parts| >= 2 && parts[0] == head && parts[1..] == rest;
      }
      assert s == head + [sep] + tail;
    }
  }

  /** Splitting at the first separator: the text before it, then the parts of the rest. */
  lemma SplitCons(a: string, sep: char, b: string)
    requires sep !in a
    ensures Split(a + [sep] + b, sep) == [a] + Split(b, sep)
  {
    var s := a + [sep] + b;
    IndexOfAfter(a, sep, b);
    assert s[..|a|] == a;
    assert s[|a| + 1..] == b;
  }

  /** Splitting a join of separator-free pieces gives back the pieces. */
  lemma {:induction false} SplitJoin(parts: seq<string>, sep: char)
    requires |parts| >= 1
    requires forall i :: 0 <= i < |parts| ==> sep !in parts[i]
    ensures Split(Join(parts, [sep]), sep) == parts
  {
    if |parts| > 1 {
      var tail := Join(parts[1..], [sep]);
      SplitCons(parts[0], sep, tail);
      SplitJoin(parts[1..], sep);
      assert Join(parts, [sep]) == parts[0] + [sep] + tail;
      assert parts == [parts[0]] + parts[1..];
    } else {
      assert IndexOf(parts[0], sep) == |parts[0]|;
    }
  }

  lemma {:induction false} JoinAppend(a: seq<string>, b: seq<string>, sep: string)
    requires a != [] && b != []
    ensures Join(a + b, sep) == Join(a, sep) + sep + Join(b, sep)
  {
    if |a| == 1 {
      assert (a + b)[1..] == b;
    } else {
      assert (a + b)[1..] == a[1..] + b;
      JoinAppend(a[1..], b, sep);
    }
  }

  /** A character absent from `s` is absent from every piece of its split. */
  lemma {:induction false} SplitAvoids(s: string, sep: char, c: char)
    requires c !in s
    ensures forall i :: 0 <= i < |Split(s, sep)| ==> c !in Split(s, sep)[i]
    decreases |s|
  {
    var k := IndexOf(s, sep);
    if k < |s| {
      var tail := s[k + 1..];
      assert c !in s[..k] && c !in tail;
      SplitAvoids(tail, sep, c);
      assert Split(s, sep) == [s[..k]] + Split(tail, sep);
    }
  }

  /** A character absent from the pieces and from the separator is absent
      from their join. */
  lemma {:induction false} JoinAvoids(parts: seq<string>, sep: string, c: char)
    requires c !in sep && forall i :: 0 <= i < |parts| ==> c !in parts[i]
    ensures c !in Join(parts, sep)
  {
    if |parts| > 1 {
      JoinAvoids(parts[1..], sep, c);
      assert Join(parts, sep) == parts[0] + sep + Join(parts[1..], sep);
    }
  }

  /** Python's `s.split(sep, 1)` on a string that contains `sep`: the text
      before the first separator and everything after it. */
  function SplitFirst(s: string, sep: char): (halves: (string, string))
    requires sep in s
    ensures halves.0 + [sep] + halves.1 == s
    ensures sep !in halves.0
  {
    var k := IndexOf(s, sep);
    (s[..k], s[k + 1..])
  }

  /** The halves are determined: splitting `a + [sep] + b` with no `sep` in
      `a` gives back `a` and `b`. */
  lemma SplitFirstOf(a: string, sep: char, b: string)
    requires sep !in a
    ensures SplitFirst(a + [sep] + b, sep) == (a, b)
  {
    IndexOfAfter(a, sep, b);
    var s := a + [sep] + b;
    assert s[..|a|] == a && s[|a| + 1..] == b;
  }

  /** Python's `s.replace(a, b)` for single characters: every `a` becomes `b`. */
  function ReplaceChar(s: string, a: char, b: char): (r: string)
    ensures |r| == |s|
    ensures forall i :: 0 <= i < |s| ==> r[i] == if s[i] == a then b else s[i]
  {
    seq(|s|, i requires 0 <= i < |s| => if s[i] == a then b else s[i])
  }

  lemma ReplaceCharAppend(s: string, t: string, a: char, b: char)
    ensures ReplaceChar(s + t, a, b) == ReplaceChar(s, a, b) + ReplaceChar(t, a, b)
  {
    var l, r := ReplaceChar(s + t, a, b), ReplaceChar(s, a, b) + ReplaceChar(t, a, b);
    forall i | 0 <= i < |s + t| ensures l[i] == r[i] {
      if i >= |s| { assert (s + t)[i] == t[i - |s|]; }
    }
  }

  /** Python's `s.replace(a, b, 1)` for single characters: only the first `a` becomes `b`. */
  function ReplaceFirst(s: string, a: char, b: char): (r: string)
    ensures |r| == |s|
    ensures forall i :: 0 <= i < |s| ==> r[i] == if i == IndexOf(s, a) then b else s[i]
  {
    var k := IndexOf(s, a);
    if k == |s| then s else s[..k] + [b] + s[k + 1..]
  }

  /** Python's `s.replace(pat, "")`: every non-overlapping occurrence of `pat`,
      scanning from the left, is removed. */
  function RemoveAll(s: string, pat: string): (r: string)
    requires pat != []
    ensures |r| <= |s|
    decreases |s|
  {
    if |s| < |pat| then s
    else if s[..|pat|] == pat then RemoveAll(s[|pat|..], pat)
    else [s[0]] + RemoveAll(s[1..], pat)
  }

  /** Removing `pat` from `s + pat` gives `s` back when the first character
      of `pat` does not occur in `s`. */
  lemma {:induction false} RemoveAllSuffix(s: string, pat: string)
    requires pat != [] && pat[0] !in s
    ensures RemoveAll(s + pat, pat) == s
  {
    if s == [] {
      assert s + pat == pat;
      assert pat[|pat|..] == [];
    } else {
      assert (s + pat)[0] == s[0] != pat[0];
      assert (s + pat)[1..] == s[1..] + pat;
      RemoveAllSuffix(s[1..], pat);
    }
  }

  predicate IsDigit(c: char) {
    '0' <= c <= '9'
  }

  predicate AllDigits(s: string) {
    forall i :: 0 <= i < |s| ==> IsDigit(s[i])
  }

  function DigitChar(d: nat): (c: char)
    requires d < 10
    ensures IsDigit(c) && (c as int) - ('0' as int) == d
  {
    (('0' as int) + d) as char
  }

  /** Decimal representation of a natural number, as `String(n)` and `str(n)` print it. */
  function NatToString(n: nat): (s: string)
    ensures |s| >= 1 && AllDigits(s)
    decreases n
  {
    if n < 10 then [DigitChar(n)] else NatToString(n / 10) + [DigitChar(n % 10)]
  }

  function DigitsValue(s: string): nat
    requires AllDigits(s)
  {
    if s == [] then 0
    else DigitsValue(s[..|s| - 1]) * 10 + ((s[|s| - 1] as int) - ('0' as int))
  }

  lemma {:induction false} DigitsValueOfNatToString(n: nat)
    ensures DigitsValue(NatToString(n)) == n
    decreases n
  {
    if n >= 10 {
      DigitsValueOfNatToString(n / 10);
      var s := NatToString(n);
      assert s[..|s| - 1] == NatToString(n / 10);
    }
  }

  /** Position `i` of `s` holds a digit, or a single '_' with a digit on
      each side. */
  predicate DigitOrSeparator(s: string, i: nat)
    requires i < |s|
  {
    IsDigit(s[i]) || (0 < i < |s| - 1 && s[i] == '_' && IsDigit(s[i - 1]) && IsDigit(s[i + 1]))
  }

  /** The digits of an integer literal as Python reads them: at least one
      digit, with single underscores allowed between digits. */
  predicate Grouped(s: string) {
    s != [] && forall i :: 0 <= i < |s| ==> DigitOrSeparator(s, i)
  }

  /** The digits of `s`, every other character dropped. */
  function DigitsOf(s: string): (r: string)
    ensures AllDigits(r)
  {
    if s == [] then [] else (if IsDigit(s[0]) then [s[0]] else []) + DigitsOf(s[1..])
  }

  lemma {:induction false} DigitsOfAppend(a: string, b: string)
    ensures DigitsOf(a + b) == DigitsOf(a) + DigitsOf(b)
  {
    if a != [] {
      assert (a + b)[1..] == a[1..] + b;
      DigitsOfAppend(a[1..], b);
    } else {
      assert a + b == b;
    }
  }

  lemma {:induction false} DigitsOfDigits(s: string)
    requires AllDigits(s)
    ensures DigitsOf(s) == s
  {
    if s != [] {
      DigitsOfDigits(s[1..]);
    }
  }

  /** Python's `int(s)` on ASCII text: surrounding whitespace, an optional
      sign and decimal digits, single underscores allowed between digits;
      anything else raises ValueError, here `None`. */
  function ParseInt(s: string): (r: Option<int>)
  {
    ParseSigned(Strip(s))
  }

  /** `int` on text already stripped: an optional sign, then grouped digits. */
  function ParseSigned(t: string): Option<int>
  {
    var body := if t != [] && (t[0] == '-' || t[0] == '+') then t[1..] else t;
    if !Grouped(body) then None
    else
      var v: int := DigitsValue(DigitsOf(body));
      if t[0] == '-' then Some(-v) else Some(v)
  }

  /** `str(n)` for any integer. */
  function IntToString(n: int): (s: string)
    ensures s != [] && !IsSpace(s[0]) && !IsSpace(s[|s| - 1])
  {
    if n < 0 then "-" + NatToString(-n) else NatToString(n)
  }

  /** Grouped digits, alone or after a '-', parse to the value of their
      digits. */
  lemma ParseGrouped(body: string)
    requires Grouped(body)
    ensures ParseInt(body) == Some(DigitsValue(DigitsOf(body)))
    ensures ParseInt("-" + body) == Some(-(DigitsValue(DigitsOf(body)) as int))
  {
    ParseGroupedPlain(body);
    ParseGroupedNegative(body);
  }

  lemma ParseGroupedPlain(body: string)
    requires Grouped(body)
    ensures ParseInt(body) == Some(DigitsValue(DigitsOf(body)))
  {
    assert DigitOrSeparator(body, 0) && DigitOrSeparator(body, |body| - 1);
    StripOfTrimmed(body);
    assert body[0] != '-' && body[0] != '+';
  }

  lemma ParseGroupedNegative(body: string)
    requires Grouped(body)
    ensures ParseInt("-" + body) == Some(-(DigitsValue(DigitsOf(body)) as int))
  {
    var signed := "-" + body;
    assert DigitOrSeparator(body, |body| - 1);
    assert signed[|signed| - 1] == body[|body| - 1];
    StripOfTrimmed(signed);
    assert signed[0] == '-' && signed[1..] == body;
  }

  lemma AllDigitsGrouped(digits: string)
    requires digits != [] && AllDigits(digits)
    ensures Grouped(digits) && DigitsOf(digits) == digits
  {
    assert forall i :: 0 <= i < |digits| ==> DigitOrSeparator(digits, i);
    DigitsOfDigits(digits);
  }

  /** A run of digits parses to its value. */
  lemma ParseUnsigned(digits: string)
    requires digits != [] && AllDigits(digits)
    ensures ParseInt(digits) == Some(DigitsValue(digits))
  {
    AllDigitsGrouped(digits);
    ParseGrouped(digits);
  }

  /** A run of digits after a '-' parses to the negated value. */
  lemma ParseNegative(digits: string)
    requires digits != [] && AllDigits(digits)
    ensures ParseInt("-" + digits) == Some(-(DigitsValue(digits) as int))
  {
    AllDigitsGrouped(digits);
    ParseGrouped(digits);
  }

  /** Parsing the printed form of any integer gives it back. */
  lemma IntRoundTrip(n: int)
    ensures ParseInt(IntToString(n)) == Some(n)
  {
    if n < 0 {
      var m: nat := -n;
      var digits := NatToString(m);
      DigitsValueOfNatToString(m);
      ParseNegative(digits);
      assert IntToString(n) == "-" + digits;
    } else {
      var digits := NatToString(n);
      DigitsValueOfNatToString(n);
      ParseUnsigned(digits);
      assert IntToString(n) == digits;
    }
  }

  /** A single underscore between two runs of digits is ignored: `int("1_0")`
      is ten. */
  lemma UnderscoreIgnored(a: string, b: string)
    requires a != [] && b != [] && AllDigits(a) && AllDigits(b)
    ensures ParseInt(a + "_" + b) == Some(DigitsValue(a + b))
  {
    JoinedGrouped(a, b);
    JoinedDigits(a, b);
    ParseGrouped(a + "_" + b);
  }

  lemma JoinedGrouped(a: string, b: string)
    requires a != [] && b != [] && AllDigits(a) && AllDigits(b)
    ensures Grouped(a + "_" + b)
  {
    var s := a + "_" + b;
    forall i | 0 <= i < |s|
      ensures DigitOrSeparator(s, i)
    {
      if i < |a| {
        assert s[i] == a[i];
      } else if i > |a| {
        assert s[i] == b[i - |a| - 1];
      } else {
        assert s[i - 1] == a[|a| - 1] && s[i + 1] == b[0];
      }
    }
  }

  lemma JoinedDigits(a: string, b: string)
    requires AllDigits(a) && AllDigits(b)
    ensures DigitsOf(a + "_" + b) == a + b
  {
    var u := "_";
    assert DigitsOf(u) == [] by {
      assert !IsDigit(u[0]) && u[1..] == [];
    }
    var front := a + u;
    DigitsOfAppend(a, u);
    DigitsOfDigits(a);
    assert DigitsOf(front) == a;
    DigitsOfAppend(front, b);
    DigitsOfDigits(b);
  }

  /** Two underscores in a row make the text no integer. */
  lemma DoubleUnderscore(a: string, b: string)
    requires AllDigits(a) && AllDigits(b)
    ensures ParseInt(a + "__" + b) == None
  {
    var s := a + "__" + b;
    assert s[|a|] == '_' && s[|a| + 1] == '_';
    assert !IsSpace(s[0]) by {
      if a != [] {
        assert s[0] == a[0];
      }
    }
    assert !IsSpace(s[|s| - 1]) by {
      if b != [] {
        assert s[|s| - 1] == b[|b| - 1];
      }
    }
    StripOfTrimmed(s);
    assert !DigitOrSeparator(s, |a|);
  }

  /** Nor does a leading underscore... */
  lemma LeadingUnderscore(a: string)
    requires AllDigits(a)
    ensures ParseInt("_" + a) == None
  {
    var s := "_" + a;
    assert !IsSpace(s[|s| - 1]) by {
      if a != [] {
        assert s[|s| - 1] == a[|a| - 1];
      }
    }
    StripOfTrimmed(s);
    assert !DigitOrSeparator(s, 0);
  }

  /** ...or a trailing one. */
  lemma TrailingUnderscore(a: string)
    requires AllDigits(a)
    ensures ParseInt(a + "_") == None
  {
    var s := a + "_";
    assert s[|a|] == '_';
    assert !IsSpace(s[0]) by {
      if a != [] {
        assert s[0] == a[0];
      }
    }
    StripOfTrimmed(s);
    assert !DigitOrSeparator(s, |a|);
  }
}

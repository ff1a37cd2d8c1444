/** String operations the application relies on, stated over `seq<char>`:
    `toLowerCase` (ASCII letters only), `trim`, `includes`, `some` over a
    keyword list, the decimal rendering of a non-negative integer inside a
    template literal, and `join('\n')` together with its inverse. */
module Text {

  // ---------------------------------------------------------------------
  // Lower-casing
  // ---------------------------------------------------------------------

  /** `toLowerCase` on one character, restricted to ASCII letters. */
  function LowerChar(c: char): char
  {
    if 'A' <= c <= 'Z' then (c as int + 32) as char else c
  }

  /** A character that `toLowerCase` leaves unchanged. */
  predicate IsLowerChar(c: char)
  {
    !('A' <= c <= 'Z')
  }

  /** `s.toLowerCase()`: every character lowered in place. */
  function Lower(s: string): (r: string)
    ensures |r| == |s|
    ensures forall i :: 0 <= i < |s| ==> r[i] == LowerChar(s[i])
  {
    if s == [] then [] else [LowerChar(s[0])] + Lower(s[1..])
  }

  lemma LowerIdempotent(s: string)
    ensures Lower(Lower(s)) == Lower(s)
  {
    assert forall i :: 0 <= i < |s| ==> LowerChar(LowerChar(s[i])) == LowerChar(s[i]);
  }

  lemma {:induction false} LowerAppend(a: string, b: string)
    ensures Lower(a + b) == Lower(a) + Lower(b)
  {
    if a == [] {
      assert a + b == b;
    } else {
      assert (a + b)[1..] == a[1..] + b;
      LowerAppend(a[1..], b);
    }
  }

  /** A word made of characters `toLowerCase` keeps is untouched by it. */
  lemma LowerOfLowercase(s: string)
    requires forall i :: 0 <= i < |s| ==> IsLowerChar(s[i])
    ensures Lower(s) == s
  {
  }

  // ---------------------------------------------------------------------
  // Substring search
  // ---------------------------------------------------------------------

  /** `s.includes(sub)`: `sub` is a prefix of some suffix of `s`. The empty
      string is contained in every string, as in JavaScript. */
  predicate Contains(s: string, sub: string)
    decreases |s|
  {
    sub <= s || (|s| > 0 && Contains(s[1..], sub))
  }

  /** `sub` occurs in `s` starting at index `i`. */
  predicate OccursAt(s: string, sub: string, i: nat)
  {
    i + |sub| <= |s| && s[i..i + |sub|] == sub
  }

  /** A containment has a witness position. */
  lemma {:induction false} ContainsWitness(s: string, sub: string) returns (i: nat)
    requires Contains(s, sub)
    ensures OccursAt(s, sub, i)
    decreases |s|
  {
    if sub <= s {
      i := 0;
    } else {
      var j := ContainsWitness(s[1..], sub);
      assert s[j + 1..j + 1 + |sub|] == s[1..][j..j + |sub|];
      i := j + 1;
    }
  }

  /** A witness position is enough to establish containment. */
  lemma {:induction false} ContainsFromOccurrence(s: string, sub: string, i: nat)
    requires OccursAt(s, sub, i)
    ensures Contains(s, sub)
    decreases i
  {
    if i > 0 {
      assert s[1..][i - 1..i - 1 + |sub|] == s[i..i + |sub|];
      ContainsFromOccurrence(s[1..], sub, i - 1);
    }
  }

  /** `Contains` agrees with the positional definition of a substring. */
  lemma ContainsIff(s: string, sub: string)
    ensures Contains(s, sub) <==> exists i: nat :: OccursAt(s, sub, i)
  {
    if Contains(s, sub) {
      var i := ContainsWitness(s, sub);
    }
    if i: nat :| OccursAt(s, sub, i) {
      ContainsFromOccurrence(s, sub, i);
    }
  }

  /** Text around a string never hides a substring of it. */
  lemma {:induction false} ContainsInfix(a: string, s: string, b: string, sub: string)
    requires Contains(s, sub)
    ensures Contains(a + s + b, sub)
  {
    var i := ContainsWitness(s, sub);
    assert (a + s + b)[|a| + i..|a| + i + |sub|] == s[i..i + |sub|];
    ContainsFromOccurrence(a + s + b, sub, |a| + i);
  }

  /** A substring is never longer than the string holding it. */
  lemma ContainsNeedsRoom(s: string, sub: string)
    ensures Contains(s, sub) ==> |sub| <= |s|
  {
    if Contains(s, sub) {
      var i := ContainsWitness(s, sub);
    }
  }

  /** Text after a string never hides a substring of it. */
  lemma ContainsAppend(s: string, b: string, sub: string)
    requires Contains(s, sub)
    ensures Contains(s + b, sub)
  {
    var i := ContainsWitness(s, sub);
    assert (s + b)[i..i + |sub|] == s[i..i + |sub|];
    ContainsFromOccurrence(s + b, sub, i);
  }

  /** Text before a string never hides a substring of it. */
  lemma ContainsPrepend(a: string, s: string, sub: string)
    requires Contains(s, sub)
    ensures Contains(a + s, sub)
  {
    var i := ContainsWitness(s, sub);
    assert (a + s)[|a| + i..|a| + i + |sub|] == s[i..i + |sub|];
    ContainsFromOccurrence(a + s, sub, |a| + i);
  }

  /** Lower-casing a string keeps every all-lower-case word it contains. */
  lemma ContainsLowercaseWord(s: string, w: string)
    requires Contains(s, w)
    requires forall i :: 0 <= i < |w| ==> IsLowerChar(w[i])
    ensures Contains(Lower(s), w)
  {
    var i := ContainsWitness(s, w);
    assert forall j | 0 <= j < |w| :: Lower(s)[i..i + |w|][j] == LowerChar(w[j]) == w[j] by {
      assert forall j | 0 <= j < |w| :: s[i + j] == w[j];
    }
    assert Lower(s)[i..i + |w|] == w;
    ContainsFromOccurrence(Lower(s), w, i);
  }

  // ---------------------------------------------------------------------
  // `some(keyword => s.includes(keyword))`
  // ---------------------------------------------------------------------

  /** True exactly when one of `keywords` is a substring of `s`. */
  function ContainsAny(s: string, keywords: seq<string>): (r: bool)
    ensures r <==> exists i :: 0 <= i < |keywords| && Contains(s, keywords[i])
  {
    if keywords == [] then false
    else Contains(s, keywords[0]) || ContainsAny(s, keywords[1..])
  }

  /** `s.endsWith(suffix)`. */
  predicate EndsWith(s: string, suffix: string)
  {
    |suffix| <= |s| && s[|s| - |suffix|..] == suffix
  }

  /** A string ends with the last character of each of its suffixes. */
  lemma EndsWithLastChar(s: string, suffix: string)
    requires |suffix| > 0
    ensures EndsWith(s, suffix) ==> s[|s| - 1] == suffix[|suffix| - 1]
  {
    if EndsWith(s, suffix) {
      assert s[|s| - |suffix|..][|suffix| - 1] == s[|s| - 1];
    }
  }

  // ---------------------------------------------------------------------
  // Trimming
  // ---------------------------------------------------------------------

  /** The white space and line terminators `String.prototype.trim` removes
      (the ASCII ones plus no-break space, the byte-order mark and the two
      Unicode line terminators). */
  predicate IsSpace(c: char)
  {
    c == ' ' || c == '\t' || c == '\n' || c == '\r' || c as int == 0x0B ||
    c as int == 0x0C || c as int == 0xA0 || c as int == 0xFEFF ||
    c as int == 0x2028 || c as int == 0x2029
  }

  function TrimStart(s: string): string
    decreases |s|
  {
    if |s| > 0 && IsSpace(s[0]) then TrimStart(s[1..]) else s
  }

  function TrimEnd(s: string): string
    decreases |s|
  {
    if |s| > 0 && IsSpace(s[|s| - 1]) then TrimEnd(s[..|s| - 1]) else s
  }

  /** `s.trim()`. */
  function Trim(s: string): string
  {
    TrimEnd(TrimStart(s))
  }

  /** A non-empty word without white space. */
  predicate IsWord(w: string)
  {
    |w| > 0 && forall i :: 0 <= i < |w| ==> !IsSpace(w[i])
  }

  lemma {:induction false} ContainsTrimStart(s: string, w: string)
    requires IsWord(w)
    ensures Contains(TrimStart(s), w) <==> Contains(s, w)
    decreases |s|
  {
    if |s| > 0 && IsSpace(s[0]) {
      assert w[0] != s[0];
      ContainsTrimStart(s[1..], w);
    }
  }

  /** Dropping a trailing white-space character keeps every word. */
  lemma ContainsDropLastSpace(s: string, w: string)
    requires IsWord(w) && |s| > 0 && IsSpace(s[|s| - 1])
    ensures Contains(s[..|s| - 1], w) <==> Contains(s, w)
  {
    var t := s[..|s| - 1];
    if Contains(s, w) {
      var i := ContainsWitness(s, w);
      assert !IsSpace(s[i + |w| - 1]) by {
        assert s[i..i + |w|][|w| - 1] == s[i + |w| - 1];
      }
      assert t[i..i + |w|] == s[i..i + |w|];
      ContainsFromOccurrence(t, w, i);
    }
    if Contains(t, w) {
      var i := ContainsWitness(t, w);
      assert s[i..i + |w|] == t[i..i + |w|];
      ContainsFromOccurrence(s, w, i);
    }
  }

  lemma {:induction false} ContainsTrimEnd(s: string, w: string)
    requires IsWord(w)
    ensures Contains(TrimEnd(s), w) <==> Contains(s, w)
    decreases |s|
  {
    if |s| > 0 && IsSpace(s[|s| - 1]) {
      ContainsDropLastSpace(s, w);
      ContainsTrimEnd(s[..|s| - 1], w);
    }
  }

  /** Trimming never changes whether a word occurs. */
  lemma ContainsTrim(s: string, w: string)
    requires IsWord(w)
    ensures Contains(Trim(s), w) <==> Contains(s, w)
  {
    ContainsTrimStart(s, w);
    ContainsTrimEnd(TrimStart(s), w);
  }

  // ---------------------------------------------------------------------
  // Decimal numerals
  // ---------------------------------------------------------------------

  predicate IsDigit(c: char)
  {
    '0' <= c <= '9'
  }

  predicate AllDigits(s: string)
  {
    forall i :: 0 <= i < |s| ==> IsDigit(s[i])
  }

  function DigitChar(d: nat): (c: char)
    requires d < 10
    ensures IsDigit(c)
  {
    ('0' as int + d) as char
  }

  /** `${n}` for a non-negative integer: its decimal numeral. */
  function Decimal(n: nat): (r: string)
    ensures |r| > 0 && AllDigits(r)
    decreases n
  {
    if n < 10 then [DigitChar(n)] else Decimal(n / 10) + [DigitChar(n % 10)]
  }

  /** Reads a numeral back; the inverse of `Decimal`. */
  function ParseDecimal(s: string): nat
    requires AllDigits(s)
  {
    if s == [] then 0
    else ParseDecimal(s[..|s| - 1]) * 10 + (s[|s| - 1] as int - '0' as int)
  }

  lemma {:induction false} DecimalRoundTrip(n: nat)
    ensures ParseDecimal(Decimal(n)) == n
    decreases n
  {
    if n >= 10 {
      var d := Decimal(n);
      assert d[..|d| - 1] == Decimal(n / 10);
      DecimalRoundTrip(n / 10);
    }
  }

  lemma DecimalInjective(n: nat, m: nat)
    requires Decimal(n) == Decimal(m)
    ensures n == m
  {
    DecimalRoundTrip(n);
    DecimalRoundTrip(m);
  }

  /** Equal strings that share a prefix and a suffix agree in between. */
  lemma CancelAround(p: string, x: string, y: string, s: string)
    requires p + x + s == p + y + s
    ensures x == y
  {
    assert |x| == |y|;
    assert x == (p + x + s)[|p|..|p| + |x|];
    assert y == (p + y + s)[|p|..|p| + |y|];
  }

  /** Distinct numbers give distinct strings once framed by fixed text. */
  lemma FramedDecimalsDiffer(p: string, n: nat, m: nat, s: string)
    requires n != m
    ensures p + Decimal(n) + s != p + Decimal(m) + s
  {
    if p + Decimal(n) + s == p + Decimal(m) + s {
      CancelAround(p, Decimal(n), Decimal(m), s);
      DecimalInjective(n, m);
    }
  }

  // ---------------------------------------------------------------------
  // Lines
  // ---------------------------------------------------------------------

  /** `lines.join(sep)`. */
  function Join(lines: seq<string>, sep: char): string
  {
    if |lines| == 0 then ""
    else if |lines| == 1 then lines[0]
    else lines[0] + [sep] + Join(lines[1..], sep)
  }

  /** `s.split(sep)`: the pieces between occurrences of `sep`. */
  function Split(s: string, sep: char): (r: seq<string>)
    ensures |r| > 0
    decreases |s|
  {
    if |s| == 0 then [""]
    else
      var rest := Split(s[1..], sep);
      if s[0] == sep then [""] + rest else [[s[0]] + rest[0]] + rest[1..]
  }

  /** Text free of `sep` merges into the first piece. */
  lemma {:induction false} SplitPrefix(a: string, t: string, sep: char)
    requires sep !in a
    ensures Split(a + t, sep) == [a + Split(t, sep)[0]] + Split(t, sep)[1..]
    decreases |a|
  {
    if |a| > 0 {
      assert (a + t)[1..] == a[1..] + t;
      assert (a + t)[0] == a[0];
      SplitPrefix(a[1..], t, sep);
      assert [a[0]] + (a[1..] + Split(t, sep)[0]) == a + Split(t, sep)[0];
    } else {
      var r := Split(t, sep);
      assert a + t == t;
      assert a + r[0] == r[0];
      assert [r[0]] + r[1..] == r;
    }
  }

  /** `split` undoes `join` when no line holds the separator. */
  lemma {:induction false} SplitJoin(lines: seq<string>, sep: char)
    requires |lines| > 0
    requires forall i :: 0 <= i < |lines| ==> sep !in lines[i]
    ensures Split(Join(lines, sep), sep) == lines
  {
    if |lines| == 1 {
      SplitPrefix(lines[0], "", sep);
      assert lines[0] + "" == lines[0];
    } else {
      var rest := Join(lines[1..], sep);
      SplitJoin(lines[1..], sep);
      assert lines[0] + [sep] + rest == lines[0] + ([sep] + rest);
      SplitPrefix(lines[0], [sep] + rest, sep);
      assert ([sep] + rest)[1..] == rest;
      assert lines[0] + "" == lines[0];
      assert lines == [lines[0]] + lines[1..];
    }
  }

  /** Every joined line appears in the joined text. */
  lemma {:induction false} JoinContainsEach(lines: seq<string>, sep: char, k: nat)
    requires k < |lines|
    ensures Contains(Join(lines, sep), lines[k])
  {
    if |lines| == 1 {
      ContainsFromOccurrence(lines[0], lines[0], 0);
    } else if k == 0 {
      assert OccursAt(Join(lines, sep), lines[0], 0);
      ContainsFromOccurrence(Join(lines, sep), lines[0], 0);
    } else {
      JoinContainsEach(lines[1..], sep, k - 1);
      ContainsInfix(lines[0] + [sep], Join(lines[1..], sep), "", lines[k]);
      assert lines[0] + [sep] + Join(lines[1..], sep) + "" == Join(lines, sep);
    }
  }
}

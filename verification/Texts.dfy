/** What the readers of decimal text and the trimmer do, told from the characters of the text. */
module Texts {
  import opened Basics

  ghost predicate AllDigits(d: string) {
    forall c <- d :: IsDigit(c)
  }

  ghost predicate AllBlank(b: string) {
    forall c <- b :: c == ' ' || '\t' <= c <= '\r'
  }

  /** A sign or none, and digits, that together spell the 64-bit number `n`. */
  ghost predicate Spells(g: string, d: string, n: int) {
    && (g == "" || g == "+" || g == "-") && d != [] && AllDigits(d) && FitsInt64(n)
    && n == if g == "-" then -(DecimalValue(d) as int) else DecimalValue(d)
  }

  /** The text is blanks without line ends, a number, and something that does not go on with a digit. */
  ghost predicate Scans(s: string, b: string, g: string, d: string, r: string, n: int) {
    && s == b + (g + d + r) && AllBlank(b) && '\n' !in b && Spells(g, d, n)
    && (r == [] || !IsDigit(r[0]))
  }

  /** `Sscanf` with "%d" reads the number `n` from the text. */
  ghost predicate ReadsAs(s: string, n: int) {
    exists b, g, d, r :: Scans(s, b, g, d, r, n)
  }

  /** The text is the number `n` and nothing else. */
  ghost predicate IsNumber(s: string, n: int) {
    exists g, d :: s == g + d && Spells(g, d, n)
  }

  // ----- pieces -----

  lemma {:induction false} SkipBlanksOf(b: string, rest: string)
    requires AllBlank(b) && '\n' !in b && (rest == [] || !IsBlank(rest[0]))
    ensures SkipBlanks(b + rest) == rest
  {
    if b == [] {
      assert b + rest == rest;
    } else {
      assert b[0] in b && (b + rest)[1..] == b[1..] + rest;
      assert forall c <- b[1..] :: c in b;
      SkipBlanksOf(b[1..], rest);
    }
  }

  lemma {:induction false} BlanksSkipped(s: string) returns (b: string)
    ensures s == b + SkipBlanks(s) && AllBlank(b) && '\n' !in b
  {
    if s != [] && IsBlank(s[0]) && s[0] != '\n' {
      var b' := BlanksSkipped(s[1..]);
      b := [s[0]] + b';
    } else {
      b := [];
    }
  }

  lemma {:induction false} DigitPrefixOf(d: string, r: string)
    requires AllDigits(d) && (r == [] || !IsDigit(r[0]))
    ensures DigitPrefix(d + r) == d
  {
    if d == [] {
      assert d + r == r;
    } else {
      assert d[0] in d && (d + r)[1..] == d[1..] + r;
      DigitPrefixOf(d[1..], r);
    }
  }

  lemma {:induction false} DigitPrefixStops(s: string)
    ensures DigitPrefix(s) <= s && AllDigits(DigitPrefix(s))
    ensures var r := s[|DigitPrefix(s)|..]; r == [] || !IsDigit(r[0])
  {
    if s != [] && IsDigit(s[0]) {
      DigitPrefixStops(s[1..]);
      assert s[|DigitPrefix(s)|..] == s[1..][|DigitPrefix(s[1..])|..];
    }
  }

  lemma SignedPrefixOf(g: string, d: string, r: string, n: int)
    requires Spells(g, d, n) && (r == [] || !IsDigit(r[0]))
    ensures SignedPrefix(g + d + r) == Some((n, r))
  {
    var s := g + d + r;
    assert d[0] in d;
    DigitPrefixOf(d, r);
    var rest := if g == "" then s else s[1..];
    assert rest == d + r;
    assert rest[|d|..] == r;
  }

  lemma Join3(s: string, g: string, rest: string, d: string, r: string)
    requires s == g + rest && rest == d + r
    ensures s == g + d + r
  {
  }

  lemma SignSplit(s: string) returns (g: string, rest: string)
    ensures s == g + rest && (g == "" || g == "+" || g == "-")
    ensures SignedPrefix(s) ==
              (var d := DigitPrefix(rest);
               DigitPrefixLength(rest);
               DigitPrefixIsDigits(rest);
               var n: int := if g == "-" then -(DecimalValue(d) as int) else DecimalValue(d);
               if d == [] || !FitsInt64(n) then None else Some((n, rest[|d|..])))
  {
    hide DecimalValue, DigitPrefix, FitsInt64;
    if s != [] && (s[0] == '+' || s[0] == '-') {
      g, rest := [s[0]], s[1..];
    } else {
      g, rest := [], s;
    }
  }

  lemma SignedPrefixSplit(s: string) returns (g: string, d: string, r: string)
    requires SignedPrefix(s).Some?
    ensures s == g + d + r && Spells(g, d, SignedPrefix(s).value.0) && r == SignedPrefix(s).value.1
    ensures r == [] || !IsDigit(r[0])
  {
    var rest;
    g, rest := SignSplit(s);
    d := DigitPrefix(rest);
    DigitPrefixStops(rest);
    hide DecimalValue, DigitPrefix, FitsInt64, SignedPrefix;
    r := rest[|d|..];
    Join3(s, g, rest, d, r);
  }

  // ----- the readers -----

  /** Scanning reads exactly the number that the text starts with, if it does. */
  lemma ScanIntExactly(s: string, n: int)
    ensures ScanInt(s) == Some(n) <==> ReadsAs(s, n)
  {
    if ScanInt(s) == Some(n) {
      var b := BlanksSkipped(s);
      var g, d, r := SignedPrefixSplit(SkipBlanks(s));
      assert Scans(s, b, g, d, r, n);
    }
    if ReadsAs(s, n) {
      var b, g, d, r :| Scans(s, b, g, d, r, n);
      assert d[0] in d;
      var rest := g + d + r;
      assert rest[0] == if g == "" then d[0] else g[0];
      SkipBlanksOf(b, rest);
      SignedPrefixOf(g, d, r, n);
    }
  }

  /** Parsing succeeds exactly when the whole text is a number. */
  lemma AtoiExactly(s: string, n: int)
    ensures Atoi(s) == Some(n) <==> IsNumber(s, n)
  {
    if Atoi(s) == Some(n) {
      var g, d, r := SignedPrefixSplit(s);
      assert s == g + d;
    }
    if IsNumber(s, n) {
      var g, d :| s == g + d && Spells(g, d, n);
      SignedPrefixOf(g, d, [], n);
      assert g + d + [] == s;
    }
  }

  /** The text of an identifier is read as that identifier and nothing else. */
  lemma ItoaReads(n: nat, m: int)
    requires n <= MAX_INT64
    ensures ReadsAs(Itoa(n), m) <==> m == n
    ensures IsNumber(Itoa(n), m) <==> m == n
  {
    ItoaReadsBack(n);
    ScanIntExactly(Itoa(n), m);
    AtoiExactly(Itoa(n), m);
  }

  lemma JoinFront(s: string, a: string, t: string, b: string)
    requires s != [] && s[1..] == a + t + b
    ensures s == [s[0]] + a + t + b
  {
    assert s == [s[0]] + s[1..];
  }

  lemma JoinBack(s: string, a: string, t: string, b: string)
    requires s != [] && s[..|s| - 1] == a + t + b
    ensures s == a + t + (b + [s[|s| - 1]])
  {
    assert s == s[..|s| - 1] + [s[|s| - 1]];
  }

  /** Trimming takes away blanks at both ends, and all of them. */
  lemma {:induction false} TrimExactly(s: string) returns (a: string, b: string)
    ensures s == a + Trim(s) + b && AllBlank(a) && AllBlank(b)
    ensures var t := Trim(s); t != [] ==> !AllBlank([t[0]]) && !AllBlank([t[|t| - 1]])
  {
    if s != [] && IsBlank(s[0]) {
      var a';
      a', b := TrimExactly(s[1..]);
      a := [s[0]] + a';
      JoinFront(s, a', Trim(s[1..]), b);
    } else if s != [] && IsBlank(s[|s| - 1]) {
      var b';
      a, b' := TrimExactly(s[..|s| - 1]);
      b := b' + [s[|s| - 1]];
      JoinBack(s, a, Trim(s[..|s| - 1]), b');
    } else {
      a, b := [], [];
      if s != [] {
        assert s[0] in [s[0]] && s[|s| - 1] in [s[|s| - 1]];
      }
    }
  }
}

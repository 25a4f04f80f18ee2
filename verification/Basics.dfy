/** Vocabulary shared by every part of the model: optional values, Go's 64-bit
    integers, and the decimal text that directory identifiers are written in. */
module Basics {

  datatype Option<+T> = None | Some(value: T)

  const MAX_INT64: int := 0x7FFF_FFFF_FFFF_FFFF
  const TWO_TO_THE_64: int := 0x1_0000_0000_0000_0000

  /** The value a Go int64 holds after an operation whose exact result is `x`. */
  function Wrap64(x: int): int {
    var m := x % TWO_TO_THE_64;
    if m > MAX_INT64 then m - TWO_TO_THE_64 else m
  }

  /** Go's integer division truncates toward zero. */
  function TruncDiv(x: int, y: int): int
    requires y > 0
  {
    if x >= 0 then x / y else -((-x) / y)
  }

  predicate FitsInt64(x: int) {
    -MAX_INT64 - 1 <= x <= MAX_INT64
  }

  predicate IsDigit(c: char) {
    '0' <= c <= '9'
  }

  function DigitChar(d: int): char
    requires 0 <= d < 10
  {
    '0' + d as char
  }

  function DigitValue(c: char): nat
    requires IsDigit(c)
  {
    c as int - '0' as int
  }

  /** `strconv.Itoa` on a non-negative number. */
  function Itoa(n: nat): string {
    if n < 10 then [DigitChar(n)] else Itoa(n / 10) + [DigitChar(n % 10)]
  }

  /** The longest prefix of `s` made of digits. */
  function DigitPrefix(s: string): string {
    if s != [] && IsDigit(s[0]) then [s[0]] + DigitPrefix(s[1..]) else []
  }

  function DecimalValue(s: string): nat
    requires forall c <- s :: IsDigit(c)
  {
    if s == [] then 0 else DecimalValue(s[..|s| - 1]) * 10 + DigitValue(s[|s| - 1])
  }

  predicate IsBlank(c: char) {
    c == ' ' || '\t' <= c <= '\r'
  }

  /** Scanning skips blanks but not line ends. */
  function SkipBlanks(s: string): string {
    if s != [] && IsBlank(s[0]) && s[0] != '\n' then SkipBlanks(s[1..]) else s
  }

  /** `strings.TrimSpace` on ASCII text. */
  function Trim(s: string): string {
    if s != [] && IsBlank(s[0]) then Trim(s[1..])
    else if s != [] && IsBlank(s[|s| - 1]) then Trim(s[..|s| - 1])
    else s
  }

  /** What a query with `Limit(n)` keeps of its rows. */
  function First<T>(s: seq<T>, n: nat): (r: seq<T>)
    ensures r <= s && |r| == if |s| <= n then |s| else n
    ensures forall i | 0 <= i < |r| :: r[i] in s
  {
    if |s| <= n then s else s[..n]
  }

  ghost predicate NoDuplicates<T>(s: seq<T>) {
    forall i, j | 0 <= i < j < |s| :: s[i] != s[j]
  }

  lemma DistinctParts<T>(a: seq<T>, b: seq<T>)
    requires NoDuplicates(a) && NoDuplicates(b)
    requires forall i, j | 0 <= i < |a| && 0 <= j < |b| :: a[i] != b[j]
    ensures NoDuplicates(a + b)
  {
  }

  lemma {:induction false} DistinctCount<T>(s: seq<T>)
    requires NoDuplicates(s)
    ensures |set x | x in s| == |s|
  {
    if s != [] {
      var rest := set x | x in s[1..];
      DistinctCount(s[1..]);
      assert (set x | x in s) == {s[0]} + rest;
      assert s[0] !in rest;
    }
  }

  /** A distinct list of all the elements a set has room for holds the whole set. */
  lemma ListCoversSet<T>(s: seq<T>, all: set<T>)
    requires NoDuplicates(s) && (forall x <- s :: x in all) && |s| == |all|
    ensures forall x <- all :: x in s
  {
    DistinctCount(s);
    var listed := set x | x in s;
    if listed != all {
      assert |all - listed| == |all| - |listed|;
    }
  }

  lemma DigitPrefixIsDigits(s: string)
    ensures forall c <- DigitPrefix(s) :: IsDigit(c)
  {
  }

  /** The signed number that starts `s`, and what follows it. */
  function SignedPrefix(s: string): Option<(int, string)> {
    var signed := s != [] && (s[0] == '+' || s[0] == '-');
    var rest := if signed then s[1..] else s;
    var digits := DigitPrefix(rest);
    DigitPrefixLength(rest);
    DigitPrefixIsDigits(rest);
    var n: int := if signed && s[0] == '-' then -(DecimalValue(digits) as int) else DecimalValue(digits);
    if digits == [] || !FitsInt64(n) then None else Some((n, rest[|digits|..]))
  }

  lemma DigitPrefixLength(s: string)
    ensures |DigitPrefix(s)| <= |s|
  {
  }

  /** `fmt.Sscanf(s, "%d", &n)`: blanks, then a number; whatever follows is ignored. */
  function ScanInt(s: string): Option<int> {
    match SignedPrefix(SkipBlanks(s))
    case None => None
    case Some(p) => Some(p.0)
  }

  /** `strconv.Atoi(s)`: the whole text must be one number. */
  function Atoi(s: string): Option<int> {
    match SignedPrefix(s)
    case None => None
    case Some(p) => if p.1 == [] then Some(p.0) else None
  }

  lemma DigitReadsBack(d: int)
    requires 0 <= d < 10
    ensures IsDigit(DigitChar(d)) && DigitValue(DigitChar(d)) == d
  {
  }

  lemma {:induction false} ItoaDigits(n: nat)
    ensures Itoa(n) != []
    ensures forall c <- Itoa(n) :: IsDigit(c)
    ensures DecimalValue(Itoa(n)) == n
  {
    if n < 10 {
      DigitReadsBack(n);
      assert DecimalValue(Itoa(n)) == DecimalValue([]) * 10 + n;
    } else {
      var front, last := Itoa(n / 10), DigitChar(n % 10);
      ItoaDigits(n / 10);
      DigitReadsBack(n % 10);
      assert Itoa(n) == front + [last];
      assert (front + [last])[..|front|] == front;
    }
  }

  lemma {:induction false} AllDigitsPrefix(s: string)
    requires forall c <- s :: IsDigit(c)
    ensures DigitPrefix(s) == s
  {
    if s != [] {
      AllDigitsPrefix(s[1..]);
    }
  }

  /** Text produced from an identifier reads back as that identifier, by either reader. */
  lemma ItoaReadsBack(n: nat)
    requires n <= MAX_INT64
    ensures ScanInt(Itoa(n)) == Some(n)
    ensures Atoi(Itoa(n)) == Some(n)
    ensures Itoa(n) != ""
    ensures n > 0 ==> Itoa(n) != "0"
  {
    ItoaDigits(n);
    AllDigitsPrefix(Itoa(n));
    assert IsDigit(Itoa(n)[0]);
    if Itoa(n) == "0" {
      assert DecimalValue("0") == DecimalValue([]) * 10 + 0;
    }
  }
}

/** The number syntax of the Go standard library that the code relies on:
    fmt's %d and %04o, strconv.ParseUint, strconv.ParseInt and fmt.Sscanf's %d. */
module Numbers {
  import opened Prelude

  const INT64_LIMIT: int := 0x8000_0000_0000_0000

  predicate IsDigit(c: char, base: nat) {
    '0' <= c && (c as int) < ('0' as int) + base
  }

  predicate AllDigits(s: string, base: nat) {
    forall i | 0 <= i < |s| :: IsDigit(s[i], base)
  }

  function Digits(n: nat, base: nat): (s: string)
    requires 2 <= base <= 10
    ensures s != "" && AllDigits(s, base)
  {
    var last := ('0' as int + n % base) as char;
    if n < base then [last] else Digits(n / base, base) + [last]
  }

  function Value(s: string, base: nat): nat
    requires AllDigits(s, base)
  {
    if s == "" then 0 else Value(s[..|s| - 1], base) * base + (s[|s| - 1] as int - '0' as int)
  }

  lemma ValueSnoc(s: string, c: char, base: nat)
    requires AllDigits(s, base) && IsDigit(c, base)
    ensures AllDigits(s + [c], base) && Value(s + [c], base) == Value(s, base) * base + (c as int - '0' as int)
  {
    assert (s + [c])[..|s|] == s;
  }

  lemma ValueNothing(base: nat)
    ensures Value("", base) == 0
  {
  }

  lemma QuotientAndRest(n: nat, base: nat)
    requires base > 0
    ensures n / base * base + n % base == n && (n < base ==> n % base == n)
  {
  }

  lemma {:induction false} ValueOfDigits(n: nat, base: nat)
    requires 2 <= base <= 10
    ensures Value(Digits(n, base), base) == n
  {
    hide Value;
    var last := ('0' as int + n % base) as char;
    ValueNothing(base);
    QuotientAndRest(n, base);
    if n < base {
      assert "" + [last] == [last];
      ValueSnoc("", last, base);
    } else {
      ValueOfDigits(n / base, base);
      ValueSnoc(Digits(n / base, base), last, base);
    }
  }

  function Zeros(n: nat): (s: string)
    ensures |s| == n && AllDigits(s, 2)
  {
    if n == 0 then "" else Zeros(n - 1) + "0"
  }

  lemma {:induction false} LeadingZero(s: string, base: nat)
    requires 2 <= base <= 10 && AllDigits(s, base)
    ensures AllDigits("0" + s, base) && Value("0" + s, base) == Value(s, base)
  {
    var z := "0" + s;
    if s == "" {
      assert z[..|z| - 1] == "";
    } else {
      LeadingZero(s[..|s| - 1], base);
      assert z[..|z| - 1] == "0" + s[..|s| - 1];
    }
  }

  lemma {:induction false} LeadingZeros(n: nat, s: string, base: nat)
    requires 2 <= base <= 10 && AllDigits(s, base)
    ensures AllDigits(Zeros(n) + s, base) && Value(Zeros(n) + s, base) == Value(s, base)
  {
    if n == 0 {
      assert Zeros(n) + s == s;
    } else {
      LeadingZero(s, base);
      LeadingZeros(n - 1, "0" + s, base);
      assert Zeros(n) + s == Zeros(n - 1) + ("0" + s);
    }
  }

  /** fmt's %d. */
  function Decimal(n: int): (s: string)
    ensures s != "" && ' ' !in s && '\n' !in s
  {
    if n < 0 then "-" + Digits(-n, 10) else Digits(n, 10)
  }

  /** fmt's %04o. */
  function Octal4(n: nat): (s: string)
    ensures s != "" && AllDigits(s, 8)
  {
    var s := Digits(n, 8);
    if |s| < 4 then Zeros(4 - |s|) + s else s
  }

  /** strconv.ParseUint(s, base, bits) where limit is 2 to the power bits. */
  function ParseUint(s: string, base: nat, limit: int): Option<int> {
    if s == "" || !AllDigits(s, base) || Value(s, base) >= limit then None else Some(Value(s, base))
  }

  /** strconv.ParseInt(s, 10, 64). */
  function ParseInt64(s: string): Option<int> {
    if s != "" && s[0] == '-' then
      var n := ParseUint(s[1..], 10, INT64_LIMIT + 1);
      if n.None? then None else Some(-n.value)
    else if s != "" && s[0] == '+' then ParseUint(s[1..], 10, INT64_LIMIT)
    else ParseUint(s, 10, INT64_LIMIT)
  }

  lemma ParseOctal4(n: nat, limit: nat)
    requires n < limit
    ensures ParseUint(Octal4(n), 8, limit) == Some(n)
  {
    ValueOfDigits(n, 8);
    var s := Digits(n, 8);
    if |s| < 4 { LeadingZeros(4 - |s|, s, 8); }
  }

  lemma ParseDecimal(n: int)
    requires -INT64_LIMIT <= n < INT64_LIMIT
    ensures ParseInt64(Decimal(n)) == Some(n)
  {
    hide Value, Digits;
    if n < 0 {
      ValueOfDigits(-n, 10);
      assert Decimal(n)[1..] == Digits(-n, 10);
    } else {
      ValueOfDigits(n, 10);
      assert IsDigit(Decimal(n)[0], 10);
    }
  }

  // ---- fmt.Sscanf's %d, for lines whose only white space is ' ' ----

  function SkipSpaces(s: string): (r: string)
    ensures |r| <= |s|
  {
    if s != "" && s[0] == ' ' then SkipSpaces(s[1..]) else s
  }

  function DigitRun(s: string): (n: nat)
    ensures n <= |s| && AllDigits(s[..n], 10)
    ensures n < |s| ==> !IsDigit(s[n], 10)
  {
    if s == "" || !IsDigit(s[0], 10) then 0 else
      var n := 1 + DigitRun(s[1..]);
      assert forall i | 0 < i < n :: s[i] == s[1..][i - 1];
      n
  }

  /** One %d: the number and the input after it. */
  function ScanInt(s: string): Option<(int, string)> {
    var s := SkipSpaces(s);
    var sign := if s != "" && (s[0] == '-' || s[0] == '+') then 1 else 0;
    var n := sign + DigitRun(s[sign..]);
    var v := ParseInt64(s[..n]);
    if v.None? then None else Some((v.value, s[n..]))
  }

  /** A space in the format: at least one space in the input, or its end. */
  function ScanGap(s: string): Option<string> {
    if s == "" then Some("") else if s[0] == ' ' then Some(SkipSpaces(s)) else None
  }

  lemma ScanDecimal(n: int, rest: string)
    requires -INT64_LIMIT <= n < INT64_LIMIT
    requires rest == "" || !IsDigit(rest[0], 10)
    ensures ScanInt(Decimal(n) + rest) == Some((n, rest))
  {
    ParseDecimal(n);
    var d := Decimal(n);
    var s := d + rest;
    assert s[0] == d[0];
    assert SkipSpaces(s) == s;
    var sign := if n < 0 then 1 else 0;
    assert n >= 0 ==> IsDigit(d[0], 10);
    var body := d[sign..];
    assert body == Digits(if n < 0 then -n else n, 10);
    DigitRunConcat(body, rest);
    assert s[sign..] == body + rest;
    assert s[..|d|] == d && s[|d|..] == rest;
  }

  lemma DigitRunConcat(body: string, rest: string)
    requires AllDigits(body, 10)
    requires rest == "" || !IsDigit(rest[0], 10)
    ensures DigitRun(body + rest) == |body|
  {
    var s := body + rest;
    var n := DigitRun(s);
    assert forall i | 0 <= i < |body| :: s[i] == body[i];
    assert forall i | 0 <= i < n :: IsDigit(s[..n][i], 10) && s[..n][i] == s[i];
    assert rest != "" ==> s[|body|] == rest[0];
  }
}

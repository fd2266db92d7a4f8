/** C strings as the control protocol uses them: strstr, strtol and printing of integers. */
module Text {
  import opened Bytes

  // ----- strstr -----

  predicate At(s: string, pat: string, i: nat) { i + |pat| <= |s| && s[i..i + |pat|] == pat }

  /** The first place `pat` occurs in `s`. */
  function Find(s: string, pat: string): (r: Option<nat>)
    ensures r.Some? ==> At(s, pat, r.value) && forall j: nat :: j < r.value ==> !At(s, pat, j)
    ensures r.None? ==> forall j: nat :: !At(s, pat, j)
  {
    if |s| < |pat| then None
    else if At(s, pat, 0) then Some(0)
    else
      var rest := Find(s[1..], pat);
      AtTail(s, pat);
      if rest.Some? then Some(rest.value + 1) else None
  }

  lemma AtTail(s: string, pat: string)
    requires s != []
    ensures forall j: nat :: j > 0 ==> (At(s, pat, j) <==> At(s[1..], pat, j - 1))
  {
    forall j: nat | j > 0 ensures At(s, pat, j) <==> At(s[1..], pat, j - 1) {
      if j + |pat| <= |s| {
        SliceOfTail(s, j, j + |pat|);
      }
    }
  }

  lemma SliceOfTail(s: string, i: nat, j: nat)
    requires 1 <= i <= j <= |s|
    ensures s[i..j] == s[1..][i - 1..j - 1]
  {
    var a, b := s[i..j], s[1..][i - 1..j - 1];
    assert |a| == |b|;
    forall k | 0 <= k < |a| ensures a[k] == b[k] {
      assert a[k] == s[i + k] && b[k] == s[1..][i - 1 + k];
    }
  }

  predicate Contains(s: string, pat: string) { Find(s, pat).Some? }

  /** Every character of a contained pattern occurs in the string. */
  lemma ContainedChar(s: string, pat: string, k: nat)
    requires k < |pat|
    ensures Contains(s, pat) ==> pat[k] in s
  {
    if Contains(s, pat) {
      var i := Find(s, pat).value;
      assert s[i + k] == s[i..i + |pat|][k];
    }
  }

  // ----- numbers -----

  function DigitValue(c: char): nat {
    if '0' <= c <= '9' then c as int - '0' as int
    else if 'a' <= c <= 'f' then c as int - 'a' as int + 10
    else if 'A' <= c <= 'F' then c as int - 'A' as int + 10
    else 99
  }

  function DigitChar(d: nat): (c: char)
    requires d < 10
    ensures '0' <= c <= '9' && DigitValue(c) == d
  {
    (d + '0' as int) as char
  }

  /**
   The value of the longest run of digits of `base` at the front, added to `acc` moved up; and what follows
   the run.
   */
  function Number(s: string, base: nat, acc: nat): nat {
    if s == [] || DigitValue(s[0]) >= base then acc else Number(s[1..], base, acc * base + DigitValue(s[0]))
  }

  function AfterNumber(s: string, base: nat): string {
    if s == [] || DigitValue(s[0]) >= base then s else AfterNumber(s[1..], base)
  }

  function SkipSpaces(s: string): string {
    if s != [] && s[0] == ' ' then SkipSpaces(s[1..]) else s
  }

  /** The base strtol and strtoull find for themselves when asked to, and the digits it applies to. */
  function Base(s: string, asked: nat): nat {
    if asked != 0 then asked
    else if |s| > 2 && s[0] == '0' && (s[1] == 'x' || s[1] == 'X') && DigitValue(s[2]) < 16 then 16
    else if |s| > 0 && s[0] == '0' then 8
    else 10
  }

  function Digits(s: string, base: nat): string {
    if base == 16 && |s| > 2 && s[0] == '0' && (s[1] == 'x' || s[1] == 'X') then s[2..] else s
  }

  function Unsigned(s: string): string { if |s| > 0 && (s[0] == '-' || s[0] == '+') then s[1..] else s }

  /** strtol, strtoull read as signed: blanks, a sign, digits. */
  function Strtol(s: string, asked: nat): int {
    var t := SkipSpaces(s);
    var u := Unsigned(t);
    var base := Base(u, asked);
    var value := Number(Digits(u, base), base, 0);
    if |t| > 0 && t[0] == '-' then 0 - value else value
  }

  /** Where they stop. */
  function StrtolEnd(s: string, asked: nat): string {
    var u := Unsigned(SkipSpaces(s));
    var base := Base(u, asked);
    AfterNumber(Digits(u, base), base)
  }

  /** Left open, the base is found in front of the digits; a sign and blanks before it do not matter. */
  lemma BaseFound()
    ensures Strtol("010", 0) == 8 && Strtol("010", 10) == 10
    ensures Strtol("0x1f", 0) == 31 && Strtol(" -17", 0) == -17
  {
    assert "010"[1..] == "10" && "10"[1..] == "0" && "0"[1..] == "";
    assert "0x1f"[2..] == "1f" && "1f"[1..] == "f" && "f"[1..] == "";
    assert " -17"[1..] == "-17" && "-17"[1..] == "17" && "17"[1..] == "7" && "7"[1..] == "";
  }

  lemma {:induction false} NumberRange(s: string, base: nat, acc: nat)
    requires base == 8 || base == 10 || base == 16
    ensures Number(s, base, acc) < (acc + 1) * Sixteens(|s|)
    decreases |s|
  {
    if s != "" && DigitValue(s[0]) < base {
      var next: nat :| next == acc * base + DigitValue(s[0]);
      NextDigit(acc, base, DigitValue(s[0]));
      NumberRange(s[1..], base, next);
      WidenRange(Number(s[1..], base, next), next + 1, acc + 1, Sixteens(|s| - 1));
    } else {
      AtLeastOnce(acc, Sixteens(|s|));
    }
  }

  lemma NextDigit(acc: nat, base: nat, d: nat)
    requires (base == 8 || base == 10 || base == 16) && d < base
    ensures acc * base + d + 1 <= 16 * (acc + 1)
  {
  }

  lemma WidenRange(value: nat, a: nat, b: nat, m: nat)
    requires value < a * m && a <= 16 * b
    ensures value < b * (16 * m)
  {
    assert (16 * b - a) * m >= 0;
    assert 16 * b * m == b * (16 * m);
  }

  lemma AtLeastOnce(acc: nat, m: nat)
    requires m > 0
    ensures acc < (acc + 1) * m
  {
    assert (acc + 1) * (m - 1) >= 0;
  }

  function Sixteens(k: nat): (n: nat)
    ensures n > 0
  {
    if k == 0 then 1 else 16 * Sixteens(k - 1)
  }

  lemma {:induction false} SixteensGrow(i: nat, j: nat)
    requires i <= j
    ensures Sixteens(i) <= Sixteens(j)
    decreases j
  {
    if i < j { SixteensGrow(i, j - 1); }
  }

  lemma {:induction false} SkipShortens(s: string)
    ensures |SkipSpaces(s)| <= |s|
  {
    if s != "" && s[0] == ' ' { SkipShortens(s[1..]); }
  }

  /** Eight characters announce a number of at most 32 bits and a sign. */
  lemma ShortNumber(s: string)
    requires |s| <= 8
    ensures -0x1_0000_0000 < Strtol(s, 0) < 0x1_0000_0000
  {
    SkipShortens(s);
    var u := Unsigned(SkipSpaces(s));
    var base := Base(u, 0);
    NumberRange(Digits(u, base), base, 0);
    SixteensGrow(|Digits(u, base)|, 8);
    assert Sixteens(4) == 0x1_0000 && Sixteens(8) == 0x1_0000_0000;
  }

  // ----- printing -----

  /** %d of a number that is not negative. */
  function Dec(n: nat): (s: string)
    ensures |s| > 0 && '0' <= s[0] <= '9'
    ensures n > 0 ==> s[0] != '0'
    decreases n
  {
    if n < 10 then [DigitChar(n)] else Dec(n / 10) + [DigitChar(n % 10)]
  }

  function DecInt(n: int): string { if n < 0 then "-" + Dec(-n) else Dec(n) }

  predicate AllDigits(s: string) { forall i :: 0 <= i < |s| ==> '0' <= s[i] <= '9' }

  predicate EndsNumber(s: string) { s == [] || DigitValue(s[0]) >= 10 }

  lemma {:induction false} DecIsDigits(n: nat)
    ensures AllDigits(Dec(n))
  {
    if n >= 10 { DecIsDigits(n / 10); }
  }

  lemma {:induction false} NumberOverDigits(s: string, rest: string, acc: nat)
    requires AllDigits(s)
    ensures Number(s + rest, 10, acc) == Number(rest, 10, Number(s, 10, acc))
    ensures AfterNumber(s + rest, 10) == AfterNumber(rest, 10)
  {
    if s == [] {
      assert s + rest == rest;
    } else {
      assert (s + rest)[0] == s[0] && (s + rest)[1..] == s[1..] + rest;
      NumberOverDigits(s[1..], rest, acc * 10 + DigitValue(s[0]));
    }
  }

  lemma {:induction false} NumberOfDec(n: nat)
    ensures Number(Dec(n), 10, 0) == n
  {
    if n >= 10 {
      NumberOfDec(n / 10);
      DecIsDigits(n / 10);
      NumberOverDigits(Dec(n / 10), [DigitChar(n % 10)], 0);
    }
  }

  /** A printed number, followed by no digit, is read back exactly, in base ten or when the base is to be found. */
  lemma ReadPrinted(n: nat, rest: string, asked: nat)
    requires EndsNumber(rest) && (asked == 10 || (asked == 0 && n > 0))
    ensures Number(Dec(n) + rest, 10, 0) == n && AfterNumber(Dec(n) + rest, 10) == rest
    ensures Strtol(Dec(n) + rest, asked) == n && StrtolEnd(Dec(n) + rest, asked) == rest
  {
    DecIsDigits(n);
    NumberOverDigits(Dec(n), rest, 0);
    NumberOfDec(n);
    assert (Dec(n) + rest)[0] == Dec(n)[0];
  }

  lemma Blank(s: string, asked: nat)
    ensures Strtol(" " + s, asked) == Strtol(s, asked) && StrtolEnd(" " + s, asked) == StrtolEnd(s, asked)
  {
    assert (" " + s)[1..] == s;
  }

  /** Numbers of 64 bits have at most 19 digits. */
  lemma {:induction false} DecLength(n: nat, digits: nat, limit: nat)
    requires digits > 0 && n < limit && limit == Tens(digits)
    ensures |Dec(n)| <= digits
  {
    if n >= 10 {
      assert limit == 10 * Tens(digits - 1);
      DecLength(n / 10, digits - 1, Tens(digits - 1));
    }
  }

  function Tens(k: nat): nat { if k == 0 then 1 else 10 * Tens(k - 1) }

  function Blanks(k: nat): (s: string)
    ensures |s| == k
  {
    if k == 0 then "" else " " + Blanks(k - 1)
  }

  lemma {:induction false} BlanksSkipped(k: nat, s: string, asked: nat)
    ensures Strtol(Blanks(k) + s, asked) == Strtol(s, asked)
    ensures StrtolEnd(Blanks(k) + s, asked) == StrtolEnd(s, asked)
  {
    if k == 0 {
      assert Blanks(0) + s == s;
    } else {
      assert Blanks(k) + s == " " + (Blanks(k - 1) + s);
      Blank(Blanks(k - 1) + s, asked);
      BlanksSkipped(k - 1, s, asked);
    }
  }

  /** %5d. */
  function Pad5(n: nat): string {
    var d := Dec(n);
    if |d| < 5 then Blanks(5 - |d|) + d else d
  }

  lemma Pad5Reads(n: nat)
    requires 0 < n < 1000
    ensures |Pad5(n)| == 5 && Pad5(n)[0] == ' ' && Strtol(Pad5(n), 0) == n
  {
    assert Tens(2) == 100;
    DecLength(n, 3, 1000);
    assert Dec(n) + "" == Dec(n);
    ReadPrinted(n, "", 0);
    BlanksSkipped(5 - |Dec(n)|, Dec(n), 0);
  }
}

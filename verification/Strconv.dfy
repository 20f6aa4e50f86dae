/** The text conversions of the Go standard library that the control plane relies on. */
module Strconv {
  import opened Api

  const MAX_INT64 := 0x7fff_ffff_ffff_ffff
  const MIN_INT64 := -0x8000_0000_0000_0000

  predicate IsInt64(n: int) { MIN_INT64 <= n <= MAX_INT64 }

  /** Two's-complement truncation to 32 and to 64 bits. */
  function Int32(n: int): int { (n + 0x8000_0000) % 0x1_0000_0000 - 0x8000_0000 }

  function Int64(n: int): int { (n + 0x8000_0000_0000_0000) % 0x1_0000_0000_0000_0000 - 0x8000_0000_0000_0000 }

  predicate IsDigit(c: char) { '0' <= c <= '9' }

  function DigitValue(c: char): nat
    requires IsDigit(c)
  {
    c as int - '0' as int
  }

  predicate AllDigits(s: string) { forall i :: 0 <= i < |s| ==> IsDigit(s[i]) }

  function DigitsValue(s: string): nat
    requires AllDigits(s)
  {
    if s == "" then 0 else 10 * DigitsValue(s[..|s| - 1]) + DigitValue(s[|s| - 1])
  }

  /** strconv.Atoi: an optional sign, at least one decimal digit, and a value in the 64-bit range. */
  function Atoi(s: string): (r: Option<int>)
    ensures r.Some? ==> IsInt64(r.value)
  {
    if s == "" then None
    else
      var negative := s[0] == '-';
      var body := if negative || s[0] == '+' then s[1..] else s;
      if body == "" || !AllDigits(body) then None
      else
        var magnitude: int := DigitsValue(body);
        var n := if negative then -magnitude else magnitude;
        if IsInt64(n) then Some(n) else None
  }

  function DigitChar(d: nat): (c: char)
    requires d < 10
    ensures IsDigit(c) && DigitValue(c) == d
  {
    ('0' as int + d) as char
  }

  function Decimal(n: nat): (s: string)
    ensures s != "" && AllDigits(s) && DigitsValue(s) == n
  {
    if n < 10 then [DigitChar(n)] else Decimal(n / 10) + [DigitChar(n % 10)]
  }

  function Itoa(n: int): string { if n < 0 then "-" + Decimal(-n) else Decimal(n) }

  /** Every 64-bit integer survives the trip through its decimal text. */
  lemma AtoiItoa(n: int)
    requires IsInt64(n)
    ensures Atoi(Itoa(n)) == Some(n)
  {
    AtoiOf(Decimal(if n < 0 then -n else n), n);
  }

  function Zeros(k: nat): (s: string)
    ensures |s| == k && AllDigits(s)
  {
    seq(k, _ => '0')
  }

  lemma {:induction false} LeadingZeros(k: nat, s: string)
    requires AllDigits(s)
    ensures AllDigits(Zeros(k) + s) && DigitsValue(Zeros(k) + s) == DigitsValue(s)
    decreases k, s
  {
    if s != "" {
      LeadingZeros(k, s[..|s| - 1]);
      assert (Zeros(k) + s)[..|Zeros(k) + s| - 1] == Zeros(k) + s[..|s| - 1];
    } else if k > 0 {
      LeadingZeros(k - 1, s);
      assert (Zeros(k) + s)[..|Zeros(k) + s| - 1] == Zeros(k - 1) + s;
    }
  }

  lemma AtoiOf(body: string, n: int)
    requires body != "" && AllDigits(body) && IsInt64(n)
    requires DigitsValue(body) == if n < 0 then -n else n
    ensures Atoi(if n < 0 then "-" + body else body) == Some(n)
  {
    assert IsDigit(body[0]);
    assert ("-" + body)[1..] == body;
  }

  /** An integer has arbitrarily long spellings, so no finite list of strings exhausts them. */
  lemma LongSpelling(n: int, k: nat) returns (s: string)
    requires IsInt64(n)
    ensures |s| > k && Atoi(s) == Some(n)
  {
    hide Atoi, DigitsValue;
    var digits := Decimal(if n < 0 then -n else n);
    LeadingZeros(k, digits);
    AtoiOf(Zeros(k) + digits, n);
    s := if n < 0 then "-" + (Zeros(k) + digits) else Zeros(k) + digits;
  }

  /** unicode.IsSpace. */
  predicate IsSpace(c: char) {
    var u := c as int;
    (9 <= u <= 13) || u == 32 || u == 0x85 || u == 0xA0 || u == 0x1680 || (0x2000 <= u <= 0x200a)
    || u == 0x2028 || u == 0x2029 || u == 0x202f || u == 0x205f || u == 0x3000
  }

  /** strings.TrimSpace. */
  function TrimSpace(s: string): string
    decreases |s|
  {
    if s != "" && IsSpace(s[0]) then TrimSpace(s[1..])
    else if s != "" && IsSpace(s[|s| - 1]) then TrimSpace(s[..|s| - 1])
    else s
  }

  /** strings.Cut at a one-character separator: the position of its first occurrence. */
  function CutAt(s: string, c: char): (r: Option<nat>)
    ensures r.Some? ==> r.value < |s| && s[r.value] == c && c !in s[..r.value]
    ensures r.None? ==> c !in s
  {
    if s == "" then None
    else if s[0] == c then Some(0)
    else
      var rest := CutAt(s[1..], c);
      if rest.None? then None
      else
        assert s[..rest.value + 1] == [s[0]] + s[1..][..rest.value];
        Some(rest.value + 1)
  }

  // ----- What the library functions do to text -----

  predicate AllSpaces(s: string) { forall i :: 0 <= i < |s| ==> IsSpace(s[i]) }

  /** Text that neither starts nor ends with a space comes out of any padding. */
  lemma {:induction false} TrimPadded(pre: string, s: string, post: string)
    requires AllSpaces(pre) && AllSpaces(post) && s != "" && !IsSpace(s[0]) && !IsSpace(s[|s| - 1])
    ensures TrimSpace(pre + s + post) == s
    decreases |pre| + |post|
  {
    var all := pre + s + post;
    if pre != "" {
      assert all[0] == pre[0] && all[1..] == pre[1..] + s + post;
      TrimPadded(pre[1..], s, post);
    } else if post != "" {
      assert all[0] == s[0] && all[|all| - 1] == post[|post| - 1];
      assert all[..|all| - 1] == pre + s + post[..|post| - 1];
      TrimPadded(pre, s, post[..|post| - 1]);
    } else {
      assert all == s;
    }
  }

  lemma NumberText(n: nat)
    ensures Itoa(n) != "" && AllDigits(Itoa(n)) && !IsSpace(Itoa(n)[0]) && !IsSpace(Itoa(n)[|Itoa(n)| - 1])
    ensures '-' !in Itoa(n) && '%' !in Itoa(n)
  {
    assert Itoa(n) == Decimal(n);
    hide Decimal, Itoa;
    var text := Itoa(n);
    assert IsDigit(text[0]) && IsDigit(text[|text| - 1]);
    forall i | 0 <= i < |text| ensures text[i] != '-' && text[i] != '%' { assert IsDigit(text[i]); }
  }

  lemma NumberEnds(n: int)
    ensures Itoa(n) != "" && !IsSpace(Itoa(n)[0]) && !IsSpace(Itoa(n)[|Itoa(n)| - 1]) && Itoa(n)[|Itoa(n)| - 1] != '%'
  {
    NumberText(if n < 0 then -n else n);
    assert n < 0 ==> Itoa(n) == "-" + Itoa(-n);
  }

  lemma {:induction false} CutsAtFirst(a: string, c: char, b: string)
    requires c !in a
    ensures CutAt(a + [c] + b, c) == Some(|a|)
    decreases |a|
  {
    if a != "" {
      assert (a + [c] + b)[0] == a[0] && (a + [c] + b)[1..] == a[1..] + [c] + b;
      CutsAtFirst(a[1..], c, b);
    }
  }

  lemma {:induction false} CutsNowhere(s: string, c: char)
    requires c !in s
    ensures CutAt(s, c) == None
    decreases |s|
  {
    if s != "" { CutsNowhere(s[1..], c); }
  }
}

/**
 * Models of the kernel library helpers the callbacks call: C strings, number formatting
 * (the conversions of printf-style formats used by sysfs_emit, seq_printf and sprintf),
 * kstrtoint and kstrtobool, strsep and strscpy, and copy_from_user. None of these is
 * part of the modelled source: each follows the helper's documented behaviour.
 */
module KernelLib {
  import opened Errno

  const NUL: char := '\0'

  /** A kernel parser's outcome: the parsed value, or a negative error number. */
  datatype KResult<T> = Ok(value: T) | Err(code: int)

  // ---------------------------------------------------------------- C strings

  /** The C string stored in s: everything before the first NUL (all of s if it holds none). */
  function CString(s: seq<char>): (r: seq<char>)
    ensures r <= s
    ensures NUL !in r
    ensures |r| < |s| ==> s[|r|] == NUL
  {
    if s == [] || s[0] == NUL then [] else [s[0]] + CString(s[1..])
  }

  /** strlen on a NUL-free prefix followed by a NUL: the C string is exactly that prefix. */
  lemma {:induction false} CStringOfTerminated(p: seq<char>, rest: seq<char>)
    requires NUL !in p
    ensures CString(p + [NUL] + rest) == p
  {
    if p != [] {
      assert (p + [NUL] + rest)[1..] == p[1..] + [NUL] + rest;
      CStringOfTerminated(p[1..], rest);
    } else {
      assert (p + [NUL] + rest)[0] == NUL;
    }
  }

  // ---------------------------------------------------------------- digits

  /** The digit character for d (upper-case for 10..15, as %X prints). */
  function DigitChar(d: nat): char
    requires d < 16
  {
    if d < 10 then ('0' as int + d) as char else ('A' as int + (d - 10)) as char
  }

  lemma DigitOfChar(d: nat)
    requires d < 16
    ensures DigitOf(DigitChar(d)) == d
  {
  }

  /** The value of c as a digit of a base up to 16, in either case; 16 when c is no digit. */
  function DigitOf(c: char): (d: nat)
    ensures d <= 16
  {
    if '0' <= c <= '9' then c as int - '0' as int
    else if 'a' <= c <= 'f' then c as int - 'a' as int + 10
    else if 'A' <= c <= 'F' then c as int - 'A' as int + 10
    else 16
  }

  ghost predicate AllDigits(s: string, base: nat)
  {
    forall i :: 0 <= i < |s| ==> DigitOf(s[i]) < base
  }

  function Pow(b: nat, w: nat): (p: nat)
    ensures b >= 1 ==> p >= 1
  {
    if w == 0 then 1 else b * Pow(b, w - 1)
  }

  /** The unpadded digits of n in the given base: how %u, %d (of a magnitude) and %X print n. */
  function Digits(n: nat, base: nat): (s: string)
    requires 2 <= base <= 16
    ensures |s| >= 1
    ensures AllDigits(s, base)
    ensures n > 0 ==> s[0] != '0'
    decreases n
  {
    if n < base then [DigitChar(n)]
    else
      DivFacts(n, base);
      var hi := Digits(n / base, base);
      var s := hi + [DigitChar(n % base)];
      assert forall i :: 0 <= i < |hi| ==> s[i] == hi[i];
      s
  }

  lemma DivFacts(n: nat, b: nat)
    requires 2 <= b <= n
    ensures 1 <= n / b < n && n % b < b
  {
  }

  /** The value of a string of digits, most significant first. */
  function ValueOf(s: string, base: nat): nat
    requires AllDigits(s, base)
  {
    if s == [] then 0 else ValueOf(s[..|s| - 1], base) * base + DigitOf(s[|s| - 1])
  }

  lemma DivMod(n: nat, b: nat)
    requires b >= 1
    ensures n == (n / b) * b + n % b
  {
  }

  lemma ValueOfSnoc(hi: string, c: char, base: nat)
    requires AllDigits(hi, base) && DigitOf(c) < base
    ensures AllDigits(hi + [c], base)
    ensures ValueOf(hi + [c], base) == ValueOf(hi, base) * base + DigitOf(c)
  {
    assert (hi + [c])[..|hi + [c]| - 1] == hi;
  }

  /** Formatting a number and reading its digits back gives the number. */
  lemma {:induction false} DigitsRoundTrip(n: nat, base: nat)
    requires 2 <= base <= 16
    ensures ValueOf(Digits(n, base), base) == n
    decreases n
  {
    if n >= base {
      var q, d := n / base, n % base;
      DivFacts(n, base);
      var hi := Digits(q, base);
      DigitOfChar(d);
      ValueOfSnoc(hi, DigitChar(d), base);
      assert Digits(n, base) == hi + [DigitChar(d)];
      DigitsRoundTrip(q, base);
      DivMod(n, base);
    } else {
      DigitOfChar(n);
    }
  }

  lemma DigitsSnoc(n: nat, base: nat)
    requires 2 <= base <= n && base <= 16
    ensures |Digits(n, base)| == |Digits(n / base, base)| + 1
  {
    DivFacts(n, base);
  }

  /** n prints in at most w digits exactly when it is below base^w. */
  lemma {:induction false} DigitsLength(n: nat, base: nat, w: nat)
    requires 2 <= base <= 16 && w >= 1
    ensures |Digits(n, base)| <= w <==> n < Pow(base, w)
    decreases n
  {
    if n < base {
      PowAtLeast(base, w);
    } else {
      DigitsSnoc(n, base);
      DivFacts(n, base);
      if w == 1 {
        assert Pow(base, 1) == base;
      } else {
        var p := Pow(base, w - 1);
        DigitsLength(n / base, base, w - 1);
        assert Pow(base, w) == base * p;
        DivBound(n, base, p);
      }
    }
  }

  lemma PowAtLeast(b: nat, w: nat)
    requires b >= 2 && w >= 1
    ensures Pow(b, w) >= b
    decreases w
  {
    if w > 1 {
      PowAtLeast(b, w - 1);
    }
  }

  lemma DivBound(n: nat, b: nat, p: nat)
    requires b >= 1
    ensures n / b < p <==> n < b * p
  {
    DivMod(n, b);
    if n / b < p {
      assert n / b <= p - 1;
      assert (n / b) * b <= (p - 1) * b;
    } else {
      assert (n / b) * b >= p * b;
    }
  }

  /** The w low digits of n, most significant first: the zero-padded field of %02X, %04X and
      %03u when n < base^w (FieldValue), which the callers' types guarantee. */
  function Field(n: nat, base: nat, w: nat): (s: string)
    requires 2 <= base <= 16 && w >= 1
    ensures |s| == w
    decreases w
  {
    if w == 1 then [DigitChar(n % base)]
    else Field(n / base, base, w - 1) + [DigitChar(n % base)]
  }

  /** n has at most w digits in the base: n < base^w, one division at a time. */
  predicate FitsIn(n: nat, base: nat, w: nat)
    requires 2 <= base && w >= 1
    decreases w
  {
    if w == 1 then n < base else FitsIn(n / base, base, w - 1)
  }

  /** A field of a number that fits is exactly w digits whose value is the number. */
  lemma {:induction false} FieldValue(n: nat, base: nat, w: nat)
    requires 2 <= base <= 16 && w >= 1 && FitsIn(n, base, w)
    ensures AllDigits(Field(n, base, w), base) && ValueOf(Field(n, base, w), base) == n
    decreases w
  {
    if w == 1 {
      LowField(n, base);
    } else {
      FieldValue(n / base, base, w - 1);
      FieldSnoc(n, base, w);
    }
  }

  lemma LowField(n: nat, base: nat)
    requires 2 <= base <= 16 && n < base
    ensures AllDigits(Field(n, base, 1), base) && ValueOf(Field(n, base, 1), base) == n
  {
    ModSmall(n, base);
    DigitOfChar(n);
    assert Field(n, base, 1) == [] + [DigitChar(n)];
    ValueOfSnoc([], DigitChar(n), base);
  }

  lemma ModSmall(n: nat, b: nat)
    requires n < b
    ensures n % b == n
  {
  }

  lemma FieldSnoc(n: nat, base: nat, w: nat)
    requires 2 <= base <= 16 && w > 1
    requires AllDigits(Field(n / base, base, w - 1), base) && ValueOf(Field(n / base, base, w - 1), base) == n / base
    ensures AllDigits(Field(n, base, w), base) && ValueOf(Field(n, base, w), base) == n
  {
    var d := n % base;
    DigitOfChar(d);
    var hi := Field(n / base, base, w - 1);
    assert Field(n, base, w) == hi + [DigitChar(d)];
    ValueOfLowDigit(hi, DigitChar(d), n, base);
  }

  /** Appending the digit n % base to the digits of n / base gives the digits of n. */
  lemma ValueOfLowDigit(hi: string, c: char, n: nat, base: nat)
    requires 2 <= base && AllDigits(hi, base) && ValueOf(hi, base) == n / base && DigitOf(c) == n % base
    ensures AllDigits(hi + [c], base) && ValueOf(hi + [c], base) == n
  {
    ValueOfSnoc(hi, c, base);
    DivMod(n, base);
  }

  /** %d of a signed value. */
  function FormatInt(x: int): (s: string)
    ensures |s| >= 1
  {
    if x < 0 then "-" + Digits(-x, 10) else Digits(x, 10)
  }

  lemma FormatIntLength(x: i32)
    ensures |FormatInt(x)| <= 11
  {
    var xi: int := x;
    var m: nat := if xi < 0 then -xi else xi;
    assert Pow(10, 10) == 10_000_000_000;
    DigitsLength(m, 10, 10);
  }

  // ---------------------------------------------------------------- kstrtoint

  /** Number of leading characters of s that are digits of base. */
  function DigitRun(s: string, base: nat): (k: nat)
    ensures k <= |s|
    ensures AllDigits(s[..k], base)
    ensures k < |s| ==> DigitOf(s[k]) >= base
  {
    if s == [] || DigitOf(s[0]) >= base then 0
    else
      var k := 1 + DigitRun(s[1..], base);
      assert s[..k] == [s[0]] + s[1..][..k - 1];
      k
  }

  lemma {:induction false} DigitRunOfDigits(d: string, t: string, base: nat)
    requires AllDigits(d, base)
    requires t == [] || DigitOf(t[0]) >= base
    ensures DigitRun(d + t, base) == |d|
  {
    if d != [] {
      assert (d + t)[1..] == d[1..] + t;
      DigitRunOfDigits(d[1..], t, base);
    }
  }

  /** Base autodetection of base 0: "0x" followed by a hex digit selects 16 (and is skipped), a
      leading 0 selects 8, anything else 10. Returns the base and where the digits start. */
  function Radix(s: string): (r: (nat, nat))
    ensures r.0 in {8, 10, 16} && r.1 <= |s|
  {
    if |s| >= 1 && s[0] == '0' then
      if |s| >= 3 && (s[1] == 'x' || s[1] == 'X') && DigitOf(s[2]) < 16 then (16, 2) else (8, 0)
    else (10, 0)
  }

  const U64Limit: nat := 0x1_0000_0000_0000_0000

  /** _kstrtoull with base 0: digits after the radix prefix, at most one trailing newline,
      -ERANGE when the value does not fit 64 bits, -EINVAL for anything else malformed. */
  function ParseUnsigned(s: string): (r: KResult<nat>)
    ensures r.Ok? ==> r.value < U64Limit
    ensures r.Err? ==> r.code in {-EINVAL, -ERANGE}
  {
    var (base, start) := Radix(s);
    var t := s[start..];
    var k := DigitRun(t, base);
    var v := ValueOf(t[..k], base);
    if v >= U64Limit then Err(-ERANGE)
    else if k == 0 then Err(-EINVAL)
    else if t[k..] == [] || t[k..] == "\n" then Ok(v)
    else Err(-EINVAL)
  }

  /** kstrtoint(s, 0, &v): an optional sign ('+' is only accepted without '-'), then
      ParseUnsigned; a value outside the 32-bit range is -ERANGE (the 64-bit checks of
      kstrtoll yield the same error, so they are folded into this one). */
  function KstrToInt(s: string): (r: KResult<int>)
    ensures r.Ok? ==> I32Min <= r.value <= I32Max
    ensures r.Err? ==> r.code in {-EINVAL, -ERANGE}
  {
    if |s| > 0 && s[0] == '-' then
      match ParseUnsigned(s[1..])
      case Err(e) => Err(e)
      case Ok(v) =>
        var neg: int := -(v as int);
        if neg < I32Min then Err(-ERANGE) else Ok(neg)
    else
      var t := if |s| > 0 && s[0] == '+' then s[1..] else s;
      match ParseUnsigned(t)
      case Err(e) => Err(e)
      case Ok(v) => if v > I32Max then Err(-ERANGE) else Ok(v)
  }

  lemma ParseUnsignedDigits(n: nat, tail: string)
    requires n < U64Limit
    requires tail == [] || tail == "\n"
    ensures ParseUnsigned(Digits(n, 10) + tail) == Ok(n)
  {
    var d := Digits(n, 10);
    var s := d + tail;
    DigitsRoundTrip(n, 10);
    if n == 0 {
      assert d == "0";
      assert Radix(s) == (8, 0);
      assert AllDigits(d, 8);
      assert DigitOf('0') == 0;
      assert ValueOf(d, 8) == 0;
    } else {
      assert s[0] == d[0] != '0';
      assert Radix(s) == (10, 0);
    }
    var (base, _) := Radix(s);
    assert AllDigits(d, base);
    DigitRunOfDigits(d, tail, base);
    assert s[..|d|] == d && s[|d|..] == tail;
  }

  lemma KstrToIntOfNegative(s: string, m: nat)
    requires |s| > 0 && s[0] == '-' && ParseUnsigned(s[1..]) == Ok(m) && m <= -I32Min
    ensures KstrToInt(s) == Ok(-(m as int))
  {
  }

  lemma KstrToIntOfUnsigned(s: string, m: nat)
    requires |s| > 0 && s[0] != '-' && s[0] != '+' && ParseUnsigned(s) == Ok(m) && m <= I32Max
    ensures KstrToInt(s) == Ok(m)
  {
  }

  /** What sysfs int show prints (FormatInt, optionally with its newline) parses back to the same value. */
  lemma KstrToIntFormat(x: i32, tail: string)
    requires tail == [] || tail == "\n"
    ensures KstrToInt(FormatInt(x) + tail) == Ok(x)
  {
    var xi: int := x;
    var s := FormatInt(x) + tail;
    if xi < 0 {
      var m: nat := -xi;
      var d := Digits(m, 10);
      assert s == "-" + d + tail;
      assert s[1..] == d + tail;
      ParseUnsignedDigits(m, tail);
      KstrToIntOfNegative(s, m);
    } else {
      var m: nat := xi;
      var d := Digits(m, 10);
      assert s == d + tail;
      assert DigitOf(s[0]) < 10;
      ParseUnsignedDigits(m, tail);
      KstrToIntOfUnsigned(s, m);
    }
  }

  // ---------------------------------------------------------------- kstrtobool

  /** kstrtobool: decided by the first character (y/Y/t/T/1 or n/N/f/F/0), or for "on"/"off"
      by the first two; everything else, the empty string included, is -EINVAL. */
  function KstrToBool(s: string): (r: KResult<bool>)
    ensures r.Err? ==> r.code == -EINVAL
  {
    if |s| == 0 then Err(-EINVAL)
    else if s[0] in "yYtT1" then Ok(true)
    else if s[0] in "nNfF0" then Ok(false)
    else if s[0] in "oO" && |s| >= 2 then
      if s[1] in "nN" then Ok(true) else if s[1] in "fF" then Ok(false) else Err(-EINVAL)
    else Err(-EINVAL)
  }

  /** %d of a bool: "0" or "1". */
  function FormatBool(b: bool): (s: string)
    ensures KstrToBool(s) == Ok(b)
    ensures |s| == 1
  {
    if b then "1" else "0"
  }

  // ---------------------------------------------------------------- seq_file output

  /** Strings concatenated in order (what successive seq_printf calls leave in the buffer). */
  function Flatten(rs: seq<string>): string
  {
    if rs == [] then [] else rs[0] + Flatten(rs[1..])
  }

  lemma {:induction false} FlattenAppend(rs: seq<string>, r: string)
    ensures Flatten(rs + [r]) == Flatten(rs) + r
  {
    if rs != [] {
      assert (rs + [r])[1..] == rs[1..] + [r];
      FlattenAppend(rs[1..], r);
    } else {
      assert Flatten([r]) == r + Flatten([]);
    }
  }

  // ---------------------------------------------------------------- strsep

  /** The delimiters the bulk write passes to strsep: " ,\n". */
  predicate IsDelimiter(c: char)
  {
    c == ' ' || c == ',' || c == '\n'
  }

  /** The index of the first delimiter in s, or |s| when there is none. */
  function FirstDelimiter(s: string): (k: nat)
    ensures k <= |s|
    ensures k < |s| ==> IsDelimiter(s[k])
    ensures forall i :: 0 <= i < k ==> !IsDelimiter(s[i])
  {
    if s == [] || IsDelimiter(s[0]) then 0 else 1 + FirstDelimiter(s[1..])
  }

  /** strsep(&it, " ,\n"): returns NULL when it is NULL; otherwise the text up to the first
      delimiter, and moves it just past that delimiter, or to NULL when there is none. */
  function Strsep(it: Option<string>): (r: (Option<string>, Option<string>))
    ensures it.None? <==> r.0.None?
    ensures it.Some? ==> NoDelimiter(r.0.value) && r.0.value <= it.value
    ensures it.Some? && r.1.None? ==> r.0.value == it.value
    ensures it.Some? && r.1.Some? ==>
      && |r.0.value| < |it.value| && IsDelimiter(it.value[|r.0.value|])
      && it.value == r.0.value + [it.value[|r.0.value|]] + r.1.value
  {
    match it
    case None => (None, None)
    case Some(s) =>
      var k := FirstDelimiter(s);
      if k == |s| then (Some(s), None) else (Some(s[..k]), Some(s[k + 1..]))
  }

  datatype Option<T> = None | Some(value: T)

  /** Every token repeated strsep calls return for s before returning NULL. */
  function Tokens(s: string): (ts: seq<string>)
    ensures |ts| >= 1
    decreases |s|
  {
    var k := FirstDelimiter(s);
    if k == |s| then [s] else [s[..k]] + Tokens(s[k + 1..])
  }

  /** The tokens still to come from a strsep iterator. */
  function Pending(it: Option<string>): seq<string>
  {
    match it
    case None => []
    case Some(s) => Tokens(s)
  }

  /** One strsep step yields the next pending token and leaves the rest pending. */
  lemma StrsepStep(it: Option<string>)
    ensures var (tok, it') := Strsep(it);
      (it.Some? ==> tok == Some(Pending(it)[0]) && Pending(it') == Pending(it)[1..])
  {
  }

  /** The delimiters of s, in order. */
  function DelimitersOf(s: string): string
  {
    if s == [] then [] else (if IsDelimiter(s[0]) then [s[0]] else []) + DelimitersOf(s[1..])
  }

  /** Tokens interleaved with the delimiters between them. */
  function Join(ts: seq<string>, ds: string): string
    requires |ts| == |ds| + 1
  {
    if ds == [] then ts[0] else ts[0] + [ds[0]] + Join(ts[1..], ds[1..])
  }

  lemma {:induction false} DelimitersOfSplit(s: string, k: nat)
    requires k <= |s|
    requires forall i :: 0 <= i < k ==> !IsDelimiter(s[i])
    ensures DelimitersOf(s) == DelimitersOf(s[k..])
  {
    if k > 0 {
      assert s[1..][k - 1..] == s[k..];
      DelimitersOfSplit(s[1..], k - 1);
    }
  }

  /** One strsep step on a text with a delimiter at k: the token before it, then the tokens of
      the rest; the delimiters are that one, then those of the rest. */
  lemma {:induction false} TokensUnfold(s: string)
    requires FirstDelimiter(s) < |s|
    ensures var k := FirstDelimiter(s);
      && Tokens(s) == [s[..k]] + Tokens(s[k + 1..])
      && DelimitersOf(s) == [s[k]] + DelimitersOf(s[k + 1..])
      && s == s[..k] + [s[k]] + s[k + 1..]
  {
    var k := FirstDelimiter(s);
    DelimitersOfSplit(s, k);
    assert s[k..] == [s[k]] + s[k + 1..];
  }

  lemma {:induction false} TokensCount(s: string)
    ensures |Tokens(s)| == |DelimitersOf(s)| + 1
    decreases |s|
  {
    var k := FirstDelimiter(s);
    if k == |s| {
      DelimitersOfSplit(s, k);
      assert s[k..] == [];
    } else {
      TokensUnfold(s);
      TokensCount(s[k + 1..]);
    }
  }

  /** Tokenising loses nothing: joining the tokens with the delimiters gives s back. */
  lemma {:induction false} TokensJoin(s: string)
    ensures |Tokens(s)| == |DelimitersOf(s)| + 1
    ensures Join(Tokens(s), DelimitersOf(s)) == s
    decreases |s|
  {
    TokensCount(s);
    var k := FirstDelimiter(s);
    if k == |s| {
      DelimitersOfSplit(s, k);
      assert s[k..] == [];
    } else {
      var rest := s[k + 1..];
      TokensUnfold(s);
      TokensJoin(rest);
      var ts, ds := Tokens(s), DelimitersOf(s);
      assert ts[1..] == Tokens(rest) && ds[1..] == DelimitersOf(rest);
      assert Join(ts, ds) == ts[0] + [ds[0]] + Join(ts[1..], ds[1..]);
    }
  }

  /** No token holds a delimiter. */
  lemma {:induction false} TokensHaveNoDelimiter(s: string)
    ensures forall j :: 0 <= j < |Tokens(s)| ==> NoDelimiter(Tokens(s)[j])
    decreases |s|
  {
    var k := FirstDelimiter(s);
    if k < |s| {
      TokensUnfold(s);
      TokensHaveNoDelimiter(s[k + 1..]);
      assert NoDelimiter(s[..k]);
    }
  }

  /** No character of t is a delimiter. */
  ghost predicate NoDelimiter(t: string)
  {
    forall i :: 0 <= i < |t| ==> !IsDelimiter(t[i])
  }

  lemma {:induction false} FirstDelimiterOf(t: string, rest: string)
    requires NoDelimiter(t) && (rest == [] || IsDelimiter(rest[0]))
    ensures FirstDelimiter(t + rest) == |t|
  {
    if t != [] {
      assert (t + rest)[1..] == t[1..] + rest;
      FirstDelimiterOf(t[1..], rest);
    }
  }

  /** The converse of TokensJoin: tokens without delimiters, joined by delimiters, are exactly
      what strsep splits the text back into. */
  lemma SplitAround(a: string, c: char, b: string)
    ensures var s := a + [c] + b;
      s[..|a|] == a && s[|a|] == c && s[|a| + 1..] == b
  {
  }

  lemma {:induction false} TokensOfJoin(ts: seq<string>, ds: string)
    requires |ts| == |ds| + 1
    requires forall j :: 0 <= j < |ds| ==> IsDelimiter(ds[j])
    requires forall j :: 0 <= j < |ts| ==> NoDelimiter(ts[j])
    ensures Tokens(Join(ts, ds)) == ts
  {
    if ds == [] {
      FirstDelimiterOf(ts[0], []);
      assert ts[0] + [] == ts[0];
    } else {
      var rest := Join(ts[1..], ds[1..]);
      var s := ts[0] + [ds[0]] + rest;
      assert s == ts[0] + ([ds[0]] + rest);
      FirstDelimiterOf(ts[0], [ds[0]] + rest);
      SplitAround(ts[0], ds[0], rest);
      TokensUnfold(s);
      TokensOfJoin(ts[1..], ds[1..]);
      assert ts == [ts[0]] + ts[1..];
    }
  }

  /** A formatted number holds no NUL: its C string is all of it. */
  lemma FormatIntNoNul(x: int)
    ensures NUL !in FormatInt(x)
  {
    var xi: int := x;
    var d := Digits(if xi < 0 then -xi else xi, 10);
    assert forall i :: 0 <= i < |d| ==> DigitOf(d[i]) < 10;
  }

  /** %d output never holds a delimiter. */
  lemma FormatIntNoDelimiter(x: int)
    ensures NoDelimiter(FormatInt(x))
  {
    var s := FormatInt(x);
    var xi: int := x;
    var d := Digits(if xi < 0 then -xi else xi, 10);
    forall i | 0 <= i < |d|
      ensures !IsDelimiter(d[i])
    {
      assert DigitOf(d[i]) < 10;
    }
  }

  // ---------------------------------------------------------------- strscpy

  /** strscpy(dst, src, size) for size >= 1 on the C string src: the bytes that land before
      dst's new terminator, and the return value (|src|, or -E2BIG if src was cut to size - 1). */
  function StrScpy(src: string, size: nat): (r: (string, int))
    requires size >= 1
    ensures |r.0| < size && r.0 <= src
    ensures r.1 >= 0 <==> |src| < size
    ensures r.1 >= 0 ==> r.0 == src && r.1 == |src|
    ensures r.1 < 0 ==> r.1 == -E2BIG && |r.0| == size - 1
  {
    if |src| < size then (src, |src|) else (src[..size - 1], -E2BIG)
  }

  // ---------------------------------------------------------------- copy_from_user

  /** Bytes an n-byte copy_from_user leaves in its destination when it could not copy the last
      `missed` bytes of src: the copied prefix, then zero fill. */
  function UserCopy(src: seq<char>, missed: nat): (r: seq<char>)
    requires missed <= |src|
    ensures |r| == |src|
    ensures r[..|src| - missed] == src[..|src| - missed]
    ensures missed == 0 ==> r == src
  {
    src[..|src| - missed] + seq(missed, _ => NUL)
  }

  /** s with the window starting at `at` replaced by w. */
  function Overwrite(s: seq<char>, at: nat, w: seq<char>): (r: seq<char>)
    requires at + |w| <= |s|
    ensures |r| == |s|
    ensures r[..at] == s[..at] && r[at..at + |w|] == w && r[at + |w|..] == s[at + |w|..]
  {
    s[..at] + w + s[at + |w|..]
  }

  /** copy_from_user(dst + at, src, |src|): fault is how many trailing bytes the user mapping
      could not supply; returns the number not copied. */
  method CopyFromUser(dst: array<char>, at: nat, src: seq<char>, fault: nat) returns (missed: nat)
    requires at + |src| <= dst.Length
    modifies dst
    ensures missed == Min(fault, |src|)
    ensures dst[..] == Overwrite(old(dst[..]), at, UserCopy(src, missed))
  {
    missed := Min(fault, |src|);
    var w := UserCopy(src, missed);
    forall i | at <= i < at + |src| {
      dst[i] := w[i - at];
    }
    assert dst[..] == Overwrite(old(dst[..]), at, w) by {
      var r := Overwrite(old(dst[..]), at, w);
      assert forall i :: 0 <= i < dst.Length ==> dst[..][i] == r[i] by {
        forall i | 0 <= i < dst.Length ensures dst[..][i] == r[i] {
          if i < at {
            assert r[..at][i] == old(dst[..])[..at][i];
          } else if i < at + |src| {
            assert r[at..at + |w|][i - at] == w[i - at];
          } else {
            assert r[at + |w|..][i - at - |w|] == old(dst[..])[at + |w|..][i - at - |w|];
          }
        }
      }
    }
  }

  /** What sprintf, snprintf (of a text that fits) and strscpy leave in dst: the text from
      index 0, then a terminator; the bytes after it are left as they were. */
  method CopyTerminated(dst: array<char>, s: string)
    requires |s| < dst.Length && NUL !in s
    modifies dst
    ensures dst[..] == Overwrite(old(dst[..]), 0, s + [NUL])
    ensures CString(dst[..]) == s && dst[|s|] == NUL
  {
    forall i | 0 <= i < |s| {
      dst[i] := s[i];
    }
    dst[|s|] := NUL;
    assert dst[..] == Overwrite(old(dst[..]), 0, s + [NUL]) by {
      var w := Overwrite(old(dst[..]), 0, s + [NUL]);
      forall i | 0 <= i < dst.Length ensures dst[..][i] == w[i] {
        if i <= |s| {
          assert w[0..|s| + 1][i] == (s + [NUL])[i];
        } else {
          assert w[|s| + 1..][i - |s| - 1] == old(dst[..])[|s| + 1..][i - |s| - 1];
        }
      }
    }
    assert dst[..] == s + [NUL] + dst[|s| + 1..];
    CStringOfTerminated(s, dst[|s| + 1..]);
  }

  /** clamp(v, 0, U8_MAX). */
  function ClampU8(v: int): (b: u8)
    ensures 0 <= v <= 255 ==> b == v
    ensures v < 0 ==> b == 0
    ensures v > 255 ==> b == 255
  {
    if v < 0 then 0 else if v > 255 then 255 else v
  }
}

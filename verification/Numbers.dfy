/** strconv.ParseInt(raw, 10, 64), strconv.ParseBool, and how fmt's %v prints their results. */
module Numbers {
  import opened Results
  import opened Runes

  const MIN_INT64: int := -0x8000_0000_0000_0000
  const MAX_INT64: int := 0x7FFF_FFFF_FFFF_FFFF

  predicate IsInt64(i: int) {
    MIN_INT64 <= i <= MAX_INT64
  }

  predicate IsDigit(c: char) {
    '0' <= c <= '9'
  }

  function ParseDigits(s: string): Result<nat> {
    if s == "" || !IsDigit(s[|s| - 1]) then Err
    else
      var d: nat := s[|s| - 1] as int - '0' as int;
      if |s| == 1 then Ok(d)
      else
        match ParseDigits(s[..|s| - 1])
        case Err => Err
        case Ok(n) => Ok(10 * n + d)
  }

  function ParseInt(raw: string): Result<int> {
    if raw == "" then Err
    else
      var digits := if raw[0] == '-' || raw[0] == '+' then raw[1..] else raw;
      match ParseDigits(digits)
      case Err => Err
      case Ok(n) =>
        var i: int := if raw[0] == '-' then -(n as int) else n;
        if IsInt64(i) then Ok(i) else Err
  }

  function FormatNat(n: nat): (r: string)
    ensures r != "" && forall k | 0 <= k < |r| :: IsDigit(r[k])
  {
    var last := ('0' as int + n % 10) as char;
    if n < 10 then [last] else FormatNat(n / 10) + [last]
  }

  function FormatInt(i: int): string {
    if i < 0 then "-" + FormatNat(-i) else FormatNat(i)
  }

  lemma {:induction false} FormatNatParses(n: nat)
    ensures ParseDigits(FormatNat(n)) == Ok(n)
  {
    if n >= 10 {
      var s := FormatNat(n);
      FormatNatParses(n / 10);
      assert s[..|s| - 1] == FormatNat(n / 10);
    }
  }

  /** An int64 survives being printed and read back. */
  lemma FormatIntParses(i: int)
    requires IsInt64(i)
    ensures ParseInt(FormatInt(i)) == Ok(i)
  {
    hide ParseDigits;
    SignIsFirst(i);
    if i < 0 {
      FormatNatParses(-i);
      assert FormatInt(i)[1..] == FormatNat(-i);
    } else {
      FormatNatParses(i);
      assert IsDigit(FormatNat(i)[0]);
    }
  }

  lemma SignIsFirst(i: int)
    ensures i < 0 <==> FormatInt(i)[0] == '-'
  {
    if i >= 0 {
      assert IsDigit(FormatNat(i)[0]);
    }
  }

  lemma FormatIntInjective(i: int, j: int)
    requires FormatInt(i) == FormatInt(j)
    ensures i == j
  {
    SignIsFirst(i);
    SignIsFirst(j);
    if i < 0 {
      assert FormatInt(i)[1..] == FormatNat(-i) && FormatInt(j)[1..] == FormatNat(-j);
      FormatNatParses(-i);
      FormatNatParses(-j);
    } else {
      FormatNatParses(i);
      FormatNatParses(j);
    }
  }

  /** A printed integer needs no quoting. */
  lemma FormatIntIsBare(i: int)
    ensures IsBare(FormatInt(i))
  {
    var s := FormatInt(i);
    forall k | 0 <= k < |s| ensures !IsReserved(s[k]) && !IsSpace(s[k]) && s[k] != '\\' {
      if i < 0 {
        assert k == 0 || IsDigit(FormatNat(-i)[k - 1]);
      } else {
        assert IsDigit(s[k]);
      }
    }
  }

  function ParseBool(raw: string): Result<bool> {
    if raw == "1" || raw == "t" || raw == "T" || raw == "TRUE" || raw == "true" || raw == "True" then Ok(true)
    else if raw == "0" || raw == "f" || raw == "F" || raw == "FALSE" || raw == "false" || raw == "False" then Ok(false)
    else Err
  }

  function FormatBool(b: bool): string {
    if b then "true" else "false"
  }

  lemma FormatBoolParses(b: bool)
    ensures ParseBool(FormatBool(b)) == Ok(b)
    ensures IsBare(FormatBool(b))
  {
    if b {
      assert FormatBool(b) == ['t', 'r', 'u', 'e'];
    } else {
      assert FormatBool(b) == ['f', 'a', 'l', 's', 'e'];
      assert FormatBool(b)[0] == 'f' && |FormatBool(b)| == 5;
    }
  }

  /** The texts of a bool, and no others. */
  lemma ParseBoolTable()
    ensures forall v :: ParseBool(v) == Ok(true) <==> v in ["1", "t", "T", "TRUE", "true", "True"]
    ensures forall v :: ParseBool(v) == Ok(false) <==> v in ["0", "f", "F", "FALSE", "false", "False"]
  {
    assert "TRUE"[0] == 'T' && "true"[0] == 't' && "True"[0] == 'T';
    assert "FALSE"[0] == 'F' && "false"[0] == 'f' && "False"[0] == 'F';
  }

  lemma ParsedBoolIsBare(v: string)
    requires ParseBool(v).Ok?
    ensures IsBare(v)
  {
    hide IsReserved, IsSpace;
    assert forall i | 0 <= i < |v| :: 'a' <= v[i] <= 'z' || 'A' <= v[i] <= 'Z' || IsDigit(v[i]);
    forall i | 0 <= i < |v| ensures !IsReserved(v[i]) && !IsSpace(v[i]) && v[i] != '\\' {
      LetterOrDigitIsBare(v[i]);
    }
  }

  lemma LetterOrDigitIsBare(r: char)
    requires 'a' <= r <= 'z' || 'A' <= r <= 'Z' || IsDigit(r)
    ensures !IsReserved(r) && !IsSpace(r) && r != '\\'
  {
  }

  // ----- decimal notation -----

  function Power10(k: nat): nat {
    if k == 0 then 1 else 10 * Power10(k - 1)
  }

  function DigitIs(c: char): nat
    requires IsDigit(c)
  {
    c as nat - '0' as nat
  }

  /** The number that decimal digits stand for: each digit times its power of ten. */
  function DigitSum(s: string): nat
    requires forall k | 0 <= k < |s| :: IsDigit(s[k])
  {
    if s == "" then 0 else DigitIs(s[0]) * Power10(|s| - 1) + DigitSum(s[1..])
  }

  lemma DigitSumUnfolds(s: string)
    requires s != "" && forall k | 0 <= k < |s| :: IsDigit(s[k])
    ensures DigitSum(s) == DigitIs(s[0]) * Power10(|s| - 1) + DigitSum(s[1..])
  {
    hide Power10;
  }

  lemma Tenfold(c: nat, k: nat)
    ensures c * Power10(k + 1) == 10 * (c * Power10(k))
  {
    var p := Power10(k);
    assert Power10(k + 1) == 10 * p;
    hide Power10;
    assert c * (10 * p) == 10 * (c * p);
  }

  lemma {:induction false} DigitSumAppend(s: string, d: char)
    requires (forall k | 0 <= k < |s| :: IsDigit(s[k])) && IsDigit(d)
    ensures DigitSum(s + [d]) == 10 * DigitSum(s) + DigitIs(d)
  {
    if s == "" {
      assert [d][1..] == "" && s + [d] == [d];
      assert DigitSum([d]) == DigitIs(d) * Power10(0);
    } else {
      hide DigitSum, Power10, DigitIs;
      DigitSumAppend(s[1..], d);
      assert (s + [d])[0] == s[0] && (s + [d])[1..] == s[1..] + [d];
      DigitSumUnfolds(s);
      DigitSumUnfolds(s + [d]);
      Tenfold(DigitIs(s[0]), |s| - 1);
    }
  }

  /** Digits parse to the number they stand for, and nothing else parses. */
  lemma {:induction false} ParseDigitsIs(s: string)
    ensures ParseDigits(s).Ok? <==> s != "" && forall k | 0 <= k < |s| :: IsDigit(s[k])
    ensures ParseDigits(s).Ok? ==> ParseDigits(s).value == DigitSum(s)
  {
    if s != "" {
      var init, d := s[..|s| - 1], s[|s| - 1];
      assert s == init + [d];
      if |s| == 1 {
        assert s[1..] == "";
      } else {
        ParseDigitsIs(init);
        if ParseDigits(init).Ok? && IsDigit(d) { DigitSumAppend(init, d); }
      }
    }
  }

  /** An integer is an optional sign and digits, within the int64 range; leading zeros and '+'
      are taken. */
  lemma ParseIntIs(raw: string)
    ensures var digits := if raw != "" && (raw[0] == '-' || raw[0] == '+') then raw[1..] else raw;
      if digits == "" || !(forall k | 0 <= k < |digits| :: IsDigit(digits[k])) then ParseInt(raw) == Err
      else
        var i := if raw[0] == '-' then -(DigitSum(digits) as int) else DigitSum(digits);
        ParseInt(raw) == if -0x8000_0000_0000_0000 <= i <= 0x7FFF_FFFF_FFFF_FFFF then Ok(i) else Err
  {
    hide ParseDigits, DigitSum;
    if raw != "" {
      ParseDigitsIs(if raw[0] == '-' || raw[0] == '+' then raw[1..] else raw);
    }
  }

  /** An integer is printed in decimal: '-' before a negative one, no sign otherwise, and no
      leading zero. */
  lemma {:induction false} FormatNatIs(n: nat)
    ensures DigitSum(FormatNat(n)) == n && (FormatNat(n)[0] == '0' ==> FormatNat(n) == "0")
  {
    FormatNatParses(n);
    ParseDigitsIs(FormatNat(n));
    if n >= 10 {
      FormatNatIs(n / 10);
      assert FormatNat(n)[0] == FormatNat(n / 10)[0];
      assert DigitSum("0") == 0;
    }
  }

  lemma FormatIntIs(i: int)
    ensures i < 0 ==> FormatInt(i)[0] == '-' && FormatInt(i)[1..] == FormatNat(-i)
    ensures i >= 0 ==> FormatInt(i) == FormatNat(i)
    ensures FormatBool(true) == "true" && FormatBool(false) == "false"
  {
  }
}

/** The two query-parameter validators of the gateway: the `len` argument
    of the random-article route and the `n` / `N` argument of the
    common-words route. Both accept a string only when it is a string of
    decimal digits whose value lies in range; the digit test is Python's
    `str.isdigit`, restricted here to the ASCII digits. */
module QueryParams {
  import opened Api

  predicate IsDigit(c: char) {
    '0' <= c <= '9'
  }

  predicate AllDigits(s: string) {
    forall i :: 0 <= i < |s| ==> IsDigit(s[i])
  }

  /** `str.isdigit`: true of a non-empty string made of digits only. So the
      empty string, `str(None)` (what a missing argument becomes) and any
      signed number are refused. */
  predicate IsDigits(s: string): (b: bool)
    ensures b ==> s != "" && s != "None" && s[0] != '-' && s[0] != '+'
  {
    assert "None"[0] == 'N';
    |s| > 0 && AllDigits(s)
  }

  function DigitValue(c: char): (d: nat)
    requires IsDigit(c)
    ensures d < 10
  {
    (c as int - '0' as int) as nat
  }

  function DigitChar(d: nat): (c: char)
    requires d < 10
    ensures IsDigit(c) && DigitValue(c) == d
  {
    ('0' as int + d) as char
  }

  /** `int(s)` on a string of digits (leading zeros allowed). The value is
      zero exactly when every digit is '0'. */
  function DecimalValue(s: string): (v: nat)
    requires AllDigits(s)
    ensures v == 0 <==> forall i :: 0 <= i < |s| ==> s[i] == '0'
  {
    if s == [] then 0
    else
      var p := s[..|s| - 1];
      assert forall i :: 0 <= i < |p| ==> p[i] == s[i];
      10 * DecimalValue(p) + DigitValue(s[|s| - 1])
  }

  /** The canonical decimal spelling of `n`, as `str(n)` writes it: a
      leading '0' only for zero itself. */
  function Decimal(n: nat): (s: string)
    ensures IsDigits(s)
    ensures s[0] == '0' ==> n == 0
    decreases n
  {
    if n < 10 then [DigitChar(n)] else Decimal(n / 10) + [DigitChar(n % 10)]
  }

  /** A run of `k` zero digits. */
  function Zeros(k: nat): (z: string)
    ensures |z| == k && forall i :: 0 <= i < k ==> z[i] == '0'
  {
    seq(k, _ => '0')
  }

  /** Reading back the canonical spelling of `n` gives `n`. */
  lemma {:induction false} DecimalRoundTrip(n: nat)
    ensures DecimalValue(Decimal(n)) == n
    decreases n
  {
    if n >= 10 {
      var s := Decimal(n);
      DecimalRoundTrip(n / 10);
      assert s[..|s| - 1] == Decimal(n / 10);
    }
  }

  /** Leading zeros do not change the value of a digit string. */
  lemma {:induction false} LeadingZerosIgnored(k: nat, s: string)
    requires AllDigits(s)
    ensures AllDigits(Zeros(k) + s)
    ensures DecimalValue(Zeros(k) + s) == DecimalValue(s)
    decreases |s|
  {
    var t := Zeros(k) + s;
    if s != [] {
      var p := s[..|s| - 1];
      assert t[..|t| - 1] == Zeros(k) + p;
      LeadingZerosIgnored(k, p);
    }
  }

  /** A digit string with no leading zero is the canonical spelling of its value. */
  lemma {:induction false} NoLeadingZeroIsCanonical(s: string)
    requires IsDigits(s) && (|s| > 1 ==> s[0] != '0')
    ensures s == Decimal(DecimalValue(s))
    decreases |s|
  {
    if |s| > 1 {
      var p := s[..|s| - 1];
      assert p[0] == s[0];
      NoLeadingZeroIsCanonical(p);
      var v := DecimalValue(s);
      assert DecimalValue(p) > 0;
      assert v / 10 == DecimalValue(p) && v % 10 == DigitValue(s[|s| - 1]);
      assert DigitChar(v % 10) == s[|s| - 1];
      assert s == p + [s[|s| - 1]];
    }
  }

  /** Every digit string is some zeros followed by the canonical spelling of its value. */
  lemma {:induction false} SplitLeadingZeros(s: string) returns (k: nat)
    requires IsDigits(s)
    ensures s == Zeros(k) + Decimal(DecimalValue(s))
    decreases |s|
  {
    if |s| > 1 && s[0] == '0' {
      var rest := s[1..];
      assert IsDigits(rest);
      var j := SplitLeadingZeros(rest);
      k := j + 1;
      assert s == Zeros(1) + rest;
      LeadingZerosIgnored(1, rest);
      var d := Decimal(DecimalValue(rest));
      assert Zeros(k) == Zeros(1) + Zeros(j);
      calc {
        s;
        Zeros(1) + (Zeros(j) + d);
        Zeros(k) + d;
      }
    } else {
      NoLeadingZeroIsCanonical(s);
      k := 0;
    }
  }

  // ---------------------------------------------------------------------
  // The `len` argument of the random-article route

  const LEN_KEY: string := "len"

  /** The length bounds, both exclusive. */
  const MIN_LENGTH: nat := 3
  const MAX_LENGTH: nat := 20

  predicate IsValidLength(s: string) {
    IsDigits(s) && MIN_LENGTH < DecimalValue(s) < MAX_LENGTH
  }

  /** The query sent to the random-word service: `len` is forwarded only
      when it is a digit string whose value lies strictly between 3 and 20,
      and then exactly as the client spelled it. */
  function LengthQuery(lenArg: Option<string>): (q: map<string, string>)
    ensures q.Keys <= {LEN_KEY}
    ensures LEN_KEY in q ==> lenArg == Some(q[LEN_KEY])
  {
    if lenArg.Some? && IsValidLength(lenArg.value) then map[LEN_KEY := lenArg.value] else map[]
  }

  /** The accepted `len` strings are exactly the zero-padded spellings of 4 through 19. */
  lemma LengthAcceptedIff(s: string)
    ensures LEN_KEY in LengthQuery(Some(s)) <==>
            exists k: nat, v: nat :: MIN_LENGTH < v < MAX_LENGTH && s == Zeros(k) + Decimal(v)
  {
    if LEN_KEY in LengthQuery(Some(s)) {
      var k := SplitLeadingZeros(s);
      assert s == Zeros(k) + Decimal(DecimalValue(s));
    }
    if exists k: nat, v: nat :: MIN_LENGTH < v < MAX_LENGTH && s == Zeros(k) + Decimal(v) {
      var k: nat, v: nat :| MIN_LENGTH < v < MAX_LENGTH && s == Zeros(k) + Decimal(v);
      LeadingZerosIgnored(k, Decimal(v));
      DecimalRoundTrip(v);
    }
  }

  /** The boundary cases: "3", "20", "2", "abc", "" and a missing argument
      are dropped; "4", "19" and "05" are forwarded verbatim. */
  lemma LengthExamples()
    ensures LengthQuery(Some("3")) == map[]
    ensures LengthQuery(Some("20")) == map[]
    ensures LengthQuery(Some("2")) == map[]
    ensures LengthQuery(Some("abc")) == map[]
    ensures LengthQuery(Some("")) == map[]
    ensures LengthQuery(None) == map[]
    ensures LengthQuery(Some("4")) == map[LEN_KEY := "4"]
    ensures LengthQuery(Some("19")) == map[LEN_KEY := "19"]
    ensures LengthQuery(Some("05")) == map[LEN_KEY := "05"]
  {
  }

  // ---------------------------------------------------------------------
  // The `n` argument of the common-words route

  /** `request.args.get('n') or request.args.get('N')`: `N` is consulted
      only when `n` is missing or empty. */
  function SelectAmount(nArg: Option<string>, upperNArg: Option<string>): (a: Option<string>)
    ensures a == nArg || a == upperNArg
    ensures nArg.Some? && nArg.value != "" ==> a == nArg
    ensures nArg == None || nArg == Some("") ==> a == upperNArg
  {
    if nArg.Some? && nArg.value != "" then nArg else upperNArg
  }

  /** The requested number of words, or the "Non relevant n amount" error
      with status 400 when the selected argument is not a digit string
      with a positive value. */
  function RequestedAmount(nArg: Option<string>, upperNArg: Option<string>): (r: Result<nat>)
    ensures r.Ok? ==> r.value > 0
    ensures r.Ok? ==> SelectAmount(nArg, upperNArg).Some? && IsDigits(SelectAmount(nArg, upperNArg).value)
                      && r.value == DecimalValue(SelectAmount(nArg, upperNArg).value)
    ensures r.Err? ==> r.error == BadAmount
  {
    var amount := SelectAmount(nArg, upperNArg);
    if amount.Some? && IsDigits(amount.value) && DecimalValue(amount.value) > 0
    then Ok(DecimalValue(amount.value))
    else Err(BadAmount)
  }

  /** The amount is accepted exactly when the selected argument is a digit
      string with at least one digit other than '0'. */
  lemma RequestedAmountAcceptedIff(nArg: Option<string>, upperNArg: Option<string>)
    ensures RequestedAmount(nArg, upperNArg).Ok? <==>
            var a := SelectAmount(nArg, upperNArg);
            a.Some? && IsDigits(a.value) && exists i :: 0 <= i < |a.value| && a.value[i] != '0'
  {
  }

  /** "0", "00", "-1", "abc" and a missing argument are refused; an empty
      `n` falls back to `N`, a non-empty invalid `n` does not. */
  lemma AmountExamples()
    ensures RequestedAmount(Some("0"), None) == Err(BadAmount)
    ensures RequestedAmount(Some("00"), None) == Err(BadAmount)
    ensures RequestedAmount(Some("-1"), None) == Err(BadAmount)
    ensures RequestedAmount(Some("abc"), None) == Err(BadAmount)
    ensures RequestedAmount(None, None) == Err(BadAmount)
    ensures RequestedAmount(Some(""), None) == Err(BadAmount)
    ensures RequestedAmount(Some("abc"), Some("5")) == Err(BadAmount)
    ensures RequestedAmount(Some(""), Some("5")) == Ok(5)
    ensures RequestedAmount(None, Some("5")) == Ok(5)
    ensures RequestedAmount(Some("05"), Some("7")) == Ok(5)
  {
    assert "00"[..1] == "0";
    assert "05"[..1] == "0";
    assert !IsDigit('-') && !IsDigit('a');
  }
}

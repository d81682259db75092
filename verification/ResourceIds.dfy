// Canonical decimal resource ids (platform/base/id/id.go).
module ResourceIds {
  import opened Wrappers
  import Bytewise

  const MAX_INT64 := 0x7fff_ffff_ffff_ffff
  const MIN_INT64 := -0x8000_0000_0000_0000

  type Int64 = x: int | MIN_INT64 <= x <= MAX_INT64

  datatype IdError = NotPositive | NotDecimal | OutOfRange | NotCanonical

  predicate IsDigit(c: char) { '0' <= c <= '9' }

  predicate AllDigits(s: string) { forall i :: 0 <= i < |s| ==> IsDigit(s[i]) }

  function DigitOf(d: int): char
    requires 0 <= d < 10
  {
    '0' + d as char
  }

  function DigitValue(c: char): int
    requires IsDigit(c)
  {
    c as int - '0' as int
  }

  /** Base-10 rendering without sign or leading zeros. */
  function Decimal(v: nat): string {
    if v < 10 then [DigitOf(v)] else Decimal(v / 10) + [DigitOf(v % 10)]
  }

  /** The number a digit string denotes; the empty string denotes 0. */
  function Number(s: string): nat
    requires AllDigits(s)
  {
    if |s| == 0 then 0 else 10 * Number(s[..|s| - 1]) + DigitValue(s[|s| - 1])
  }

  function FromCounter(value: Int64): Result<string, IdError> {
    if value <= 0 then Err(NotPositive) else Ok(Decimal(value))
  }

  // strconv.ParseInt(s, 10, 64): an optional sign, then at least one digit.
  function ParseInt(s: string): Result<Int64, IdError> {
    if |s| == 0 then Err(NotDecimal)
    else
      var signed := s[0] == '+' || s[0] == '-';
      var digits := if signed then s[1..] else s;
      if |digits| == 0 || !AllDigits(digits) then Err(NotDecimal)
      else
        var magnitude: int := Number(digits);
        if s[0] == '-' then
          if -magnitude < MIN_INT64 then Err(OutOfRange) else Ok(-magnitude)
        else
          if magnitude > MAX_INT64 then Err(OutOfRange) else Ok(magnitude)
  }

  function Validate(id: string): Result<(), IdError> {
    match ParseInt(id)
    case Err(e) => Err(e)
    case Ok(value) =>
      match FromCounter(value)
      case Err(e) => Err(e)
      case Ok(canonical) => if id != canonical then Err(NotCanonical) else Ok(())
  }

  function ParseResourceID(id: string): Result<Int64, IdError> {
    match Validate(id)
    case Err(e) => Err(e)
    case Ok(_) => ParseInt(id)
  }

  function Compare(a: string, b: string): Result<int, IdError> {
    match ParseResourceID(a)
    case Err(e) => Err(e)
    case Ok(x) =>
      match ParseResourceID(b)
      case Err(e) => Err(e)
      case Ok(y) => Ok(if x < y then -1 else if x > y then 1 else 0)
  }

  predicate Valid(id: string) { Validate(id).Ok? }

  /** id is the rendering of some counter value. */
  ghost predicate Minted(id: string) {
    exists v: Int64 :: v > 0 && Decimal(v) == id
  }

  /** The counter value a minted id renders. */
  ghost function Value(id: string): (v: Int64)
    requires Minted(id)
    ensures v > 0 && Decimal(v) == id
  {
    var v: Int64 :| v > 0 && Decimal(v) == id;
    v
  }

  // ---- Rendering and parsing are inverse ----

  lemma {:induction false} DecimalShape(v: nat)
    ensures AllDigits(Decimal(v)) && |Decimal(v)| >= 1
    ensures v > 0 ==> Decimal(v)[0] != '0'
    ensures Number(Decimal(v)) == v
  {
    if v >= 10 {
      DecimalShape(v / 10);
      var s := Decimal(v);
      assert s[..|s| - 1] == Decimal(v / 10);
    } else {
      assert Decimal(v)[..0] == "";
    }
  }

  lemma ParseDecimal(v: Int64)
    requires v > 0
    ensures ParseInt(Decimal(v)) == Ok(v)
  {
    DecimalShape(v);
    assert !IsDigit('+') && !IsDigit('-');
  }

  /** Validate accepts exactly the strings FromCounter returns. */
  lemma ValidateAcceptsExactlyMinted(id: string)
    ensures Validate(id).Ok? <==> exists v: Int64 :: FromCounter(v) == Ok(id)
    ensures Validate(id).Ok? <==> Minted(id)
  {
    if v: Int64 :| FromCounter(v) == Ok(id) { ParseDecimal(v); }
    if Validate(id).Ok? {
      var v := ParseInt(id).value;
      assert FromCounter(v) == Ok(id);
    }
    if Minted(id) {
      assert FromCounter(Value(id)) == Ok(id);
    }
  }

  /** Distinct counter values render as distinct ids. */
  lemma MintedRoundTrip(v: Int64)
    requires v > 0
    ensures Minted(Decimal(v)) && Value(Decimal(v)) == v
  {
    ParseDecimal(v);
    ParseDecimal(Value(Decimal(v)));
  }

  lemma ParseMinted(id: string)
    ensures Minted(id) ==> ParseResourceID(id) == Ok(Value(id))
    ensures !Minted(id) ==> ParseResourceID(id).Err?
  {
    ValidateAcceptsExactlyMinted(id);
    if Minted(id) { ParseDecimal(Value(id)); }
  }

  /** Compare succeeds exactly on minted ids and is the integer order there. */
  lemma CompareIsNumeric(a: string, b: string)
    ensures Compare(a, b).Ok? <==> Minted(a) && Minted(b)
    ensures Minted(a) && Minted(b) ==>
      Compare(a, b) == Ok(if Value(a) < Value(b) then -1 else if Value(a) == Value(b) then 0 else 1)
  {
    ParseMinted(a);
    ParseMinted(b);
  }

  // ---- Numeric order is shorter-first, then bytewise ----

  function Power(n: nat): nat { if n == 0 then 1 else 10 * Power(n - 1) }

  lemma {:induction false} NumberBounds(s: string)
    requires AllDigits(s)
    ensures Number(s) < Power(|s|)
    ensures |s| >= 1 && s[0] != '0' ==> Power(|s| - 1) <= Number(s)
  {
    if |s| > 0 {
      NumberBounds(s[..|s| - 1]);
      if |s| > 1 && s[0] != '0' { assert s[..|s| - 1][0] == s[0]; }
    }
  }

  lemma {:induction false} PowerMonotone(m: nat, n: nat)
    requires m <= n
    ensures Power(m) <= Power(n)
  {
    if m < n { PowerMonotone(m, n - 1); }
  }

  lemma {:induction false} LessOnInit(a: string, b: string)
    requires |a| == |b| >= 1
    ensures Bytewise.Less(a, b) <==>
      var (x, y) := (a[..|a| - 1], b[..|b| - 1]);
      Bytewise.Less(x, y) || (x == y && a[|a| - 1] < b[|b| - 1])
  {
    if |a| > 1 {
      LessOnInit(a[1..], b[1..]);
      var x, y := a[..|a| - 1], b[..|b| - 1];
      assert a[1..][..|a| - 2] == x[1..] && b[1..][..|b| - 2] == y[1..];
      assert x == [a[0]] + x[1..] && y == [b[0]] + y[1..];
    }
  }

  lemma {:induction false} SameLengthOrder(a: string, b: string)
    requires AllDigits(a) && AllDigits(b) && |a| == |b|
    ensures Number(a) < Number(b) <==> Bytewise.Less(a, b)
    decreases |a|
  {
    if |a| > 0 {
      var x, y := a[..|a| - 1], b[..|b| - 1];
      SameLengthOrder(x, y);
      SameLengthOrder(y, x);
      Bytewise.Total(x, y);
      if Bytewise.Less(x, y) { Bytewise.Asymmetric(x, y); }
      if Bytewise.Less(y, x) { Bytewise.Asymmetric(y, x); }
      LessOnInit(a, b);
    }
  }

  lemma DecimalOrder(v: nat, w: nat)
    requires v > 0 && w > 0
    ensures v < w <==>
      var (a, b) := (Decimal(v), Decimal(w));
      |a| < |b| || (|a| == |b| && Bytewise.Less(a, b))
  {
    var a, b := Decimal(v), Decimal(w);
    DecimalShape(v);
    DecimalShape(w);
    NumberBounds(a);
    NumberBounds(b);
    if |a| < |b| { PowerMonotone(|a|, |b| - 1); }
    if |b| < |a| { PowerMonotone(|b|, |a| - 1); }
    if |a| == |b| { SameLengthOrder(a, b); }
  }

  /** Compare orders shorter ids first, and ids of one length bytewise. */
  lemma CompareIsShorterFirstThenBytewise(a: string, b: string)
    requires Minted(a) && Minted(b)
    ensures Compare(a, b) == Ok(-1) <==> |a| < |b| || (|a| == |b| && Bytewise.Less(a, b))
    ensures Compare(a, b) == Ok(0) <==> a == b
  {
    CompareIsNumeric(a, b);
    DecimalOrder(Value(a), Value(b));
  }
}

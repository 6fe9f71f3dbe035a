/**
 The textual queue-label issuer: each `Get` renders the counter's value in
 decimal after the prefix "com.threading.dispatchqueue_" and advances the
 counter.  The static variable is modelled as a field of one issuer object.
*/
module QueueLabels {
  import opened Wrappers

  const LabelPrefix := "com.threading.dispatchqueue_"

  predicate IsDigit(c: char) { '0' <= c <= '9' }

  function DigitChar(d: int): (c: char)
    requires 0 <= d < 10
    ensures IsDigit(c)
  {
    ('0' as int + d) as char
  }

  function DigitValue(c: char): int
    requires IsDigit(c)
  {
    c as int - '0' as int
  }

  /** Decimal digits of `n`, most significant first, with no leading zero. */
  function NatDecimal(n: nat): (s: string)
    ensures 1 <= |s|
    ensures AllDigits(s)
    ensures n >= 10 ==> |s| >= 2 && s[0] != '0'
    decreases n
  {
    if n < 10 then [DigitChar(n)] else NatDecimal(n / 10) + [DigitChar(n % 10)]
  }

  /** String interpolation of an `Int`: a minus sign, then the digits of its magnitude. */
  function Decimal(id: int): string
  {
    if id < 0 then "-" + NatDecimal(-id) else NatDecimal(id)
  }

  /** The label `Get` returns for `id`. */
  function Label(id: int): string
  {
    LabelPrefix + Decimal(id)
  }

  /** The value of a string of decimal digits. */
  function ParseDigits(s: string): nat
    requires AllDigits(s)
  {
    if s == [] then 0 else 10 * ParseDigits(s[..|s| - 1]) + DigitValue(s[|s| - 1])
  }

  /** The inverse of Decimal: an optional minus sign, then at least one digit. */
  function ParseDecimal(digits: string): Option<int>
  {
    if |digits| > 1 && digits[0] == '-' && AllDigits(digits[1..]) then
      Some(0 - ParseDigits(digits[1..]) as int)
    else if |digits| > 0 && AllDigits(digits) then
      Some(ParseDigits(digits))
    else
      None
  }

  predicate AllDigits(s: string)
  {
    forall i :: 0 <= i < |s| ==> IsDigit(s[i])
  }

  /** Recovers the id from a label, or None when the string is not a label. */
  function IdOfLabel(text: string): Option<int>
  {
    if |text| < |LabelPrefix| || text[..|LabelPrefix|] != LabelPrefix then None
    else ParseDecimal(text[|LabelPrefix|..])
  }

  lemma {:induction false} ParseNatDecimal(n: nat)
    ensures ParseDigits(NatDecimal(n)) == n
    decreases n
  {
    var s := NatDecimal(n);
    if n < 10 {
      assert s[..|s| - 1] == [];
    } else {
      ParseNatDecimal(n / 10);
      assert s[..|s| - 1] == NatDecimal(n / 10);
      assert n == 10 * (n / 10) + n % 10;
    }
  }

  /** Parsing the rendering of an `Int` gives it back. */
  lemma DecimalRoundTrip(id: int)
    ensures ParseDecimal(Decimal(id)) == Some(id)
  {
    if id < 0 {
      var digits := Decimal(id);
      assert digits[1..] == NatDecimal(-id);
      ParseNatDecimal(-id);
    } else {
      assert Decimal(id)[0] != '-';
      ParseNatDecimal(id);
    }
  }

  lemma SplitAfterPrefix(prefix: string, rest: string)
    ensures (prefix + rest)[..|prefix|] == prefix && (prefix + rest)[|prefix|..] == rest
  {
  }

  /** Reading a label back gives the id it was made from. */
  lemma LabelRoundTrip(id: int)
    ensures IdOfLabel(Label(id)) == Some(id)
  {
    SplitAfterPrefix(LabelPrefix, Decimal(id));
    DecimalRoundTrip(id);
  }

  /** Distinct ids give distinct labels. */
  lemma LabelInjective(a: int, b: int)
    ensures Label(a) == Label(b) ==> a == b
  {
    LabelRoundTrip(a);
    LabelRoundTrip(b);
  }

  class LabelDispatch {
    var nextId: int

    /** The counter's initial value. */
    constructor ()
      ensures nextId == 0
    {
      nextId := 0;
    }

    /** Returns the label of the id the counter held on entry and advances it by one. */
    method Get() returns (name: string)
      modifies this
      ensures name == Label(old(nextId))
      ensures nextId == old(nextId) + 1
    {
      var id := nextId;
      nextId := nextId + 1;
      name := LabelPrefix + Decimal(id);
    }
  }

  /**
   The first `n` labels after start-up: the k-th (from 0) is the prefix and
   the decimal digits of k, and no two of them are equal.
  */
  method FirstLabels(n: nat) returns (labels: seq<string>)
    ensures |labels| == n
    ensures forall k :: 0 <= k < n ==> labels[k] == LabelPrefix + NatDecimal(k)
    ensures forall i, j :: 0 <= i < j < n ==> labels[i] != labels[j]
  {
    var dispatch := new LabelDispatch();
    labels := [];
    while |labels| < n
      invariant |labels| <= n
      invariant dispatch.nextId == |labels|
      invariant forall k :: 0 <= k < |labels| ==> labels[k] == Label(k)
    {
      var name := dispatch.Get();
      labels := labels + [name];
    }
    forall i, j | 0 <= i < j < n ensures labels[i] != labels[j] {
      LabelInjective(i, j);
    }
  }
}

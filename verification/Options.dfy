/** The optional values and the rounding that the modelled services share. */
module Options {
  /** A value or its absence, `null` and `undefined` alike. */
  datatype Option<+T> = None | Some(value: T) {
    function GetOr(default: T): T {
      if Some? then value else default
    }
  }

  /** `Math.round(value * 100) / 100`: two decimals, halves towards plus infinity. */
  function Round2(value: real): real {
    ((value * 100.0 + 0.5).Floor as real) / 100.0
  }

  function Max(a: real, b: real): real {
    if a >= b then a else b
  }

  function Min(a: real, b: real): real {
    if a <= b then a else b
  }

  lemma Quotients(a: real, b: real, c: real)
    requires c != 0.0
    ensures (a - b) / c == a / c - b / c
    ensures a == c ==> a / c == 1.0
  {
    var p, q, r := (a - b) / c, a / c, b / c;
    assert p * c == a - b && q * c == a && r * c == b;
    assert (p - (q - r)) * c == 0.0;
  }

  lemma Divided(x: real, c: real, q: real)
    requires c != 0.0 && q * c == x
    ensures x / c == q
  {
  }

  lemma Restored(x: real, c: real)
    requires c != 0.0
    ensures x / c * c == x
  {
  }

  function Hundredths(k: int): real {
    k as real / 100.0
  }

  /** Rounding gives a whole number of hundredths, none nearer to the value. */
  lemma RoundIsNearest(value: real)
    ensures exists k: int :: Round2(value) == Hundredths(k)
    ensures value - 0.005 < Round2(value) <= value + 0.005
  {
    var k := (value * 100.0 + 0.5).Floor;
    assert Round2(value) == Hundredths(k);
  }
}

/** The integer part of hrBytes: choosing the base-1000 divisor and the unit
    letter for a byte count held in a signed 64-bit integer. */
module Units {

  const Unit: int := 1000
  const Prefixes: string := "KMGTPE"
  const Int64Min: int := -0x8000_0000_0000_0000
  const Int64Max: int := 0x7fff_ffff_ffff_ffff

  /** The unit chosen for a byte count: plain bytes, or `div` = 1000^(exp+1)
      with the unit letter `Prefixes[exp]`. */
  datatype Scale = Plain | Scaled(div: int, exp: nat, prefix: char)

  function Pow(b: nat, e: nat): nat {
    if e == 0 then 1 else b * Pow(b, e - 1)
  }

  lemma {:induction false} PowMonotone(b: nat, e: nat, f: nat)
    requires b >= 1 && e <= f
    ensures Pow(b, e) <= Pow(b, f)
    decreases f
  {
    if e < f {
      PowMonotone(b, e, f - 1);
      assert Pow(b, f) == b * Pow(b, f - 1);
      assert b * Pow(b, f - 1) >= Pow(b, f - 1);
    }
  }

  /** Multiplication by a natural number is monotone. */
  lemma {:induction false} MulMonotone(a: nat, b: nat, c: nat)
    requires a <= b
    ensures a * c <= b * c
    decreases c
  {
    if c > 0 {
      MulMonotone(a, b, c - 1);
      assert a * c == a * (c - 1) + a;
      assert b * c == b * (c - 1) + b;
    }
  }

  /** 1000^7 no longer fits a signed 64-bit integer. */
  lemma SeventhPowerOverflows()
    ensures Pow(Unit, 7) > Int64Max
  {
    assert Pow(Unit, 1) == 1000;
    assert Pow(Unit, 2) == 1000_000;
    assert Pow(Unit, 3) == 1000_000_000;
    assert Pow(Unit, 4) == 1000_000_000_000;
    assert Pow(Unit, 5) == 1000_000_000_000_000;
    assert Pow(Unit, 6) == 1000_000_000_000_000_000;
  }

  /** One turn of the loop keeps `n` the quotient of `bytes` by `div`:
      from div*n <= bytes < div*(n+1) and n = 1000*n' + r it follows for div*1000 and n'. */
  lemma QuotientStep(bytes: nat, div: nat, n: nat)
    requires div * n <= bytes < div * (n + 1)
    ensures (div * Unit) * (n / Unit) <= bytes < (div * Unit) * (n / Unit + 1)
  {
    var n' := n / Unit;
    assert n == Unit * n' + n % Unit;
    MulMonotone(Unit * n', n, div);
    assert (div * Unit) * n' == (Unit * n') * div;
    MulMonotone(n + 1, Unit * (n' + 1), div);
    assert (div * Unit) * (n' + 1) == (Unit * (n' + 1)) * div;
  }

  /** hrBytes without its float formatting. Counts below 1000 are printed as plain bytes;
      otherwise the loop multiplies `div` by 1000 while the running quotient is still
      at least 1000, so that `div` is the largest power of 1000 not above the count. */
  method HrScale(bytes: int) returns (s: Scale)
    requires Int64Min <= bytes <= Int64Max
    ensures bytes < Unit <==> s == Plain
    ensures s.Scaled? ==> s.div == Pow(Unit, s.exp + 1) && s.div <= bytes < Unit * s.div
    ensures s.Scaled? ==> s.exp < |Prefixes| && s.prefix == Prefixes[s.exp]
  {
    if bytes < Unit {
      return Plain;
    }
    var div: nat, exp: nat := Unit, 0;
    var n: nat := bytes / Unit;
    while n >= Unit
      invariant div == Pow(Unit, exp + 1) && Unit <= div
      invariant 1 <= n && div * n <= bytes < div * (n + 1)
      decreases n
    {
      QuotientStep(bytes, div, n);
      div := div * Unit;
      exp := exp + 1;
      n := n / Unit;
    }
    MulMonotone(n + 1, Unit, div);
    MulMonotone(1, n, div);
    if exp >= |Prefixes| {
      PowMonotone(Unit, |Prefixes| + 1, exp + 1);
      SeventhPowerOverflows();
      assert false;
    }
    return Scaled(div, exp, Prefixes[exp]);
  }
}

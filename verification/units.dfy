/** `best_unit_size`: the IEC unit that shows a byte count with an integer
    part below 1024. The source divides in floating point; here the integer
    part is computed exactly. */
module Units {
  import opened Outcomes

  /** The number of exponents tried: 0, 10, ..., 80. */
  const Count := 9

  /** The label of exponent `10 * k`. */
  function Label(k: nat): string
    requires k < Count
  {
    match k
    case 0 => "bytes" case 1 => "KiB" case 2 => "MiB" case 3 => "GiB" case 4 => "TiB"
    case 5 => "PiB" case 6 => "EiB" case 7 => "ZiB" case _ => "YiB"
  }

  /** `2 ** (10 * k)`. */
  function Kibi(k: nat): (r: nat)
    ensures r >= 1
  {
    if k == 0 then 1 else 1024 * Kibi(k - 1)
  }

  /** Integer part of `m / d` for positive `d`. */
  function Div(m: nat, d: nat): nat
    requires d >= 1
  {
    m / d
  }

  function Abs(b: int): nat {
    if b < 0 then -b else b
  }

  /** The loop's test at exponent `10 * k`: `int(|b| / 2 ** exp) < 2 ** 10`. */
  predicate Fits(m: nat, k: nat) {
    Div(m, Kibi(k)) < 1024
  }

  /** `k` is the first exponent index the loop accepts. */
  predicate IsBest(m: nat, k: nat) {
    k < Count && Fits(m, k) && forall j :: 0 <= j < k ==> !Fits(m, j)
  }

  /** The returned dictionary: integer part of `s`, `u`, and `b` as given. */
  datatype UnitSize = UnitSize(whole: nat, unit: string, bytes: int)

  function Scaled(b: int, k: nat): UnitSize
    requires k < Count
  {
    UnitSize(Div(Abs(b), Kibi(k)), Label(k), b)
  }

  lemma MulMonotone(d: nat, a: nat, b: nat)
    requires a <= b
    ensures d * a <= d * b
  {
    assert d * b == d * a + d * (b - a);
  }

  lemma DivBelow(m: nat, d: nat, c: nat)
    requires d >= 1
    ensures Div(m, d) < c <==> m < c * d
  {
    var q, s := m / d, m % d;
    assert m == d * q + s && 0 <= s < d;
    if q < c {
      MulMonotone(d, q + 1, c);
      assert d * (q + 1) == d * q + d;
    } else {
      MulMonotone(d, c, q);
    }
  }

  /** The test at `k` is a plain bound on the magnitude. */
  lemma FitsBelow(m: nat, k: nat)
    ensures Fits(m, k) <==> m < Kibi(k + 1)
  {
    DivBelow(m, Kibi(k), 1024);
  }

  lemma {:induction false} KibiMonotone(j: nat, k: nat)
    requires j <= k
    ensures Kibi(j) <= Kibi(k)
    decreases k
  {
    if j < k {
      KibiMonotone(j, k - 1);
    }
  }

  /** Once the test holds it holds for every larger exponent. */
  lemma FitsMonotone(m: nat, j: nat, k: nat)
    requires j <= k && Fits(m, j)
    ensures Fits(m, k)
  {
    FitsBelow(m, j);
    FitsBelow(m, k);
    KibiMonotone(j + 1, k + 1);
  }

  /** The loop over exponents 0, 10, ..., 80. `None` stands for the source's
      failure when no exponent passes: `unit` is never bound and the
      exception handler makes the call return `None`. */
  method BestUnitSize(b: int) returns (r: Option<UnitSize>)
    ensures r.None? <==> !Fits(Abs(b), Count - 1)
    ensures r.Some? ==> exists k :: IsBest(Abs(b), k) && r.value == Scaled(b, k)
    ensures r.Some? ==> r.value.whole < 1024 && r.value.bytes == b
  {
    var m := Abs(b);
    var k := 0;
    var scale := 1;
    while k < Count
      invariant 0 <= k <= Count
      invariant scale == Kibi(k)
      invariant forall j :: 0 <= j < k ==> !Fits(m, j)
    {
      if Div(m, scale) < 1024 {
        r := Some(UnitSize(Div(m, scale), Label(k), b));
        assert IsBest(m, k);
        if !Fits(m, Count - 1) {
          FitsMonotone(m, k, Count - 1);
        }
        return;
      }
      k := k + 1;
      scale := 1024 * scale;
    }
    r := None;
  }

  /** The accepted exponent is unique. */
  lemma BestUnique(m: nat, j: nat, k: nat)
    requires IsBest(m, j) && IsBest(m, k)
    ensures j == k
  {
  }

  /** The chosen unit brackets the size: at least one unit (except for
      bytes) and less than 1024 units. */
  lemma Magnitude(m: nat, k: nat)
    requires IsBest(m, k)
    ensures k == 0 || Kibi(k) <= m
    ensures m < 1024 * Kibi(k)
  {
    FitsBelow(m, k);
    if k > 0 {
      FitsBelow(m, k - 1);
    }
  }

  /** Conversely, a size with `Kibi(k) <= m < 1024 * Kibi(k)` is shown in unit `k`. */
  lemma BestOfBracket(m: nat, k: nat)
    requires k < Count && (k == 0 || Kibi(k) <= m) && m < 1024 * Kibi(k)
    ensures IsBest(m, k)
  {
    FitsBelow(m, k);
    forall j | 0 <= j < k
      ensures !Fits(m, j)
    {
      FitsBelow(m, j);
      KibiMonotone(j + 1, k);
    }
  }

  lemma Examples()
    ensures IsBest(0, 0) && IsBest(1023, 0) && Label(0) == "bytes"
    ensures IsBest(1024, 1) && Label(1) == "KiB"
    ensures IsBest(Kibi(4), 4) && Label(4) == "TiB"
    ensures !Fits(Kibi(9), 8)
  {
    BestOfBracket(0, 0);
    BestOfBracket(1023, 0);
    BestOfBracket(1024, 1);
    BestOfBracket(Kibi(4), 4);
    FitsBelow(Kibi(9), 8);
  }
}

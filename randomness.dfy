/** The random source of every revision, `randomNumber(min, max)` of
    src/utils/helpers.ts, which returns `Math.floor(Math.random() * (max - min)) + min`.
    `Math.random()` is modelled as the exact fraction k / d with 0 <= k < d. */
module Randomness {
  import opened Board

  lemma FloorOfFraction(k: nat, d: nat, m: nat)
    requires k < d
    ensures 0 <= (k * m) / d
    ensures m > 0 ==> (k * m) / d < m
  {
    var p := k * m;
    var q, r := p / d, p % d;
    assert p == d * q + r && 0 <= r < d;
    assert p >= 0;
    MulSign(d, q);
    if m > 0 {
      FractionBelow(k, d, m);
      assert d * (q - m) == p - d * m - r;
      MulSign(d, q - m + 1);
    }
  }

  /** k * m stays below d * m when k < d and m > 0. */
  lemma FractionBelow(k: nat, d: nat, m: nat)
    requires k < d && m > 0
    ensures k * m <= d * m - m
  {
    assert (d - k) * m == d * m - k * m;
    MulSign(m, d - k);
  }

  /** `randomNumber(min, max)` as written: the result never reaches max. */
  function RandomNumber(min: int, max: int, k: nat, d: nat): (r: int)
    requires k < d && min <= max
    ensures min <= r
    ensures min < max ==> r < max
    ensures min == max ==> r == min
  {
    FloorOfFraction(k, d, max - min);
    (k * (max - min)) / d + min
  }

  /** With min = 1 and max = the number of fields, as every revision calls it, the
      id of the last field is never drawn. */
  lemma RandomNumberMissesLastId(fieldsCount: int, k: nat, d: nat)
    requires fieldsCount >= 1 && k < d
    ensures 1 <= RandomNumber(1, fieldsCount, k, d) <= fieldsCount - 1 || fieldsCount == 1
    ensures RandomNumber(1, fieldsCount, k, d) != fieldsCount || fieldsCount == 1
  {
  }

  lemma MulDivCancel(a: nat, n: nat)
    requires n > 0
    ensures (a * n) / n == a
  {
    var q := (a * n) / n;
    var r := (a * n) % n;
    assert a * n == n * q + r && 0 <= r < n;
    assert n * (a - q) == r;
    MulSign(n, a - q);
  }

  /** Corrected draw of a field id in [1, fieldsCount], as randomNumber(1, fieldsCount + 1). */
  function RandomFieldId(fieldsCount: nat, k: nat, d: nat): (r: int)
    requires k < d && fieldsCount >= 1
    ensures 1 <= r <= fieldsCount
  {
    RandomNumber(1, fieldsCount + 1, k, d)
  }

  /** Every id, the last one included, is drawn for some value of the source. */
  lemma RandomFieldIdReachesEveryId(fieldsCount: nat, id: int)
    requires 1 <= id <= fieldsCount
    ensures RandomFieldId(fieldsCount, id - 1, fieldsCount) == id
  {
    MulDivCancel(id - 1, fieldsCount);
  }
}

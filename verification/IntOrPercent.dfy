/** Kubernetes `IntOrString` values: a plain count, or a percentage of a total. */
module IntOrPercents {
  import opened Wrappers

  datatype IntOrPercent = Count(n: int) | Percent(percent: int) | Malformed(text: string)

  /** Resolves a value against `total`; a missing or malformed value is an error (None).
      A percentage is rounded up or down to an integer, a count is taken as it is. */
  function Scaled(v: Option<IntOrPercent>, total: int, roundUp: bool): Option<int> {
    match v
    case None => None
    case Some(Count(n)) => Some(n)
    case Some(Percent(p)) => Some(if roundUp then -((-p * total) / 100) else p * total / 100)
    case Some(Malformed(_)) => None
  }

  /** A percentage rounds down to the largest and up to the smallest whole number on its side of the exact share. */
  lemma RoundingExact(p: int, total: int, down: int, up: int)
    ensures Scaled(Some(Percent(p)), total, false) == Some(down) <==> 100 * down <= p * total < 100 * (down + 1)
    ensures Scaled(Some(Percent(p)), total, true) == Some(up) <==> 100 * (up - 1) < p * total <= 100 * up
  {
    assert -p * total == -(p * total);
  }

  /** Rounding up and rounding down of one value differ by at most one. */
  lemma RoundingGap(v: Option<IntOrPercent>, total: int)
    ensures Scaled(v, total, true).Some? == Scaled(v, total, false).Some?
    ensures Scaled(v, total, true).Some? ==>
              Scaled(v, total, false).value <= Scaled(v, total, true).value <= Scaled(v, total, false).value + 1
  {
    match v
    case Some(Percent(p)) =>
      var x := p * total;
      assert -p * total == -x;
      assert x / 100 <= -((-x) / 100) <= x / 100 + 1;
    case _ =>
  }

  /** Percentages between 0 and 100 of a non-negative total stay within [0, total]. */
  lemma ScaledRange(p: int, total: nat, roundUp: bool)
    requires 0 <= p <= 100
    ensures 0 <= Scaled(Some(Percent(p)), total, roundUp).value <= total
  {
    assert 0 <= p * total <= 100 * total;
    assert -p * total == -(p * total);
  }
}

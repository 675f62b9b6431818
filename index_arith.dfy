/** Non-linear facts about row-major pixel indices that the solver does not
    find on its own. Each lemma is stated for the shapes `q * h + r` and
    `k < s * h` that the rotation kernels produce. */
module IndexArith {

  lemma MulMonotone(a: int, b: int, h: nat)
    requires a <= b
    ensures a * h <= b * h
  {
  }

  /** Euclidean division is unique: `q * h + r` with `0 <= r < h` has quotient `q`. */
  lemma DivModOf(q: int, h: nat, r: int)
    requires 0 <= r < h
    ensures (q * h + r) / h == q && (q * h + r) % h == r
  {
    var a := q * h + r;
    var q', r' := a / h, a % h;
    assert a == q' * h + r';
    if q' < q {
      MulMonotone(q' + 1, q, h);
      assert false;
    } else if q' > q {
      MulMonotone(q + 1, q', h);
      assert false;
    }
  }

  /** An index inside an `s * h` rectangle has row `k / h` below `s`. */
  lemma QuotientBelow(k: nat, s: nat, h: nat)
    requires k < s * h
    ensures h > 0 && k / h < s
  {
    if h == 0 {
      assert false;
    }
    if k / h >= s {
      MulMonotone(s, k / h, h);
      assert false;
    }
  }

  /** The index `q * h + r` of a cell at row `q < s`, column `r < h` is inside the rectangle. */
  lemma CellBelow(q: nat, r: nat, s: nat, h: nat)
    requires q < s && r < h
    ensures q * h + r < s * h
  {
    MulMonotone(q + 1, s, h);
  }

  /** Multiplication commutes under the index shapes used here. */
  lemma MulComm(a: int, b: int)
    ensures a * b == b * a
  {
  }
}

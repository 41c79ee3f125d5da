/** Facts about integer multiplication and row-major layouts used across the model. */
module Arith {
  lemma MulMono(a: int, b: int, w: int)
    requires a <= b && w >= 0
    ensures a * w <= b * w
  {
    assert b * w - a * w == (b - a) * w;
  }

  lemma MulBoundedIsZero(k: int, w: int)
    requires w > 0 && -w < k * w < w
    ensures k == 0
  {
    if k > 0 {
      MulMono(1, k, w);
    } else if k < 0 {
      MulMono(k, -1, w);
    }
  }

  /** Euclidean division recovers the row and column of a row-major offset. */
  lemma DivModUnique(i: int, w: int, q: int, r: int)
    requires w > 0 && 0 <= r < w && i == q * w + r
    ensures i / w == q && i % w == r
  {
    var q', r' := i / w, i % w;
    assert i == q' * w + r';
    assert (q' - q) * w == r - r';
    MulBoundedIsZero(q' - q, w);
  }

  /** An offset y * w + x of an in-range column and row lies below w * h. */
  lemma RowMajorBound(x: int, y: int, w: int, h: int)
    requires 0 <= x < w && 0 <= y < h
    ensures 0 <= y * w + x < w * h
  {
    MulMono(0, y, w);
    MulMono(y + 1, h, w);
    assert (y + 1) * w == y * w + w;
    assert h * w == w * h;
  }

  /** Each offset below w * h splits into an in-range column i % w and row i / w. */
  lemma RowMajorCell(w: int, h: int, i: int)
    requires 0 <= i < w * h && w > 0
    ensures 0 <= i % w < w && 0 <= i / w < h
    ensures i == (i / w) * w + i % w
  {
    var q := i / w;
    assert i == q * w + i % w;
    if q < 0 {
      MulMono(q, -1, w);
    }
    if q >= h {
      MulMono(h, q, w);
    }
  }

  lemma ProductPositive(w: int, h: int, i: int)
    requires w >= 0 && h >= 0 && 0 <= i < w * h
    ensures w > 0 && h > 0
  {
  }

  /** A value lies between q · step and the next multiple when q is the floor of value / step. */
  lemma FloorBounds(h: real, step: real, q: int)
    requires step > 0.0 && q as real <= h / step < q as real + 1.0
    ensures q as real * step <= h < q as real * step + step
  {
    var x := h / step;
    assert x * step == h;
    var lo := x - q as real;
    var hi := q as real + 1.0 - x;
    assert lo >= 0.0 && hi > 0.0;
    assert lo * step >= 0.0;
    assert hi * step > 0.0;
    assert h - q as real * step == lo * step;
    assert q as real * step + step - h == hi * step;
  }
}

/** BLX-alpha crossover of two real genes (`BLXalphaCross`). */
module Blend {
  import opened Population

  function Min(a: real, b: real): real { if a <= b then a else b }
  function Max(a: real, b: real): real { if a <= b then b else a }

  /** Lower end of the blend interval: `min - alpha*(max - min)`. */
  function Lower(q1: real, q2: real): real {
    Min(q1, q2) - Alpha * (Max(q1, q2) - Min(q1, q2))
  }

  /** Upper end of the blend interval: `max + alpha*(max - min)`. */
  function Upper(q1: real, q2: real): real {
    Max(q1, q2) + Alpha * (Max(q1, q2) - Min(q1, q2))
  }

  /** The child gene for the uniform draw `t`: orders the parents into `u`/`l`,
      widens the interval by `alpha` on each side and interpolates. */
  function Blx(q1: real, q2: real, t: real): (r: real)
    requires Unit(t)
    ensures Lower(q1, q2) <= r <= Upper(q1, q2)
    ensures Lower(q1, q2) < Upper(q1, q2) ==> r < Upper(q1, q2)
    ensures q1 == q2 ==> r == q1
  {
    var (u, l) := if q1 >= q2 then (q1, q2) else (q2, q1);
    var lb := l - Alpha * (u - l);
    var ub := u + Alpha * (u - l);
    Lerp(lb, ub, t)
  }

  /** `lb + t*(ub - lb)`: a unit draw lands in [lb, ub), or on lb when the
      interval is a point. */
  function Lerp(lb: real, ub: real, t: real): (r: real)
    requires Unit(t) && lb <= ub
    ensures lb <= r <= ub
    ensures lb < ub ==> r < ub
    ensures lb == ub ==> r == lb
  {
    var w := ub - lb;
    UnitScale(t, w);
    lb + t * w
  }

  /** A proper fraction of a positive width lies in [0, 1). */
  lemma ProperFraction(a: real, w: real)
    requires 0.0 <= a < w
    ensures Unit(a / w)
  {
    var q := a / w;
    assert q * w == a;
  }

  /** The blend does not depend on which parent is passed first. */
  lemma BlxSymmetric(q1: real, q2: real, t: real)
    requires Unit(t)
    ensures Blx(q1, q2, t) == Blx(q2, q1, t)
  {
  }

  /** The draw that makes `Blx` produce `v`: every point of the half-open blend
      interval of two distinct parents is reached by exactly this draw. */
  function BlxDraw(q1: real, q2: real, v: real): (t: real)
    requires q1 != q2
    requires Lower(q1, q2) <= v < Upper(q1, q2)
    ensures Unit(t)
    ensures Blx(q1, q2, t) == v
  {
    var lb := Lower(q1, q2);
    var ub := Upper(q1, q2);
    assert ub - lb > 0.0;
    var t := (v - lb) / (ub - lb);
    assert t * (ub - lb) == v - lb;
    ProperFraction(v - lb, ub - lb);
    t
  }
}

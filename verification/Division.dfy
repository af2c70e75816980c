/** Division as repeated subtraction, the way the draining loops perform it. */
module Division {

  /** How often `b` can be taken from `a`. */
  function Whole(a: nat, b: nat): nat
    requires b > 0
  {
    if a < b then 0 else 1 + Whole(a - b, b)
  }

  /** What is left then. */
  function Rest(a: nat, b: nat): (r: nat)
    requires b > 0
    ensures r < b
  {
    if a < b then a else Rest(a - b, b)
  }

  lemma {:induction false} IsDivision(a: nat, b: nat)
    requires b > 0
    ensures Whole(a, b) == a / b && Rest(a, b) == a % b
  {
    Euclid(a, b);
    Unique(b, Whole(a, b), Rest(a, b), a / b, a % b);
  }

  lemma {:induction false} Euclid(a: nat, b: nat)
    requires b > 0
    ensures a == Whole(a, b) * b + Rest(a, b)
  {
    if a < b {
    } else {
      Euclid(a - b, b);
      Distribute(Whole(a - b, b), b);
    }
  }

  lemma Distribute(n: nat, b: nat)
    ensures (1 + n) * b == n * b + b
  {
  }

  lemma Unique(b: nat, p: nat, s: nat, q: nat, r: nat)
    requires s < b && r < b && p * b + s == q * b + r
    ensures p == q && s == r
  {
    if p < q {
      MoreThan(b, p, q);
    } else if q < p {
      MoreThan(b, q, p);
    }
  }

  lemma {:induction false} MoreThan(b: nat, p: nat, q: nat)
    requires p < q
    ensures p * b + b <= q * b
    decreases q
  {
    Distribute(q - 1, b);
    if p == q - 1 {
    } else {
      MoreThan(b, p, q - 1);
    }
  }

  /** Dividing in two steps. */
  lemma {:induction false} Sum(a: nat, c: nat, b: nat)
    requires b > 0
    ensures Whole(a + c, b) == Whole(a, b) + Whole(Rest(a, b) + c, b)
    ensures Rest(a + c, b) == Rest(Rest(a, b) + c, b)
    decreases a
  {
    if a < b {
    } else {
      Sum(a - b, c, b);
      assert a + c - b == a - b + c;
    }
  }

  lemma {:induction false} Twice(a: nat, b: nat)
    requires b > 0
    ensures Whole(2 * a, 2 * b) == Whole(a, b) && Rest(2 * a, 2 * b) == 2 * Rest(a, b)
    decreases a
  {
    if a < b {
    } else {
      Twice(a - b, b);
      assert 2 * a - 2 * b == 2 * (a - b);
    }
  }
}

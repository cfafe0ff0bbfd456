// Real multiplication and division under a name, so that a proof can hide what
// they are and use their laws one at a time.
module Products {

  function Times(a: real, b: real): real {
    a * b
  }

  lemma TimesCommutes(a: real, b: real)
    ensures Times(a, b) == Times(b, a)
  {
  }

  lemma TimesRegroups(a: real, b: real, c: real)
    ensures Times(a, Times(b, c)) == Times(Times(a, b), c)
    ensures Times(a, Times(b, c)) == Times(b, Times(a, c))
    ensures Times(a, Times(b, c)) == Times(c, Times(a, b))
  {
  }

  lemma TimesDistributes(a: real, x: real, y: real)
    ensures Times(a, x + y) == Times(a, x) + Times(a, y)
    ensures Times(a, x - y) == Times(a, x) - Times(a, y)
    ensures Times(a, -x) == -Times(a, x)
  {
  }

  lemma TimesUnit(a: real)
    ensures Times(a, 0.0) == 0.0 && Times(0.0, a) == 0.0
    ensures Times(a, 1.0) == a && Times(1.0, a) == a
  {
  }

  lemma TimesPositive(a: real, x: real)
    requires a > 0.0
    ensures x > 0.0 ==> Times(a, x) > 0.0
    ensures x < 0.0 ==> Times(a, x) < 0.0
    ensures x == 0.0 ==> Times(a, x) == 0.0
  {
  }

  lemma TimesCancels(a: real, x: real, y: real)
    requires a > 0.0 && Times(a, x) == Times(a, y)
    ensures x == y
  {
    hide Times;
    TimesDistributes(a, x, y);
    TimesPositive(a, x - y);
  }

  lemma SquareSign(x: real)
    ensures x != 0.0 ==> Times(x, x) > 0.0
    ensures x == 0.0 ==> Times(x, x) == 0.0
  {
    if x > 0.0 {
      TimesPositive(x, x);
    } else if x < 0.0 {
      assert Times(x, x) == Times(-x, -x);
      TimesPositive(-x, -x);
    } else {
      TimesUnit(0.0);
    }
  }

  // Quotients, hidden the same way.
  function Over(a: real, n: real): real
    requires n != 0.0
  {
    a / n
  }

  lemma OverScales(a: real, n: real)
    requires n != 0.0
    ensures Over(a, n) == Times(Over(1.0, n), a)
    ensures Times(Over(a, n), n) == a
  {
  }

  lemma OverSign(a: real, n: real)
    requires n > 0.0
    ensures a > 0.0 ==> Over(a, n) > 0.0
    ensures a == 0.0 ==> Over(a, n) == 0.0
    ensures a < 0.0 ==> Over(a, n) < 0.0
  {
    hide Times, Over;
    OverScales(a, n);
    TimesCommutes(Over(a, n), n);
    TimesPositive(n, Over(a, n));
  }

  // Products of three, in a fixed grouping.
  function Times3(a: real, b: real, c: real): real {
    Times(Times(a, b), c)
  }

  lemma Times3Commutes(a: real, b: real, c: real)
    ensures Times3(a, b, c) == Times3(b, a, c) == Times3(a, c, b)
    ensures Times3(a, b, c) == Times(a, Times(b, c))
  {
    hide Times;
    TimesCommutes(a, b);
    TimesRegroups(a, b, c);
    TimesRegroups(a, c, b);
    TimesCommutes(b, c);
  }

  lemma TimesTwo(x: real)
    ensures Times(2.0, x) == x + x
  {
  }

  lemma TimesSum(p: real, q: real, r: real, t: real)
    ensures Times(p + q + r, t) == Times(p, t) + Times(q, t) + Times(r, t)
    ensures Times(t, p + q + r) == Times(t, p) + Times(t, q) + Times(t, r)
  {
    hide Times;
    TimesDistributes(t, p + q, r);
    TimesDistributes(t, p, q);
    TimesCommutes(p + q + r, t);
    TimesCommutes(p, t);
    TimesCommutes(q, t);
    TimesCommutes(r, t);
  }

  lemma TimesDifference(p: real, q: real, t: real)
    ensures Times(p - q, t) == Times(p, t) - Times(q, t)
    ensures Times(t, p - q) == Times(t, p) - Times(t, q)
    ensures Times(-q, t) == -Times(q, t)
    ensures Times(t, -q) == -Times(t, q)
  {
    hide Times;
    TimesDistributes(t, p, q);
    TimesDistributes(t, q, p);
    TimesCommutes(p - q, t);
    TimesCommutes(p, t);
    TimesCommutes(q, t);
    TimesCommutes(-q, t);
  }

  // (a b)(c d) regrouped as (a c)(b d).
  lemma TimesInterchange(a: real, b: real, c: real, d: real)
    ensures Times(Times(a, b), Times(c, d)) == Times(Times(a, c), Times(b, d))
  {
    hide Times;
    TimesRegroups(Times(a, b), c, d);
    TimesRegroups(a, b, c);
    TimesRegroups(a, c, b);
    TimesCommutes(b, c);
    TimesRegroups(Times(a, c), b, d);
  }

  lemma SquareOfSum(p: real, q: real)
    ensures Times(p + q, p + q) == Times(p, p) + 2.0 * Times(p, q) + Times(q, q)
    ensures Times(p - q, p - q) == Times(p, p) - 2.0 * Times(p, q) + Times(q, q)
  {
    hide Times;
    TimesSum(p, q, 0.0, p + q);
    TimesSum(p, q, 0.0, p);
    TimesSum(p, q, 0.0, q);
    TimesUnit(p);
    TimesUnit(q);
    TimesUnit(p + q);
    TimesDifference(p, q, p - q);
    TimesDifference(p, q, p);
    TimesDifference(p, q, q);
    TimesCommutes(p, q);
  }
}

/** The widths of the source's integers, an optional value, and remainders. */
module Basics {
  const TWO_TO_32: nat := 0x1_0000_0000
  const TWO_TO_64: nat := 0x1_0000_0000_0000_0000

  datatype Option<+T> = None | Some(value: T)

  // ----- remainders -----

  lemma {:induction false} AddMultiple(a: nat, k: nat, m: nat)
    requires m > 0
    ensures (m * k + a) % m == a % m
  {
    if k > 0 {
      AddMultiple(a, k - 1, m);
      var b := m * (k - 1) + a;
      assert m * k + a == b + m;
      AddOnce(b, m);
    }
  }

  lemma AddOnce(b: nat, m: nat)
    requires m > 0
    ensures (b + m) % m == b % m
  {
    var c := b + m;
    assert b == m * (b / m) + b % m && c == m * (c / m) + c % m;
    var step := c / m - b / m;
    assert m * step == m + b % m - c % m;
    if step <= 0 {
      TimesMonotone(m, step, 0);
    } else if step >= 2 {
      TimesMonotone(m, 2, step);
    }
  }

  lemma TimesMonotone(m: nat, x: int, y: int)
    requires x <= y
    ensures m * x <= m * y
  {
  }
}

/** The rounding helper of klib.h and the arithmetic around them. The mask of
    the source rounds as this division does, as its bounds are powers of two. */
module Klib {

  function Up2(size: nat, bound: nat): nat
    requires 0 < bound
  {
    Quot(size + bound - 1, bound) * bound
  }

  // Quotient and remainder, named so that a proof can treat them as unknowns.
  function Quot(n: nat, b: nat): nat
    requires 0 < b
  {
    n / b
  }

  function Rem(n: nat, b: nat): (r: nat)
    requires 0 < b
    ensures r < b
  {
    n % b
  }

  function Ceil(n: nat, b: nat): nat
    requires 0 < b
  {
    Quot(n + b - 1, b)
  }

  lemma Times(a: int, b: int, k: int)
    ensures (a + b) * k == a * k + b * k
  {
  }

  lemma TimesMonotone(a: int, b: int, k: nat)
    requires a <= b
    ensures a * k <= b * k
  {
    Times(a, b - a, k);
  }

  lemma DivMod(n: nat, b: nat)
    requires 0 < b
    ensures n == Quot(n, b) * b + Rem(n, b)
  {
  }

  lemma DivModUnique(n: nat, b: nat, q: nat, r: nat)
    requires 0 < b && n == q * b + r && r < b
    ensures Quot(n, b) == q && Rem(n, b) == r
  {
    DivMod(n, b);
    hide Quot, Rem;
    var q', r' := Quot(n, b), Rem(n, b);
    if q < q' { TimesMonotone(q + 1, q', b); Times(q, 1, b); }
    if q' < q { TimesMonotone(q' + 1, q, b); Times(q', 1, b); }
  }

  lemma CeilBounds(n: nat, b: nat)
    requires 0 < b
    ensures n <= Ceil(n, b) * b < n + b
    ensures Up2(n, b) == Ceil(n, b) * b && Quot(Up2(n, b), b) == Ceil(n, b)
  {
    hide Quot, Rem;
    DivMod(n + b - 1, b);
    DivModUnique(Ceil(n, b) * b, b, Ceil(n, b), 0);
  }

  lemma CeilUnique(n: nat, b: nat, k: nat)
    requires 0 < b && n <= k * b < n + b
    ensures Ceil(n, b) == k
  {
    hide Quot, Rem;
    DivModUnique(n + b - 1, b, k, n + b - 1 - k * b);
  }

  // Moving on by k bytes within one block of size b.
  lemma Advance(n: nat, b: nat, k: nat)
    requires 0 < b && Rem(n, b) + k <= b
    ensures Rem(n, b) + k == b ==> Quot(n + k, b) == Quot(n, b) + 1 && Rem(n + k, b) == 0
    ensures Rem(n, b) + k < b ==> Quot(n + k, b) == Quot(n, b) && Rem(n + k, b) == Rem(n, b) + k
  {
    hide Quot, Rem;
    DivMod(n, b);
    if Rem(n, b) + k == b {
      Times(Quot(n, b), 1, b);
      DivModUnique(n + k, b, Quot(n, b) + 1, 0);
    } else {
      DivModUnique(n + k, b, Quot(n, b), Rem(n, b) + k);
    }
  }

  lemma QuotBelow(n: nat, b: nat, k: nat)
    requires 0 < b
    ensures n < k * b <==> Quot(n, b) < k
    ensures n <= k * b ==> Quot(n, b) <= k
  {
    hide Quot, Rem;
    DivMod(n, b);
    var q := Quot(n, b);
    if q < k { TimesMonotone(q + 1, k, b); Times(q, 1, b); }
    else { TimesMonotone(k, q, b); }
    if k < q { TimesMonotone(k + 1, q, b); Times(k, 1, b); }
  }
}

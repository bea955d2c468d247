/** Small shared vocabulary: optional values, bytes, and the arithmetic of cutting an offset into pages. */
module Common {

  datatype Option<+T> = None | Some(value: T)

  type Byte = b: int | 0 <= b < 256

  const U32_MODULUS: nat := 0x1_0000_0000
  const U64_MODULUS: nat := 0x1_0000_0000_0000_0000

  function Min(a: int, b: int): int { if a < b then a else b }

  function Max(a: int, b: int): int { if a < b then b else a }

  /** Quotient and remainder are determined by `n == q * d + r` with `0 <= r < d`. */
  lemma DivModUnique(n: int, d: int, q: int, r: int)
    requires 0 <= r < d
    requires n == q * d + r
    ensures n / d == q && n % d == r
  {
    var q', r' := n / d, n % d;
    assert q' * d + r' == n;
    if q' < q {
      assert (q - q') * d >= d by { MulAtLeast(q - q', d); }
      assert false;
    } else if q < q' {
      assert (q' - q) * d >= d by { MulAtLeast(q' - q, d); }
      assert false;
    }
  }

  lemma MulAtLeast(k: int, d: int)
    requires k >= 1 && d >= 0
    ensures k * d >= d
  {
    assert (k - 1) * d >= 0;
    assert (k - 1) * d == k * d - d;
  }

  lemma MulMonotone(a: int, b: int, d: int)
    requires a <= b && 0 <= d
    ensures a * d <= b * d
  {
    assert (b - a) * d >= 0;
    assert (b - a) * d == b * d - a * d;
  }

  lemma DivLess(i: nat, d: nat, n: nat)
    requires d > 0 && i < n * d
    ensures i / d < n
  {
    DivBounds(i, d);
    if n <= i / d {
      MulMonotone(n, i / d, d);
      assert false;
    }
  }

  /** Rounding a positive length up to whole pages counts the page of its last byte. */
  lemma CeilIsLastPage(n: nat, d: nat)
    requires d > 0 && n > 0
    ensures (n + d - 1) / d == (n - 1) / d + 1
  {
    DivBounds(n - 1, d);
    var q := (n - 1) / d;
    assert (q + 1) * d == q * d + d;
    DivModUnique(n + d - 1, d, q + 1, (n - 1) % d);
  }

  /** A number is made up of its four base-256 digits. */
  lemma FourBytes(n: nat)
    requires n < 0x100000000
    ensures n / 0x1000000 * 0x1000000 + n / 0x10000 % 0x100 * 0x10000 + n / 0x100 % 0x100 * 0x100 + n % 0x100 == n
  {
    assert n == n / 0x100 * 0x100 + n % 0x100;
    assert n / 0x100 == n / 0x10000 * 0x100 + n / 0x100 % 0x100;
    assert n / 0x10000 == n / 0x1000000 * 0x100 + n / 0x10000 % 0x100;
  }

  /** And they are the ones it was made of. */
  lemma BytesOfFour(n: nat, a: Byte, b: Byte, c: Byte, d: Byte)
    requires n == ((a * 0x100 + b) * 0x100 + c) * 0x100 + d
    ensures n < 0x100000000
    ensures n / 0x1000000 == a && n / 0x10000 % 0x100 == b && n / 0x100 % 0x100 == c && n % 0x100 == d
  {
    assert n / 0x100 == a * 0x10000 + b * 0x100 + c;
    assert n / 0x10000 == a * 0x100 + b;
  }

  /** Which multiples of `d` an offset lies between. */
  lemma DivBounds(n: nat, d: nat)
    requires d > 0
    ensures (n / d) * d <= n < (n / d + 1) * d
    ensures n - (n / d) * d == n % d
  {
    assert n == (n / d) * d + n % d;
    assert (n / d + 1) * d == (n / d) * d + d;
  }
}

/** Runs of a transition system, and the induction that carries an invariant along every run. */
module Runs {

  ghost predicate IsRun<S(!new)>(init: S -> bool, next: (S, S) -> bool, run: seq<S>)
  {
    && |run| > 0
    && init(run[0])
    && forall i :: 0 <= i < |run| - 1 ==> next(run[i], run[i + 1])
  }

  ghost predicate Inductive<S(!new)>(init: S -> bool, next: (S, S) -> bool, inv: S -> bool)
  {
    && (forall s :: init(s) ==> inv(s))
    && (forall s, s' :: inv(s) && next(s, s') ==> inv(s'))
  }

  lemma {:induction false} InductiveHolds<S(!new)>(
      init: S -> bool, next: (S, S) -> bool, inv: S -> bool, run: seq<S>)
    requires Inductive(init, next, inv)
    requires IsRun(init, next, run)
    ensures forall i :: 0 <= i < |run| ==> inv(run[i])
  {
    if |run| > 1 {
      var shorter := run[..|run| - 1];
      InductiveHolds(init, next, inv, shorter);
      var last := |run| - 2;
      assert inv(shorter[last]) && next(run[last], run[last + 1]);
    }
  }

  lemma Extend<S(!new)>(init: S -> bool, next: (S, S) -> bool, run: seq<S>, s: S)
    requires IsRun(init, next, run) && next(run[|run| - 1], s)
    ensures IsRun(init, next, run + [s])
  {
    var longer := run + [s];
    forall i | 0 <= i < |longer| - 1 ensures next(longer[i], longer[i + 1]) {
      if i < |run| - 1 { assert next(run[i], run[i + 1]); }
    }
  }

  /** A relation that every step keeps and that is reflexive and transitive relates any two points of a run in order. */
  lemma {:induction false} StepwiseRelated<S(!new)>(
      init: S -> bool, next: (S, S) -> bool, inv: S -> bool, rel: (S, S) -> bool, run: seq<S>, i: nat, j: nat)
    requires Inductive(init, next, inv)
    requires IsRun(init, next, run)
    requires forall s :: rel(s, s)
    requires forall s, t, u :: rel(s, t) && rel(t, u) ==> rel(s, u)
    requires forall s, s' :: inv(s) && next(s, s') ==> rel(s, s')
    requires i <= j < |run|
    ensures rel(run[i], run[j])
    decreases j - i
  {
    if i < j {
      StepwiseRelated(init, next, inv, rel, run, i, j - 1);
      InductiveHolds(init, next, inv, run);
      var k := j - 1;
      assert next(run[k], run[k + 1]);
      assert rel(run[k], run[j]);
    }
  }
}

/** Byte strings, and finding one inside another. */
module ByteStrings {
  import opened Common

  type Bytes = seq<Byte>

  /** `part` stands in `data` at `pos`. */
  predicate At(data: Bytes, pos: nat, part: Bytes)
  {
    pos + |part| <= |data| && forall i :: 0 <= i < |part| ==> part[i] == data[pos + i]
  }

  lemma AtParts(data: Bytes, pos: nat, a: Bytes, b: Bytes)
    requires At(data, pos, a + b)
    ensures At(data, pos, a) && At(data, pos + |a|, b)
  {
    assert forall i :: 0 <= i < |a| ==> a[i] == (a + b)[i];
    assert forall i :: 0 <= i < |b| ==> b[i] == (a + b)[|a| + i];
  }

  lemma AtJoined(data: Bytes, pos: nat, a: Bytes, b: Bytes)
    requires At(data, pos, a) && At(data, pos + |a|, b)
    ensures At(data, pos, a + b)
  {
  }
}

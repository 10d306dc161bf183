/** Shared value types, and laws of sequences, sets and remainders that know nothing of the firmware. */
module Common {

  newtype Byte = b: int | 0 <= b < 256

  datatype Option<+T> = None | Some(value: T)

  lemma {:induction false} Snoc<T>(a: seq<T>, b: seq<T>)
    requires b != []
    ensures a + b == (a + b[..|b| - 1]) + [b[|b| - 1]]
  {
  }

  function Repeat<T>(n: nat, x: T): (s: seq<T>)
    ensures |s| == n && forall i :: 0 <= i < n ==> s[i] == x
  {
    if n == 0 then [] else Repeat(n - 1, x) + [x]
  }

  function Min(a: int, b: int): int { if a < b then a else b }

  lemma {:induction false} Regroup<T>(a: seq<T>, b: seq<T>, c: seq<T>)
    ensures (a + b) + c == a + (b + c)
  {
  }

  // ---- sets ----

  ghost predicate Distinct<T>(s: seq<T>) {
    forall i, j :: 0 <= i < j < |s| ==> s[i] != s[j]
  }

  function SetOf<T>(s: seq<T>): set<T> { set x | x in s }

  lemma {:induction false} DistinctSize<T>(s: seq<T>)
    requires Distinct(s)
    ensures |SetOf(s)| == |s|
  {
    if s != [] {
      var init, last := s[..|s| - 1], s[|s| - 1];
      DistinctSize(init);
      assert SetOf(s) == SetOf(init) + {last};
      assert last !in SetOf(init);
    }
  }

  lemma {:induction false} ProperSubsetSmaller<T>(a: set<T>, b: set<T>)
    requires a <= b
    ensures |a| <= |b| && (a != b ==> |a| < |b|)
  {
    assert b == a + (b - a) && a !! (b - a);
    assert |b| == |a| + |b - a|;
    if a != b {
      var x :| x in b - a;
      assert |b - a| > 0;
    }
  }

  // ---- remainders ----

  lemma {:induction false} MulGe(d: int, k: int)
    requires d >= 1 && k >= 1
    ensures d * k >= k
  {
    if d > 1 {
      MulGe(d - 1, k);
      assert d * k == (d - 1) * k + k;
    }
  }

  lemma {:induction false} Distribute(q: int, q': int, k: int)
    ensures (q - q') * k == q * k - q' * k
  {
  }

  lemma {:induction false} DivMod(a: int, k: int)
    requires k > 0
    ensures a == (a / k) * k + a % k && 0 <= a % k < k
  {
  }

  lemma {:induction false} QuotientUnique(q: int, q': int, r: int, r': int, k: int)
    requires k > 0 && 0 <= r < k && 0 <= r' < k && q * k + r == q' * k + r'
    ensures q == q' && r == r'
  {
    Distribute(q, q', k);
    Distribute(q', q, k);
    if q > q' {
      MulGe(q - q', k);
    } else if q < q' {
      MulGe(q' - q, k);
    }
  }

  lemma {:induction false} ModIs(a: int, q: int, r: int, k: int)
    requires k > 0 && 0 <= r < k && a == q * k + r
    ensures a % k == r
  {
    DivMod(a, k);
    QuotientUnique(a / k, q, a % k, r, k);
  }
}

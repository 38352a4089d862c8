/** Machine integers and the failure types shared by the other modules. */
module Machine {

  const U64_LIMIT: nat := 0x1_0000_0000_0000_0000

  type Byte = x: int | 0 <= x < 256
  type U64 = x: int | 0 <= x < U64_LIMIT

  datatype Option<+T> = None | Some(value: T)

  /** Unsigned 64-bit subtraction, which wraps when the result would be negative. */
  function WrappingSub(a: U64, b: U64): (r: U64)
    ensures b <= a ==> r == a - b
    ensures a < b ==> r == a - b + U64_LIMIT
  {
    if b <= a then a - b else a - b + U64_LIMIT
  }

  // ----- division, multiplication and remainders

  lemma MulMono(a: nat, b: nat, c: nat)
    requires a <= b
    ensures a * c <= b * c
  {
  }

  lemma Distribute(a: int, b: int, c: int)
    ensures (a + b) * c == a * c + b * c
    ensures (a - b) * c == a * c - b * c
  {
  }

  /** Quotient and remainder are unique. */
  lemma DivModUnique(x: int, m: nat, d: int, r: nat)
    requires m > 0 && x == d * m + r && r < m
    ensures x / m == d && x % m == r
  {
    var e := x / m;
    Distribute(d, e, m);
    if d > e {
      MulMono(1, d - e, m);
    } else if d < e {
      Distribute(e, d, m);
      MulMono(1, e - d, m);
    }
  }

  lemma MultipleOf(k: int, m: nat)
    requires m > 0
    ensures k * m % m == 0
  {
    DivModUnique(k * m, m, k, 0);
  }

  /** The least multiple of `align` that is not below `x`. */
  function AlignTo(x: nat, align: nat): (r: nat)
    requires align > 0
    ensures x <= r < x + align
    ensures r % align == 0
    ensures x % align == 0 ==> r == x
  {
    if x % align == 0 then x
    else
      MultipleOf(x / align + 1, align);
      Distribute(x / align, 1, align);
      (x / align + 1) * align
  }

  function Max(a: nat, b: nat): (m: nat)
    ensures m >= a && m >= b && (m == a || m == b)
  {
    if a < b then b else a
  }

  predicate IsLeast(s: set<nat>, k: nat)
  {
    k in s && forall j :: j in s ==> k <= j
  }

  lemma {:induction false} LeastExists(s: set<nat>)
    requires s != {}
    ensures exists k :: IsLeast(s, k)
  {
    var x :| x in s;
    var rest := s - {x};
    if rest == {} {
      assert s == {x};
      assert IsLeast(s, x);
    } else {
      LeastExists(rest);
      var k :| IsLeast(rest, k);
      assert forall j :: j in s ==> j == x || j in rest;
      assert IsLeast(s, if x < k then x else k);
    }
  }
}

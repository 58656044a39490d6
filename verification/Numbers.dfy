/** Small arithmetic the metric code shares, on exact rationals. */
module Numbers {

  function Max(a: real, b: real): real {
    if a > b then a else b
  }

  function Min(a: real, b: real): real {
    if a < b then a else b
  }

  function Abs(a: real): real {
    if a < 0.0 then -a else a
  }

  function Sum(vals: seq<real>): real {
    if vals == [] then 0.0 else Sum(vals[..|vals| - 1]) + vals[|vals| - 1]
  }

  function Times(n: nat, r: real): real {
    n as real * r
  }

  lemma OneMore(n: nat, r: real)
    ensures Times(n + 1, r) == Times(n, r) + r && Times(0, r) == 0.0
  {
  }

  lemma QuotientTimes(a: real, n: real)
    requires n != 0.0
    ensures a / n * n == a
  {
  }

  lemma SumOne(v: real)
    ensures Sum([v]) == v
  {
    assert [v][..0] == [] && Sum([]) == 0.0;
  }

  lemma {:induction false} SumConcat(a: seq<real>, b: seq<real>)
    ensures Sum(a + b) == Sum(a) + Sum(b)
  {
    if b == [] {
      assert a + b == a;
    } else {
      SumConcat(a, b[..|b| - 1]);
      assert (a + b)[..|a + b| - 1] == a + b[..|b| - 1];
    }
  }
}

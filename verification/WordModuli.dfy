/** Moduli that divide 2^32: reducing a word does not change it modulo such a number. */
module WordModuli {
  import opened Congruence
  import opened Words

  ghost predicate Divides(N: nat, k: int) {
    N * k == M32
  }

  ghost predicate WordModulus(N: nat) {
    N > 0 && exists k: int :: Divides(N, k)
  }

  lemma WordFactor(x: int) returns (k: int)
    ensures x == W32(x) + M32 * k
  {
    k := x / M32;
  }

  lemma WordMultiple(m: int, N: nat) returns (j: int)
    requires WordModulus(N)
    ensures M32 * m == N * j
  {
    var k :| Divides(N, k);
    j := k * m;
    assert N * (k * m) == (N * k) * m;
  }

  lemma WordCong(z: int, N: nat)
    requires WordModulus(N)
    ensures Cong(W32(z), z, N) && Cong(z, W32(z), N)
  {
    var m := WordFactor(z);
    hide W32;
    var j := WordMultiple(m, N);
    hide WordModulus;
    CongByMultiple(z, W32(z), N, j);
  }

  lemma WordModulusOf(N: nat, k: int)
    requires N * k == M32 && N > 0
    ensures WordModulus(N)
  {
    assert Divides(N, k);
  }
}

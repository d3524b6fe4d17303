/** The point function shared among p parties: seed ownership by column parity, one row per
    high half of the input, correction words shared by all rows. */
module FssMParty {
  import opened Bits
  import opened Congruence
  import opened Words
  import opened Blocks
  import opened FssCommon
  import opened PartyCounts

  /** The e-th 32-bit word of the expansion of a seed, as far as the expansion is written. */
  type WordPrf = (Block, nat) -> u32

  /** sigma[i][k] is column k's seed in row i, or 0 when this party does not own it. */
  datatype MPKey = MPKey(sigma: seq<seq<Block>>, cw: seq<seq<nat>>)

  ghost predicate KeyShape(key: MPKey, v: nat, p2: nat, mu: nat) {
    && |key.sigma| == v && |key.cw| == p2
    && (forall i :: 0 <= i < v ==> |key.sigma[i]| == p2)
    && (forall k :: 0 <= k < p2 ==> |key.cw[k]| == mu)
  }

  /** What column k contributes to word e of a party's answer in row g. */
  function Term(prf: WordPrf, key: MPKey, g: nat, e: nat, k: nat): nat
    requires g < |key.sigma| && k < |key.sigma[g]| && k < |key.cw| && e < |key.cw[k]|
  {
    if key.sigma[g][k] == 0 then 0 else Xor(prf(key.sigma[g][k], e), key.cw[k][e])
  }

  /** The first m columns of one party's answer at row g and word e. */
  function Answer(prf: WordPrf, key: MPKey, g: nat, e: nat, m: nat): nat
    requires g < |key.sigma| && m <= |key.sigma[g]| && m <= |key.cw|
    requires forall k :: 0 <= k < m ==> e < |key.cw[k]|
  {
    if m == 0 then 0 else Xor(Answer(prf, key, g, e, m - 1), Term(prf, key, g, e, m - 1))
  }

  ghost predicate SameShape(keys: seq<MPKey>, v: nat, p2: nat, mu: nat) {
    forall q :: 0 <= q < |keys| ==> KeyShape(keys[q], v, p2, mu) && keys[q].cw == keys[0].cw
  }

  /** The first m columns of the answers of the first np parties together. */
  function AllAnswers(prf: WordPrf, keys: seq<MPKey>, v: nat, p2: nat, mu: nat, g: nat, e: nat, m: nat, np: nat): nat
    requires SameShape(keys, v, p2, mu) && g < v && e < mu && m <= p2 && np <= |keys|
    decreases np
  {
    if np == 0 then 0
    else Xor(AllAnswers(prf, keys, v, p2, mu, g, e, m, np - 1), Answer(prf, keys[np - 1], g, e, m))
  }

  /** That is the exclusive or of the parties' answers, one after the other. */
  lemma {:induction false} AllAnswersAre(prf: WordPrf, keys: seq<MPKey>, v: nat, p2: nat, mu: nat, g: nat, e: nat, m: nat, np: nat,
                                         acc: seq<nat>)
    requires SameShape(keys, v, p2, mu) && g < v && e < mu && m <= p2 && np <= |keys| && |acc| == np + 1 && acc[0] == 0
    requires forall q :: 0 < q <= np ==> acc[q] == Xor(acc[q - 1], Answer(prf, keys[q - 1], g, e, m))
    ensures AllAnswers(prf, keys, v, p2, mu, g, e, m, np) == acc[np]
    decreases np
  {
    hide Answer, Xor;
    if np != 0 {
      AllAnswersAre(prf, keys, v, p2, mu, g, e, m, np - 1, acc[..np]);
    }
  }

  /** One column's contribution to the answers of the first np parties together. */
  function AllTerms(prf: WordPrf, keys: seq<MPKey>, v: nat, p2: nat, mu: nat, g: nat, e: nat, k: nat, np: nat): nat
    requires SameShape(keys, v, p2, mu) && g < v && e < mu && k < p2 && np <= |keys|
    decreases np
  {
    if np == 0 then 0
    else Xor(AllTerms(prf, keys, v, p2, mu, g, e, k, np - 1), Term(prf, keys[np - 1], g, e, k))
  }

  /** The parity of column k over the first m parties. */
  function Parity(rows: seq<seq<bit>>, k: nat, m: nat): bit
    requires m <= |rows| && forall q :: 0 <= q < |rows| ==> k < |rows[q]|
  {
    if m == 0 then 0 else BitXor(Parity(rows, k, m - 1), rows[m - 1][k])
  }

  /** In one row of the matrix every column is owned by an odd or by an even number of parties. */
  ghost predicate Balanced(rows: seq<seq<bit>>, p: nat, p2: nat, odd: bool) {
    && |rows| == p
    && (forall q :: 0 <= q < p ==> |rows[q]| == p2)
    && (forall k :: 0 <= k < p2 ==> Parity(rows, k, p) == if odd then 1 else 0)
  }

  /** Column k of seeds s under words cw, if one party owned it alone. */
  function Base(prf: WordPrf, s: seq<Block>, cw: seq<seq<nat>>, e: nat, k: nat): nat
    requires k < |s| && k < |cw| && e < |cw[k]|
  {
    Xor(prf(s[k], e), cw[k][e])
  }

  function BaseSum(prf: WordPrf, s: seq<Block>, cw: seq<seq<nat>>, e: nat, m: nat): nat
    requires m <= |s| && m <= |cw| && forall k :: 0 <= k < m ==> e < |cw[k]|
  {
    if m == 0 then 0 else Xor(BaseSum(prf, s, cw, e, m - 1), Base(prf, s, cw, e, m - 1))
  }

  /** The columns whose seed is zero: every party takes them for seeds it does not own. */
  function ZeroSum(prf: WordPrf, s: seq<Block>, cw: seq<seq<nat>>, e: nat, m: nat): nat
    requires m <= |s| && m <= |cw| && forall k :: 0 <= k < m ==> e < |cw[k]|
  {
    if m == 0 then 0
    else Xor(ZeroSum(prf, s, cw, e, m - 1), if s[m - 1] == 0 then Base(prf, s, cw, e, m - 1) else 0)
  }

  ghost predicate Handed(key: MPKey, own: seq<seq<seq<bit>>>, s: seq<seq<Block>>, q: nat, i: nat, k: nat)
    requires i < |key.sigma| && k < |key.sigma[i]| && i < |own| && q < |own[i]| && k < |own[i][q]|
    requires i < |s| && k < |s[i]|
  {
    key.sigma[i][k] == if own[i][q][k] == 1 then s[i][k] else 0
  }

  /** The keys of all parties: seeds handed out by a matrix that is odd in row g and even elsewhere,
      and words that add up to b at word d and to 0 at the others in row g, where expansions are written. */
  ghost predicate MKeys(prf: WordPrf, v: nat, p2: nat, mu: nat, g: nat, d: nat, b: nat, keys: seq<MPKey>,
                        own: seq<seq<seq<bit>>>, s: seq<seq<Block>>) {
    && |keys| > 0 && g < v && d < mu && |own| == v && |s| == v
    && SameShape(keys, v, p2, mu)
    && (forall i :: 0 <= i < v ==> |s[i]| == p2 && Balanced(own[i], |keys|, p2, i == g))
    && (forall q, i, k :: 0 <= q < |keys| && 0 <= i < v && 0 <= k < p2 ==> Handed(keys[q], own, s, q, i, k))
    && (forall e :: 0 <= e < Written(mu) ==> BaseSum(prf, s[g], keys[0].cw, e, p2) == if e == d then b else 0)
  }

  lemma Xor4(a: nat, b: nat, c: nat, d: nat)
    ensures Xor(Xor(a, b), Xor(c, d)) == Xor(Xor(a, c), Xor(b, d))
  {
    XorAssoc(a, b, Xor(c, d));
    XorAssoc(b, c, d);
    XorComm(b, c);
    XorAssoc(c, b, d);
    XorAssoc(a, c, Xor(b, d));
  }

  /** One more column adds that column's terms, whatever the number of parties. */
  lemma {:induction false} AddColumn(prf: WordPrf, keys: seq<MPKey>, v: nat, p2: nat, mu: nat, g: nat, e: nat, m: nat, np: nat)
    requires SameShape(keys, v, p2, mu) && g < v && e < mu && m < p2 && np <= |keys|
    ensures AllAnswers(prf, keys, v, p2, mu, g, e, m + 1, np)
         == Xor(AllAnswers(prf, keys, v, p2, mu, g, e, m, np), AllTerms(prf, keys, v, p2, mu, g, e, m, np))
    decreases np
  {
    hide Xor, Term;
    if np == 0 {
      XorZero(0);
    } else {
      AddColumn(prf, keys, v, p2, mu, g, e, m, np - 1);
      Xor4(AllAnswers(prf, keys, v, p2, mu, g, e, m, np - 1), AllTerms(prf, keys, v, p2, mu, g, e, m, np - 1),
           Answer(prf, keys[np - 1], g, e, m), Term(prf, keys[np - 1], g, e, m));
    }
  }

  lemma {:induction false} NoColumns(prf: WordPrf, keys: seq<MPKey>, v: nat, p2: nat, mu: nat, g: nat, e: nat, np: nat)
    requires SameShape(keys, v, p2, mu) && g < v && e < mu && np <= |keys|
    ensures AllAnswers(prf, keys, v, p2, mu, g, e, 0, np) == 0
    decreases np
  {
    if np != 0 {
      NoColumns(prf, keys, v, p2, mu, g, e, np - 1);
    }
  }

  /** The owners of one column together contribute its term if they are odd in number, and
      nothing if they are even in number. */
  lemma {:induction false} ColumnTotal(prf: WordPrf, v: nat, p2: nat, mu: nat, g: nat, d: nat, b: nat, keys: seq<MPKey>,
                                       own: seq<seq<seq<bit>>>, s: seq<seq<Block>>, gx: nat, e: nat, k: nat, np: nat)
    requires MKeys(prf, v, p2, mu, g, d, b, keys, own, s) && gx < v && e < mu && k < p2 && np <= |keys|
    ensures Balanced(own[gx], |keys|, p2, gx == g)
    ensures AllTerms(prf, keys, v, p2, mu, gx, e, k, np)
         == if Parity(own[gx], k, np) == 1 && s[gx][k] != 0 then Base(prf, s[gx], keys[0].cw, e, k) else 0
    decreases np
  {
    assert Balanced(own[gx], |keys|, p2, gx == g);
    if np != 0 {
      ColumnTotal(prf, v, p2, mu, g, d, b, keys, own, s, gx, e, k, np - 1);
      assert Handed(keys[np - 1], own, s, np - 1, gx, k);
      XorSelf(Base(prf, s[gx], keys[0].cw, e, k));
    }
  }

  lemma {:induction false} AllColumns(prf: WordPrf, v: nat, p2: nat, mu: nat, g: nat, d: nat, b: nat, keys: seq<MPKey>,
                                      own: seq<seq<seq<bit>>>, s: seq<seq<Block>>, gx: nat, e: nat, m: nat)
    requires MKeys(prf, v, p2, mu, g, d, b, keys, own, s) && gx < v && e < mu && m <= p2
    ensures AllAnswers(prf, keys, v, p2, mu, gx, e, m, |keys|)
         == if gx == g then Xor(BaseSum(prf, s[g], keys[0].cw, e, m), ZeroSum(prf, s[g], keys[0].cw, e, m)) else 0
    decreases m
  {
    hide Xor;
    XorZero(0);
    if m == 0 {
      NoColumns(prf, keys, v, p2, mu, gx, e, |keys|);
    } else {
      AllColumns(prf, v, p2, mu, g, d, b, keys, own, s, gx, e, m - 1);
      AddColumn(prf, keys, v, p2, mu, gx, e, m - 1, |keys|);
      ColumnTotal(prf, v, p2, mu, g, d, b, keys, own, s, gx, e, m - 1, |keys|);
      if gx == g {
        var c := Base(prf, s[g], keys[0].cw, e, m - 1);
        XorSelf(c);
        XorZero(c);
        Xor4(BaseSum(prf, s[g], keys[0].cw, e, m - 1), ZeroSum(prf, s[g], keys[0].cw, e, m - 1),
             c, if s[g][m - 1] == 0 then c else 0);
      }
    }
  }

  lemma XorZero(x: nat)
    ensures Xor(x, 0) == x && Xor(0, x) == x
  {
  }

  lemma XorKeeps(x: nat, z: nat)
    ensures Xor(x, z) == x <==> z == 0
  {
    XorAssoc(x, x, z);
    XorSelf(x);
  }

  lemma {:induction false} NoZeroSeeds(prf: WordPrf, s: seq<Block>, cw: seq<seq<nat>>, e: nat, m: nat)
    requires m <= |s| && m <= |cw| && forall k :: 0 <= k < m ==> e < |cw[k]|
    requires forall k :: 0 <= k < m ==> s[k] != 0
    ensures ZeroSum(prf, s, cw, e, m) == 0
  {
    if m != 0 {
      NoZeroSeeds(prf, s, cw, e, m - 1);
    }
  }

  /** The exclusive or of all parties' answers at x is b when x = a on the low n bits and 0
      otherwise, if x's row exists and its word is written; in a's own row exactly when the columns
      with a zero seed (which nobody takes for his own) contribute nothing. */
  lemma MPartyCorrect(prf: WordPrf, n: nat, mu: nat, a: nat, b: nat, keys: seq<MPKey>,
                      own: seq<seq<seq<bit>>>, s: seq<seq<Block>>, x: nat)
    requires |keys| >= 1 && IsWordCount(n, |keys|, mu) && mu >= 4
    requires MKeys(prf, Rows(n, mu), Columns(|keys|), mu, Gamma(n, a), Delta(n, a), b, keys, own, s)
    requires Gamma(n, x) * mu < Pow2(n)
    ensures Gamma(n, x) < Rows(n, mu) && Delta(n, x) < mu
    ensures var e, p2 := Delta(n, x), Columns(|keys|);
            AllAnswers(prf, keys, Rows(n, mu), p2, mu, Gamma(n, x), e, p2, |keys|)
            == (if Low(x, n) == Low(a, n) then b else 0)
            <==> Gamma(n, x) != Gamma(n, a) || ZeroSum(prf, s[Gamma(n, a)], keys[0].cw, e, p2) == 0
  {
    hide *;
    var g, e, v, p2 := Gamma(n, a), Delta(n, x), Rows(n, mu), Columns(|keys|);
    RowThere(n, mu, Gamma(n, x));
    WordThere(n, |keys|, mu, x);
    WordsWritten(n, |keys|, mu);
    BaseIs(prf, v, p2, mu, g, Delta(n, a), b, keys, own, s, e);
    AllColumns(prf, v, p2, mu, g, Delta(n, a), b, keys, own, s, Gamma(n, x), e, p2);
    PointByHalves(n, x, a);
    XorKeeps(BaseSum(prf, s[g], keys[0].cw, e, p2), ZeroSum(prf, s[g], keys[0].cw, e, p2));
  }

  lemma BaseIs(prf: WordPrf, v: nat, p2: nat, mu: nat, g: nat, d: nat, b: nat, keys: seq<MPKey>,
               own: seq<seq<seq<bit>>>, s: seq<seq<Block>>, e: nat)
    requires MKeys(prf, v, p2, mu, g, d, b, keys, own, s) && e < Written(mu)
    ensures |keys| > 0 && |s| == v && g < v && |s[g]| == |keys[0].cw| == p2
    ensures forall k :: 0 <= k < p2 ==> |keys[0].cw[k]| == mu
    ensures SameShape(keys, v, p2, mu) && BaseSum(prf, s[g], keys[0].cw, e, p2) == if e == d then b else 0
  {
    hide Balanced, Handed, BaseSum;
  }

  /** One party, 4 bits, the point 0, all seeds zero. */
  ghost predicate ZeroKeys(prf: WordPrf, b: nat, keys: seq<MPKey>, own: seq<seq<seq<bit>>>, s: seq<seq<Block>>) {
    && (forall x, e :: prf(x, e) == 0)
    && s == [[0], [0], [0], [0]] && own == [[[1]], [[0]], [[0]], [[0]]]
    && keys == [MPKey([[0], [0], [0], [0]], [[b, 0, 0, 0]])]
  }

  lemma ZeroKeysThere(b: nat) returns (prf: WordPrf, keys: seq<MPKey>, own: seq<seq<seq<bit>>>, s: seq<seq<Block>>)
    ensures ZeroKeys(prf, b, keys, own, s)
  {
    prf := (_, _) => 0;
    keys, own, s := [MPKey([[0], [0], [0], [0]], [[b, 0, 0, 0]])], [[[1]], [[0]], [[0]], [[0]]], [[0], [0], [0], [0]];
  }

  /** A generator may hand out the keys, but the answer at their own point is not b. */
  ghost predicate WrongAnswer(prf: WordPrf, n: nat, mu: nat, a: nat, b: nat, keys: seq<MPKey>,
                              own: seq<seq<seq<bit>>>, s: seq<seq<Block>>) {
    && |keys| >= 1 && mu >= 4 && IsWordCount(n, |keys|, mu) && Gamma(n, a) * mu < Pow2(n)
    && MKeys(prf, Rows(n, mu), Columns(|keys|), mu, Gamma(n, a), Delta(n, a), b, keys, own, s)
    && var p2 := Columns(|keys|);
    AllAnswers(prf, keys, Rows(n, mu), p2, mu, Gamma(n, a), Delta(n, a), p2, |keys|) != b
  }

  lemma ResidueSpoils(prf: WordPrf, n: nat, mu: nat, a: nat, b: nat, keys: seq<MPKey>,
                      own: seq<seq<seq<bit>>>, s: seq<seq<Block>>)
    requires |keys| >= 1 && mu >= 4 && IsWordCount(n, |keys|, mu) && Gamma(n, a) * mu < Pow2(n)
    requires MKeys(prf, Rows(n, mu), Columns(|keys|), mu, Gamma(n, a), Delta(n, a), b, keys, own, s)
    requires ZeroSum(prf, s[Gamma(n, a)], keys[0].cw, Delta(n, a), Columns(|keys|)) != 0
    ensures WrongAnswer(prf, n, mu, a, b, keys, own, s)
  {
    hide MKeys, ZeroSum, AllAnswers, IsWordCount, Rows, Columns, Gamma, Delta, Low, Pow2;
    MPartyCorrect(prf, n, mu, a, b, keys, own, s, a);
  }

  /** With all seeds zero everybody skips everything. */
  lemma ZeroKeysFail(prf: WordPrf, b: nat, keys: seq<MPKey>, own: seq<seq<seq<bit>>>, s: seq<seq<Block>>)
    requires ZeroKeys(prf, b, keys, own, s) && b != 0
    ensures WrongAnswer(prf, 4, 4, 0, b, keys, own, s)
  {
    hide *;
    SmallCounts();
    ZeroHalves();
    ZeroKeysHanded(prf, b, keys, own, s);
    ResidueSpoils(prf, 4, 4, 0, b, keys, own, s);
  }

  /** So there are keys that fail at their point, for every b but 0. */
  lemma ZeroSeedsFail(b: nat) returns (prf: WordPrf, keys: seq<MPKey>, own: seq<seq<seq<bit>>>, s: seq<seq<Block>>)
    requires b != 0
    ensures ZeroKeys(prf, b, keys, own, s) && WrongAnswer(prf, 4, 4, 0, b, keys, own, s)
  {
    hide *;
    prf, keys, own, s := ZeroKeysThere(b);
    ZeroKeysFail(prf, b, keys, own, s);
  }

  lemma ZeroKeysHanded(prf: WordPrf, b: nat, keys: seq<MPKey>, own: seq<seq<seq<bit>>>, s: seq<seq<Block>>)
    requires ZeroKeys(prf, b, keys, own, s)
    ensures |keys| == 1 && MKeys(prf, 4, 1, 4, 0, 0, b, keys, own, s) && ZeroSum(prf, s[0], keys[0].cw, 0, 1) == b
  {
    OneColumn(own);
    ZeroColumns(prf, s[0], keys[0].cw, b);
    hide Xor, BaseSum, ZeroSum, Balanced;
  }

  lemma SmallCounts()
    ensures IsWordCount(4, 1, 4) && Rows(4, 4) == 4 && Columns(1) == 1 && Pow2(4) == 16
  {
    FourthPower();
    hide Pow2;
    DivUnique(16 + 4 - 1, 4, 4, 3);
  }

  lemma FourthPower()
    ensures Pow2(0) == 1 && Pow2(4) == 16 && Pow2(1 - 1) == 1 && Pow2(4 + 1 - 1) == 16
  {
  }

  lemma ZeroHalves()
    ensures Gamma(4, 0) == Delta(4, 0) == 0 && Low(0, 4) == 0
  {
    assert Shr(0, 2) == 0;
    assert Low(0, 2) == 0;
  }

  lemma OneColumn(own: seq<seq<seq<bit>>>)
    requires own == [[[1]], [[0]], [[0]], [[0]]]
    ensures forall i :: 0 <= i < 4 ==> Balanced(own[i], 1, 1, i == 0)
  {
    forall i | 0 <= i < 4
      ensures Parity(own[i], 0, 1) == if i == 0 then 1 else 0
    {
      assert Parity(own[i], 0, 0) == 0;
    }
  }

  lemma ZeroColumns(prf: WordPrf, s: seq<Block>, cw: seq<seq<nat>>, b: nat)
    requires s == [0] && cw == [[b, 0, 0, 0]] && forall x, e :: prf(x, e) == 0
    ensures forall e :: 0 <= e < 4 ==> BaseSum(prf, s, cw, e, 1) == if e == 0 then b else 0
    ensures ZeroSum(prf, s, cw, 0, 1) == b
  {
    hide Xor;
    XorZero(0);
    XorZero(b);
    forall e | 0 <= e < 4
      ensures BaseSum(prf, s, cw, e, 1) == if e == 0 then b else 0
    {
      assert BaseSum(prf, s, cw, e, 0) == 0;
    }
    assert ZeroSum(prf, s, cw, 0, 0) == 0;
  }

  /** The expansion of a seed into a buffer: whole blocks of four words are written, the rest is left as it was. */
  method Expand(prf: WordPrf, s: Block, out: array<u32>)
    modifies out
    ensures forall e :: 0 <= e < out.Length ==> out[e] == if e < Written(out.Length) then prf(s, e) else old(out[e])
  {
    for i := 0 to out.Length / 4
      invariant forall e :: 0 <= e < out.Length ==> out[e] == if e < 4 * i then prf(s, e) else old(out[e])
    {
      for j := 0 to 4
        invariant forall e :: 0 <= e < out.Length ==> out[e] == if e < 4 * i + j then prf(s, e) else old(out[e])
      {
        out[4 * i + j] := prf(s, 4 * i + j);
      }
    }
  }

  /** An expansion and a column's words are folded into all words of the answer. */
  method FoldColumn(y: array<nat>, temp: array<u32>, words: seq<nat>)
    requires y as object != temp as object && y.Length == temp.Length == |words|
    modifies y
    ensures forall e :: 0 <= e < y.Length ==> y[e] == Xor(words[e], Xor(old(y[e]), temp[e]))
  {
    hide Xor;
    for k := 0 to y.Length
      invariant forall e :: 0 <= e < y.Length ==> y[e] == if e < k then Xor(old(y[e]), temp[e]) else old(y[e])
    {
      y[k] := Xor(y[k], temp[k]);
    }
    for j := 0 to y.Length
      invariant forall e :: 0 <= e < y.Length ==>
                  y[e] == if e < j then Xor(words[e], Xor(old(y[e]), temp[e])) else Xor(old(y[e]), temp[e])
    {
      y[j] := Xor(words[j], y[j]);
    }
  }

  /** One party's evaluation: every owned column is expanded and folded into all mu words. The buffer of the
      expansion starts with any words whatever. */
  method EvaluateEqMParty(prf: WordPrf, n: nat, p: nat, mu: nat, key: MPKey, x: u32) returns (ans: nat)
    requires n <= 32 && 1 <= p && n + p <= 60 && IsWordCount(n, p, mu) && mu >= 1
    requires KeyShape(key, Rows(n, mu), Columns(p), mu) && Gamma(n, x) * mu < Pow2(n)
    ensures Gamma(n, x) < Rows(n, mu) && Delta(n, x) < mu
    ensures mu >= 4 ==> ans == Answer(prf, key, Gamma(n, x), Delta(n, x), Columns(p))
  {
    hide Delta, Gamma, Xor, Columns, Rows, IsWordCount, Pow2, Written;
    RowThere(n, mu, Gamma(n, x));
    WordThere(n, p, mu, x);
    WordsWritten(n, p, mu);
    var p2 := Columns(p);
    var delta, gamma := Delta(n, x), Gamma(n, x);
    var y := new nat[mu](_ => 0);
    var temp := new u32[mu];
    for i := 0 to p2
      invariant forall e :: 0 <= e < mu && e < Written(mu) ==> y[e] == Answer(prf, key, gamma, e, i)
    {
      var s := key.sigma[gamma][i];
      if s == 0 {
        forall e | 0 <= e < mu
          ensures Answer(prf, key, gamma, e, i + 1) == Answer(prf, key, gamma, e, i)
        {
          XorZero(Answer(prf, key, gamma, e, i));
        }
      } else {
        Expand(prf, s, temp);
        FoldColumn(y, temp, key.cw[i]);
        forall e | 0 <= e < mu && e < Written(mu)
          ensures Xor(key.cw[i][e], Xor(Answer(prf, key, gamma, e, i), prf(s, e))) == Answer(prf, key, gamma, e, i + 1)
        {
          XorComm(key.cw[i][e], Xor(Answer(prf, key, gamma, e, i), prf(s, e)));
          XorAssoc(Answer(prf, key, gamma, e, i), prf(s, e), key.cw[i][e]);
        }
      }
    }
    ans := y[delta];
  }

  /** Ownership of one row: random bits for all parties but the last, whose bits set the parity. */
  method OwnerRow(p: nat, p2: nat, odd: bool) returns (rows: seq<seq<bit>>)
    requires p >= 1
    ensures Balanced(rows, p, p2, odd)
  {
    rows := [];
    for j := 0 to p - 1
      invariant |rows| == j && forall q :: 0 <= q < j ==> |rows[q]| == p2
    {
      var row: seq<bit> := [];
      for k := 0 to p2
        invariant |row| == k
      {
        var r := Random8();
        row := row + [r % 2];
      }
      rows := rows + [row];
    }
    var last: seq<bit> := [];
    for k := 0 to p2
      invariant |last| == k
      invariant forall h :: 0 <= h < k ==> BitXor(Parity(rows, h, p - 1), last[h]) == if odd then 1 else 0
    {
      var currBits: nat := 0;
      for l := 0 to p - 1
        invariant currBits % 2 == Parity(rows, k, l)
      {
        currBits := currBits + rows[l][k];
      }
      currBits := currBits % 2;
      last := last + [if odd then Not(currBits) else currBits];
    }
    forall k | 0 <= k < p2
      ensures Parity(rows + [last], k, p) == if odd then 1 else 0
    {
      ParityPrefix(rows, last, k, p - 1);
    }
    rows := rows + [last];
  }

  lemma {:induction false} ParityPrefix(rows: seq<seq<bit>>, last: seq<bit>, k: nat, m: nat)
    requires m <= |rows| && k < |last| && forall q :: 0 <= q < |rows| ==> k < |rows[q]|
    ensures Parity(rows + [last], k, m) == Parity(rows, k, m)
  {
    if m != 0 {
      ParityPrefix(rows, last, k, m - 1);
    }
  }

  /** Words that add up, with the seeds of row g, to b at word d and to 0 elsewhere, where expansions are written. */
  method DrawColumnWords(prf: WordPrf, s: seq<Block>, p2: nat, mu: nat, d: nat, b: u64) returns (cw: seq<seq<nat>>)
    requires |s| == p2 >= 1 && d < mu
    ensures |cw| == p2 && forall k :: 0 <= k < p2 ==> |cw[k]| == mu
    ensures forall e :: 0 <= e < Written(mu) ==> e < mu && BaseSum(prf, s, cw, e, p2) == if e == d then Low(b, 32) else 0
  {
    hide Xor, Low, Pow2;
    cw := [];
    var cwTemp: seq<nat> := seq(mu, _ => 0);
    Pow2Of32();
    for i := 0 to p2 - 1
      invariant |cw| == i && forall k :: 0 <= k < i ==> |cw[k]| == mu
      invariant |cwTemp| == mu && forall e :: 0 <= e < mu ==> cwTemp[e] < Pow2(32)
      invariant forall e :: 0 <= e < Written(mu) ==> cwTemp[e] == BaseSum(prf, s, cw, e, i)
    {
      var temp := new u32[mu];
      Expand(prf, s[i], temp);
      var words: seq<nat>, sums: seq<nat> := [], [];
      for j := 0 to mu
        modifies {}
        invariant |words| == |sums| == j
        invariant forall e :: 0 <= e < j ==> sums[e] == Xor(cwTemp[e], Xor(temp[e], words[e])) && sums[e] < Pow2(32)
      {
        var r := Random32();
        words := words + [r];
        sums := sums + [Xor(Xor(cwTemp[j], temp[j]), r)];
        XorAssoc(cwTemp[j], temp[j], r);
        XorBound(cwTemp[j], temp[j], 32);
        XorBound(Xor(cwTemp[j], temp[j]), r, 32);
      }
      forall e | 0 <= e < Written(mu)
        ensures sums[e] == BaseSum(prf, s, cw + [words], e, i + 1)
      {
        BaseSumPrefix(prf, s, cw, words, e, i);
      }
      cw, cwTemp := cw + [words], sums;
    }
    var temp := new u32[mu];
    Expand(prf, s[p2 - 1], temp);
    var last: seq<nat> := [];
    for j := 0 to mu
      modifies {}
      invariant |last| == j
      invariant forall e :: 0 <= e < j && e < Written(mu) ==>
                  Xor(BaseSum(prf, s, cw, e, p2 - 1), Xor(prf(s[p2 - 1], e), last[e])) == if e == d then Low(b, 32) else 0
    {
      var sum := Xor(cwTemp[j], temp[j]);
      XorBound(cwTemp[j], temp[j], 32);
      LowSmall(sum, 32);
      LowXor(b, sum, 32);
      XorZero(sum);
      last := last + [if j == d then Low(Xor(b, sum), 32) else sum];
      LastWordFits(cwTemp[j], temp[j], if j == d then Low(b, 32) else 0);
    }
    forall e | 0 <= e < Written(mu)
      ensures BaseSum(prf, s, cw + [last], e, p2) == if e == d then Low(b, 32) else 0
    {
      BaseSumPrefix(prf, s, cw, last, e, p2 - 1);
    }
    cw := cw + [last];
  }

  lemma LastWordFits(t: nat, r: nat, b: nat)
    ensures Xor(t, Xor(r, Xor(b, Xor(t, r)))) == b
  {
    XorComm(b, Xor(t, r));
    XorAssoc(t, r, Xor(Xor(t, r), b));
    XorAssoc(Xor(t, r), Xor(t, r), b);
    XorSelf(Xor(t, r));
  }

  lemma XorByHalves(z: nat, x: nat, y: nat)
    requires z / 2 == Xor(x, y) / 2 && z % 2 == Xor(x, y) % 2
    ensures z == Xor(x, y)
  {
  }

  lemma {:induction false} LowXor(x: nat, y: nat, n: nat)
    ensures Low(Xor(x, y), n) == Xor(Low(x, n), Low(y, n))
    decreases n
  {
    hide Xor;
    if n == 0 {
      XorZero(0);
    } else {
      XorHalf(x, y);
      LowXor(x / 2, y / 2, n - 1);
      XorHalf(Low(x, n), Low(y, n));
      XorByHalves(Low(Xor(x, y), n), Low(x, n), Low(y, n));
    }
  }

  lemma {:induction false} BaseSumPrefix(prf: WordPrf, s: seq<Block>, cw: seq<seq<nat>>, words: seq<nat>, e: nat, m: nat)
    requires m <= |s| && m <= |cw| && e < |words| && forall k :: 0 <= k < |cw| ==> e < |cw[k]|
    ensures BaseSum(prf, s, cw + [words], e, m) == BaseSum(prf, s, cw, e, m)
  {
    if m != 0 {
      BaseSumPrefix(prf, s, cw, words, e, m - 1);
    }
  }

  /** Key generation for p parties; mu is the number of words a column that the doubles come to. Words and
      sizes fit 32 bits, and so does a point of 32 bits. The source indexes the row of a, so it must exist. */
  method GenerateTreeEqMParty(prf: WordPrf, n: nat, p: nat, mu: nat, a: u64, b: u64)
    returns (keys: seq<MPKey>, ghost own: seq<seq<seq<bit>>>, ghost seeds: seq<seq<Block>>)
    requires n <= 32 && 1 <= p && n + p <= 60 && IsWordCount(n, p, mu) && mu >= 1 && (n == 32 ==> a < M32)
    requires Gamma(n, a) * mu < Pow2(n)
    ensures |keys| == p
    ensures MKeys(prf, Rows(n, mu), Columns(p), mu, Gamma(n, a), Delta(n, a), Low(b, 32), keys, own, seeds)
  {
    hide Delta, Gamma, Parity, Rows, IsWordCount, Pow2, Low;
    RowThere(n, mu, Gamma(n, a));
    WordThere(n, p, mu, a);
    var p2, v := Columns(p), Rows(n, mu);
    var delta, gamma := Delta(n, a), Gamma(n, a);
    var aArr: seq<seq<seq<bit>>> := [];
    for i := 0 to v
      invariant |aArr| == i && forall h :: 0 <= h < i ==> Balanced(aArr[h], p, p2, h == gamma)
    {
      var rows := OwnerRow(p, p2, i == gamma);
      aArr := aArr + [rows];
    }
    var s: seq<seq<Block>> := [];
    for i := 0 to v
      invariant |s| == i && forall h :: 0 <= h < i ==> |s[h]| == p2
    {
      var row: seq<Block> := [];
      for j := 0 to p2
        invariant |row| == j
      {
        var r := RandomBlock();
        row := row + [r];
      }
      s := s + [row];
    }
    var cw := DrawColumnWords(prf, s[gamma], p2, mu, delta, b);
    keys := [];
    for q := 0 to p
      invariant |keys| == q
      invariant forall r :: 0 <= r < q ==> KeyShape(keys[r], v, p2, mu) && keys[r].cw == cw
      invariant forall r, i, k :: 0 <= r < q && 0 <= i < v && 0 <= k < p2 ==>
                  Shaped(aArr, i, r, k) && Handed(keys[r], aArr, s, r, i, k)
    {
      var sigma := HandOut(aArr, s, p, q, v, p2);
      keys := keys + [MPKey(sigma, cw)];
    }
    own, seeds := aArr, s;
  }

  ghost predicate Shaped(own: seq<seq<seq<bit>>>, i: nat, q: nat, k: nat) {
    i < |own| && q < |own[i]| && k < |own[i][q]|
  }

  /** Party q's copy of the seeds, with the ones it does not own set to zero. */
  method HandOut(aArr: seq<seq<seq<bit>>>, s: seq<seq<Block>>, p: nat, q: nat, v: nat, p2: nat) returns (sigma: seq<seq<Block>>)
    requires q < p && |aArr| == |s| == v
    requires forall h :: 0 <= h < v ==> |aArr[h]| == p && |s[h]| == p2
    requires forall h :: 0 <= h < v ==> |aArr[h][q]| == p2
    ensures |sigma| == v && forall i :: 0 <= i < v ==> |sigma[i]| == p2
    ensures forall i, k :: 0 <= i < v && 0 <= k < p2 ==> sigma[i][k] == if aArr[i][q][k] == 1 then s[i][k] else 0
  {
    sigma := [];
    for j := 0 to v
      invariant |sigma| == j && forall i :: 0 <= i < j ==> |sigma[i]| == p2
      invariant forall i, k :: 0 <= i < j && 0 <= k < p2 ==> sigma[i][k] == if aArr[i][q][k] == 1 then s[i][k] else 0
    {
      var row: seq<Block> := [];
      for k := 0 to p2
        invariant |row| == k
        invariant forall h :: 0 <= h < k ==> row[h] == if aArr[j][q][h] == 1 then s[j][h] else 0
      {
        row := row + [if aArr[j][q][k] == 0 then 0 else s[j][k]];
      }
      sigma := sigma + [row];
    }
  }
}

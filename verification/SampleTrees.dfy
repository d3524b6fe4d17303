/** A pair of trees that a generator may output, for any number of bits: one blank, one that carries a
    mark down its path. */
module SampleTrees {
  import opened Bits
  import opened Blocks
  import opened FssCommon

  /** An expansion that repeats the seed. */
  function Repeat(): Prf {
    (s: Block) => PrfOut(Two(s, s), Two(0, 0), Two(0, 0))
  }

  /** Words for a path that turns right: only a node with control bit 1 passes anything on. */
  function RightWords(mark: Block): Two<CW> {
    Two(CW(Two(0, 0), Two(0, 0)), CW(Two(mark, 0), Two(0, 1)))
  }

  /** The two trees for the point 2^(n-1) - 1: left at the root, right ever after. */
  function Blank(n: nat, mark: Block): TreeKey
    requires n >= 1
  {
    TreeKey(Two(0, 0), Two(0, 0), seq(n - 1, _ => RightWords(mark)))
  }

  function Marked(n: nat, mark: Block): TreeKey
    requires n >= 1
  {
    TreeKey(Two(mark, 0), Two(1, 0), seq(n - 1, _ => RightWords(mark)))
  }

  lemma XorWithZero(x: Block)
    ensures BlockXor(x, 0) == x && BlockXor(0, x) == x && BlockXor(x, x) == 0
  {
    XorSelf(x);
    XorComm(x, 0);
  }

  lemma ChildOfBlank(mark: Block, b: bit)
    ensures Child(Repeat()(0), RightWords(mark), 0, b) == Node(0, 0)
  {
    XorWithZero(0);
  }

  /** With control bit 0 a node passes on its seed, with 1 also the mark to the left. */
  lemma ChildOfAny(mark: Block, s: Block, t: bit, b: bit)
    ensures var c := Child(Repeat()(s), RightWords(mark), t, b);
            c.t == (if t == 1 && b == 1 then 1 else 0) && c.s == if t == 1 && b == 0 then BlockXor(s, mark) else s
  {
    XorWithZero(s);
  }

  lemma {:induction false} ShrOnes(m: nat, k: nat)
    ensures Shr(Pow2(m + k) - 1, k) == Pow2(m) - 1
    decreases k
  {
    if k != 0 {
      Pow2Step(m + k - 1);
      ShrOnes(m, k - 1);
      assert (Pow2(m + k) - 1) / 2 == Pow2(m + k - 1) - 1;
    }
  }

  function Point(n: nat): nat
    requires n >= 1
  {
    Pow2(n - 1) - 1
  }

  lemma PointPrefix(n: nat, j: nat)
    requires 1 <= n && j < n
    ensures Low(Point(n), n) == Point(n) == Pow2(n - 1) - 1 && Prefix(Point(n), n, j) == Pow2(j) - 1
  {
    Pow2Step(n - 1);
    LowSmall(Point(n), n);
    ShrOnes(j, n - 1 - j);
  }

  lemma {:induction false} BlankNode(n: nat, mark: Block, j: nat, v: nat)
    requires j < n
    ensures NodeAt(Repeat(), Blank(n, mark), j, v) == Node(0, 0)
    decreases j
  {
    if j != 0 {
      BlankNode(n, mark, j - 1, v / 2);
      ChildOfBlank(mark, v % 2);
    }
  }

  lemma {:induction false} MarkedNode(n: nat, mark: Block, j: nat)
    requires j < n
    ensures NodeAt(Repeat(), Marked(n, mark), j, Pow2(j) - 1) == Node(mark, 1)
  {
    if j != 0 {
      MarkedNode(n, mark, j - 1);
      Pow2Step(j - 1);
      assert (Pow2(j) - 1) / 2 == Pow2(j - 1) - 1 && (Pow2(j) - 1) % 2 == 1;
      ChildOfAny(mark, mark, 1, 1);
    }
  }

  /** A generator may output the two trees. */
  lemma TreesOk(n: nat, mark: Block)
    requires 1 <= n <= 64
    ensures TreeKeys(Repeat(), n, Point(n), Blank(n, mark), Marked(n, mark))
  {
    hide NodeAt, GetBit, Prefix, Low, Shr, Pow2, BlockXor;
    XorWithZero(0);
    XorWithZero(mark);
    PrefixFirst(Point(n), n);
    PointPrefix(n, 0);
    assert Pow2(0) == 1 by { Pow2Zero(); }
    forall i | 0 <= i < n - 1
      ensures LevelAt(Repeat(), n, Point(n), Blank(n, mark), Marked(n, mark), i)
    {
      PrefixStep(Point(n), n, i);
      PointPrefix(n, i);
      PointPrefix(n, i + 1);
      Pow2Step(i);
      BlankNode(n, mark, i, Pow2(i) - 1);
      MarkedNode(n, mark, i);
    }
  }

  lemma Pow2Zero()
    ensures Pow2(0) == 1
  {
  }
}

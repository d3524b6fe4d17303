/** Keys that a generator may output and that fail at their point, one pair for each condition that the
    correctness statements name. */
module KeyCollisions {
  import opened Bits
  import opened Congruence
  import opened Words
  import opened Blocks
  import opened FssCommon
  import opened FssEq
  import opened FssEq32
  import opened SampleTrees

  /** An expansion that shows its seed. */
  function Showing(): Prf {
    (s: Block) => PrfOut(Two(0, s), Two(0, 0), Two(0, 0))
  }

  /** The root at 0 carries the seed; the two parties' control bits differ there. */
  function Root(s: Block, t: bit): TreeKey {
    TreeKey(Two(s, 0), Two(t, 0), [])
  }

  lemma RootsFit(s0: Block, s1: Block)
    ensures TreeKeys(Showing(), 1, 0, Root(s0, 0), Root(s1, 1)) && Low(0, 1) == 0
    ensures NodeAt(Showing(), Root(s0, 0), 0, 0) == Node(s0, 0) && NodeAt(Showing(), Root(s1, 1), 0, 0) == Node(s1, 1)
  {
    assert Low(0, 0) == 0;
    PrefixFirst(0, 1);
    assert GetBit(0, 64) == 0;
  }

  lemma LeafOf(s: Block, t: bit)
    ensures Leaf(Showing(), Root(s, t), 1, 0) == s * 0x1_0000
  {
  }

  /** Two different leaf numbers whose difference the prime divides: the shares do not differ by b. */
  lemma GapCollides(p: int, b: nat) returns (k0: ServerKeyEq, k1: ServerKeyEq)
    requires 0 < p < 0x1_0000_0000_0000_0000_0000_0000_0000_0000 && !Cong(b, 0, p)
    ensures EqKeys(Showing(), p, 1, 0, b, k0, k1) && LeafGap(Showing(), 1, 0, k0.tree, k1.tree) != 0
    ensures !Cong(EqShare(Showing(), p, k0, 1, 0) - EqShare(Showing(), p, k1, 1, 0), b, p)
  {
    k0, k1 := ServerKeyEq(Root(p, 0), 0), ServerKeyEq(Root(0, 1), 0);
    RootsFit(p, 0);
    LeafOf(p, 0);
    LeafOf(0, 1);
    CongByMultiple(p * 0x1_0000, 0, p, 0x1_0000);
    hide Leaf, NodeAt, TreeKeys, Showing, Root, Cong, Low;
    EqCorrect(Showing(), p, 1, 0, b, k0, k1, 0);
  }

  /** A first value of 0 at the point: the shares are right modulo the prime, but the lifted words are not. */
  lemma ZeroValueFails(p: int) returns (k0: ServerKeyEq, k1: ServerKeyEq)
    requires IsPrime(p) && p > M32
    ensures EqKeys(Showing(), p, 1, 0, 1, k0, k1) && EqShare(Showing(), p, k0, 1, 0) == 0
    ensures Cong(EqShare(Showing(), p, k0, 1, 0) - EqShare(Showing(), p, k1, 1, 0), 1, p)
    ensures W32(W32(EqShare(Showing(), p, k0, 1, 0)) + Neg32(W32(EqShare(Showing(), p, k1, 1, 0)))) != 1
  {
    var w := WordFor(p);
    k0, k1 := ServerKeyEq(Root(0, 0), w), ServerKeyEq(Root(1, 1), w);
    RootsFit(0, 1);
    LeafOf(0, 0);
    LeafOf(1, 1);
    FirstValue(p, k0);
    hide Leaf, NodeAt, TreeKeys, Showing, Root, Cong, Low, IsPrime, EqShare;
    EqCorrect(Showing(), p, 1, 0, 1, k0, k1, 0);
    LiftCorrect(Showing(), p, 1, 0, k0, k1, 0);
  }

  lemma WordFor(p: int) returns (w: int)
    requires IsPrime(p) && p > M32
    ensures 0 <= w < p && !Cong(-0x1_0000, 0, p) && Cong(-0x1_0000 * w, 1, p)
  {
    DivUnique(-0x1_0000, p, -1, p - 0x1_0000);
    InvertibleIff(-0x1_0000, p);
    w :| 0 <= w < p && Cong(w * -0x1_0000, 1, p);
  }

  lemma FirstValue(p: int, k: ServerKeyEq)
    requires p > 0 && k.tree == Root(0, 0) && Leaf(Showing(), Root(0, 0), 1, 0) == 0
    ensures EqShare(Showing(), p, k, 1, 0) == 0
  {
    hide Leaf;
  }

  /** Different seeds whose first words are equal, for any number of bits: the 32-bit shares do not
      differ by b at the point. */
  lemma HeadsCollide(n: nat, b: u32) returns (k0: ServerKeyEq, k1: ServerKeyEq)
    requires 1 <= n <= 64 && b != 0
    ensures Eq32Keys(Repeat(), n, Point(n), b, k0, k1) && k0.tree.s != k1.tree.s && Low(Point(n), n) == Point(n)
    ensures W32(Eq32Share(Repeat(), k0, n, Point(n)) - Eq32Share(Repeat(), k1, n, Point(n))) != b
  {
    hide *;
    k0, k1 := ServerKeyEq(Blank(n, 1), 0), ServerKeyEq(Marked(n, 1), 0);
    TreesOk(n, 1);
    PointPrefix(n, n - 1);
    BlankNode(n, 1, n - 1, Point(n));
    MarkedNode(n, 1, n - 1);
    SameHeads(n, b, k0, k1);
    Eq32Correct(Repeat(), n, Point(n), b, k0, k1, Point(n));
  }

  lemma SameHeads(n: nat, b: u32, k0: ServerKeyEq, k1: ServerKeyEq)
    requires 1 <= n <= 64 && k0.tree == Blank(n, 1) && k1.tree == Marked(n, 1) && k0.w == k1.w == 0
    requires TreeKeys(Repeat(), n, Point(n), Blank(n, 1), Marked(n, 1)) && Low(Point(n), n) == Point(n) == Pow2(n - 1) - 1
    requires NodeAt(Repeat(), Blank(n, 1), n - 1, Point(n)) == Node(0, 0)
    requires NodeAt(Repeat(), Marked(n, 1), n - 1, Pow2(n - 1) - 1) == Node(1, 1)
    ensures |k0.tree.cw| == |k1.tree.cw| == n - 1 && Point(n) < Pow2(n) && k0.tree.s != k1.tree.s
    ensures Eq32Keys(Repeat(), n, Point(n), b, k0, k1) && !HeadsDiffer(Repeat(), n, Point(n), k0, k1)
  {
    hide TreeKeys, NodeAt, Low, Repeat;
  }
}

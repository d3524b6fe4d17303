/** Key structures and the shared two-party key tree of the function secret sharing scheme. */
module FssCommon {
  import opened Bits
  import opened Words
  import opened Blocks

  datatype Two<+T> = Two(zero: T, one: T) {
    function At(b: bit): T {
      if b == 0 then zero else one
    }
  }

  /** One PRF expansion: two seeds, the two bytes the control bits come from, two 64-bit values. */
  datatype PrfOut = PrfOut(s: Two<Block>, ctrl: Two<u8>, v: Two<u64>) {
    function T(b: bit): bit {
      ctrl.At(b) % 2
    }
  }

  type Prf = Block -> PrfOut

  /** A correction word: a seed and a control bit for each child. */
  datatype CW = CW(cs: Two<Block>, ct: Two<bit>)

  /** cw[i].At(t) is the word that level i+1 applies under control bit t. */
  datatype TreeKey = TreeKey(s: Two<Block>, t: Two<bit>, cw: seq<Two<CW>>)

  datatype Node = Node(s: Block, t: bit)

  function Not(b: bit): bit {
    1 - b
  }

  /** The child of a node whose seed expands to `out`. */
  function Child(out: PrfOut, words: Two<CW>, t: bit, b: bit): Node {
    var w := words.At(t);
    Node(BlockXor(out.s.At(b), w.cs.At(b)), BitXor(out.T(b), w.ct.At(b)))
  }

  /** The node at depth j whose path is the j+1 bits of v. */
  function NodeAt(prf: Prf, k: TreeKey, j: nat, v: nat): Node
    requires j <= |k.cw|
    decreases j
  {
    if j == 0 then
      Node(k.s.At(v % 2), k.t.At(v % 2))
    else
      var p := NodeAt(prf, k, j - 1, v / 2);
      Child(prf(p.s), k.cw[j - 1], p.t, v % 2)
  }

  /** A child's seed and bit, part by part. */
  lemma ChildIs(out: PrfOut, words: Two<CW>, t: bit, b: bit)
    ensures var w := if t == 0 then words.zero else words.one;
            Child(out, words, t, b) == if b == 0 then Node(BlockXor(out.s.zero, w.cs.zero), (out.ctrl.zero + w.ct.zero) % 2)
                                       else Node(BlockXor(out.s.one, w.cs.one), (out.ctrl.one + w.ct.one) % 2)
  {
    hide BlockXor;
  }

  /** The node at depth j is where a walk from the root along the j+1 bits of v, the highest first, ends. */
  lemma {:induction false} NodeWalk(prf: Prf, k: TreeKey, j: nat, v: nat, walk: seq<Node>)
    requires j <= |k.cw| && |walk| == j + 1
    requires walk[0] == if Shr(v, j) % 2 == 0 then Node(k.s.zero, k.t.zero) else Node(k.s.one, k.t.one)
    requires forall i {:trigger walk[i]} :: 1 <= i <= j ==>
               walk[i] == Child(prf(walk[i - 1].s), k.cw[i - 1], walk[i - 1].t, Shr(v, j - i) % 2)
    ensures NodeAt(prf, k, j, v) == walk[j]
    decreases j
  {
    hide Child;
    if j != 0 {
      NodeWalk(prf, k, j - 1, v / 2, walk[..j]);
      assert Shr(v, 0) == v;
    }
  }

  lemma {:induction false} NodeAtExtends(prf: Prf, k: TreeKey, k': TreeKey, j: nat, v: nat)
    requires k.s == k'.s && k.t == k'.t && k.cw <= k'.cw && j <= |k.cw|
    ensures NodeAt(prf, k, j, v) == NodeAt(prf, k', j, v)
    decreases j
  {
    hide Child;
    if j != 0 {
      NodeAtExtends(prf, k, k', j - 1, v / 2);
    }
  }

  /** What a level's two words must satisfy: children of the two parties agree off the path
      and their control bits differ on it, whichever party holds control bit 0. */
  ghost predicate LevelOk(a: bit, o0: PrfOut, o1: PrfOut, words: Two<CW>) {
    && BlockXor(o0.s.At(Not(a)), words.zero.cs.At(Not(a))) == BlockXor(o1.s.At(Not(a)), words.one.cs.At(Not(a)))
    && BlockXor(o0.s.At(Not(a)), words.one.cs.At(Not(a))) == BlockXor(o1.s.At(Not(a)), words.zero.cs.At(Not(a)))
    && BitXor(o0.T(Not(a)), words.zero.ct.At(Not(a))) == BitXor(o1.T(Not(a)), words.one.ct.At(Not(a)))
    && BitXor(o0.T(a), words.zero.ct.At(a)) != BitXor(o1.T(a), words.one.ct.At(a))
  }

  /** The two parties' nodes at one place of the tree. */
  ghost predicate Related(n0: Node, n1: Node, onPath: bool) {
    if onPath then n0.t != n1.t else n0 == n1
  }

  /** A pair of keys that a generator for a may output: shared words, related roots,
      and every level's words fit the two seeds on the path of a. */
  ghost predicate TreeKeys(prf: Prf, n: nat, a: nat, k0: TreeKey, k1: TreeKey) {
    && 1 <= n <= 64
    && k0.cw == k1.cw && |k0.cw| == n - 1
    && PathKeys(prf, n, a, k0, k1)
  }

  ghost predicate PathKeys(prf: Prf, n: nat, a: nat, k0: TreeKey, k1: TreeKey)
    requires 1 <= n <= 64 && k0.cw == k1.cw && |k0.cw| <= n - 1
  {
    && RootsOk(GetBit(a, 64 - n + 1), k0.s, k1.s, k0.t, k1.t)
    && forall i :: 0 <= i < |k0.cw| ==> LevelAt(prf, n, a, k0, k1, i)
  }

  ghost predicate RootsOk(a: bit, s0: Two<Block>, s1: Two<Block>, t0: Two<bit>, t1: Two<bit>) {
    s0.At(Not(a)) == s1.At(Not(a)) && t0.At(Not(a)) == t1.At(Not(a)) && t0.At(a) != t1.At(a)
  }

  ghost predicate LevelAt(prf: Prf, n: nat, a: nat, k0: TreeKey, k1: TreeKey, i: nat)
    requires 1 <= n <= 64 && k0.cw == k1.cw && i < |k0.cw| <= n - 1
  {
    LevelOk(GetBit(a, 64 - n + i + 2),
            prf(NodeAt(prf, k0, i, Prefix(a, n, i)).s), prf(NodeAt(prf, k1, i, Prefix(a, n, i)).s), k0.cw[i])
  }

  /** A key with one more level of words copied into it. */
  function ExtendTree(k: TreeKey, words: Two<CW>): TreeKey {
    TreeKey(k.s, k.t, k.cw + [words])
  }

  /** The tree invariant: at every depth the two parties' nodes agree off the path of a,
      and on the path their control bits differ. */
  lemma {:induction false} TreeInvariant(prf: Prf, n: nat, a: nat, k0: TreeKey, k1: TreeKey, j: nat, v: nat)
    requires 1 <= n <= 64 && k0.cw == k1.cw && |k0.cw| <= n - 1
    requires PathKeys(prf, n, a, k0, k1)
    requires j <= |k0.cw| && v < Pow2(j + 1)
    ensures Related(NodeAt(prf, k0, j, v), NodeAt(prf, k1, j, v), v == Prefix(a, n, j))
    decreases j
  {
    if j == 0 {
      PrefixFirst(a, n);
      assert Pow2(1) == 2;
    } else {
      TreeInvariant(prf, n, a, k0, k1, j - 1, v / 2);
      PrefixStep(a, n, j - 1);
      assert LevelAt(prf, n, a, k0, k1, j - 1);
      ChildrenRelated(GetBit(a, 64 - n + j + 1), NodeAt(prf, k0, j - 1, v / 2), NodeAt(prf, k1, j - 1, v / 2),
                      v / 2 == Prefix(a, n, j - 1), prf, k0.cw[j - 1], v % 2);
    }
  }

  /** One level down: children of equal nodes are equal; children of nodes on the path are
      related as one of them stays on the path and the other leaves it. */
  lemma ChildrenRelated(a: bit, n0: Node, n1: Node, onPath: bool, prf: Prf, words: Two<CW>, b: bit)
    requires Related(n0, n1, onPath)
    requires onPath ==> LevelOk(a, prf(n0.s), prf(n1.s), words)
    ensures Related(Child(prf(n0.s), words, n0.t, b), Child(prf(n1.s), words, n1.t, b), onPath && b == a)
  {
  }

  /** Appending a level that fits the path keeps what holds of the levels before it. */
  lemma PathExtends(prf: Prf, n: nat, a: nat, k0: TreeKey, k1: TreeKey, words: Two<CW>)
    requires 1 <= n <= 64 && k0.cw == k1.cw && |k0.cw| < n - 1
    requires PathKeys(prf, n, a, k0, k1)
    requires var i := |k0.cw|;
             LevelOk(GetBit(a, 64 - n + i + 2), prf(NodeAt(prf, k0, i, Prefix(a, n, i)).s),
                     prf(NodeAt(prf, k1, i, Prefix(a, n, i)).s), words)
    requires NodeAt(prf, k0, |k0.cw|, Prefix(a, n, |k0.cw|)).t != NodeAt(prf, k1, |k0.cw|, Prefix(a, n, |k0.cw|)).t
    ensures PathKeys(prf, n, a, ExtendTree(k0, words), ExtendTree(k1, words))
    ensures forall h :: 0 <= h <= |k0.cw| ==>
              && NodeAt(prf, ExtendTree(k0, words), h, Prefix(a, n, h)) == NodeAt(prf, k0, h, Prefix(a, n, h))
              && NodeAt(prf, ExtendTree(k1, words), h, Prefix(a, n, h)) == NodeAt(prf, k1, h, Prefix(a, n, h))
    ensures var i := |k0.cw|;
            var m0, m1 := NodeAt(prf, k0, i, Prefix(a, n, i)), NodeAt(prf, k1, i, Prefix(a, n, i));
            var c := GetBit(a, 64 - n + i + 2);
            var c0, c1 := Child(prf(m0.s), words, m0.t, c), Child(prf(m1.s), words, m1.t, c);
            && c0 == NodeAt(prf, ExtendTree(k0, words), i + 1, Prefix(a, n, i + 1))
            && c1 == NodeAt(prf, ExtendTree(k1, words), i + 1, Prefix(a, n, i + 1))
            && c0.t != c1.t
  {
    hide GetBit, Prefix, Child, LevelOk, RootsOk;
    var i, k0', k1' := |k0.cw|, ExtendTree(k0, words), ExtendTree(k1, words);
    forall h | 0 <= h <= i
      ensures NodeAt(prf, k0', h, Prefix(a, n, h)) == NodeAt(prf, k0, h, Prefix(a, n, h))
      ensures NodeAt(prf, k1', h, Prefix(a, n, h)) == NodeAt(prf, k1, h, Prefix(a, n, h))
    {
      NodeAtExtends(prf, k0, k0', h, Prefix(a, n, h));
      NodeAtExtends(prf, k1, k1', h, Prefix(a, n, h));
    }
    forall h | 0 <= h < |k0'.cw|
      ensures LevelAt(prf, n, a, k0', k1', h)
    {
      if h < i {
        assert LevelAt(prf, n, a, k0, k1, h);
      }
    }
    PrefixStep(a, n, i);
    var m0, m1 := NodeAt(prf, k0, i, Prefix(a, n, i)), NodeAt(prf, k1, i, Prefix(a, n, i));
    ChildrenRelated(GetBit(a, 64 - n + i + 2), m0, m1, true, prf, words, GetBit(a, 64 - n + i + 2));
  }

  /** First seeds and control bits, as every generator draws them. */
  method DrawRoots(a: bit) returns (s0: Two<Block>, s1: Two<Block>, t0: Two<bit>, t1: Two<bit>)
    ensures RootsOk(a, s0, s1, t0, t1)
  {
    var s0a := RandomBlock();
    var s1a := RandomBlock();
    var s0na := RandomBlock();
    var temp0 := Random8();
    var temp1 := Random8();
    var t0a: bit := temp0 % 2;
    var t0na: bit := temp1 % 2;
    s0 := if a == 0 then Two(s0a, s0na) else Two(s0na, s0a);
    s1 := if a == 0 then Two(s1a, s0na) else Two(s0na, s1a);
    var t1a: bit := (t0a + 1) % 2;
    t0 := if a == 0 then Two(t0a, t0na) else Two(t0na, t0a);
    t1 := if a == 0 then Two(t1a, t0na) else Two(t0na, t1a);
  }

  /** The two correction words of one level, as every generator draws them. */
  method DrawWords(a: bit, o0: PrfOut, o1: PrfOut) returns (words: Two<CW>)
    ensures LevelOk(a, o0, o1, words)
  {
    var na := Not(a);
    var cs0a := RandomBlock();
    var cs1a := RandomBlock();
    var cs0na := RandomBlock();
    var cs1na := BlockXor(BlockXor(o0.s.At(na), o1.s.At(na)), cs0na);
    var temp0 := Random8();
    var temp1 := Random8();
    var ct0a: bit := temp0 % 2;
    var ct1a := BitXor(BitXor(BitXor(ct0a, o0.T(a)), o1.T(a)), 1);
    var ct0na: bit := temp1 % 2;
    var ct1na := BitXor(BitXor(ct0na, o0.T(na)), o1.T(na));
    var w0 := if a == 0 then CW(Two(cs0a, cs0na), Two(ct0a, ct0na)) else CW(Two(cs0na, cs0a), Two(ct0na, ct0a));
    var w1 := if a == 0 then CW(Two(cs1a, cs1na), Two(ct1a, ct1na)) else CW(Two(cs1na, cs1a), Two(ct1na, ct1a));
    words := Two(w0, w1);
    XorCancels(o0.s.At(na), o1.s.At(na), cs0na);
  }

  /** The walk down the path of a that every generator makes: one fresh pair of words a level.
      It ends with the two parties' nodes at the last level. */
  method GenerateTree(prf: Prf, n: nat, a_i: u64) returns (k0: TreeKey, k1: TreeKey, key0: Node, key1: Node)
    requires 1 <= n <= 64
    ensures TreeKeys(prf, n, a_i, k0, k1)
    ensures key0 == NodeAt(prf, k0, n - 1, Prefix(a_i, n, n - 1))
    ensures key1 == NodeAt(prf, k1, n - 1, Prefix(a_i, n, n - 1))
    ensures key0.t != key1.t
  {
    hide Child, GetBit, Prefix, LevelOk;
    var a := GetBit(a_i, 64 - n + 1);
    var s0, s1, t0, t1 := DrawRoots(a);
    k0, k1 := TreeKey(s0, t0, []), TreeKey(s1, t1, []);
    key0, key1 := Node(s0.At(a), t0.At(a)), Node(s1.At(a), t1.At(a));
    PrefixFirst(a_i, n);
    for i := 0 to n - 1
      invariant k0.cw == k1.cw && |k0.cw| == i
      invariant PathKeys(prf, n, a_i, k0, k1)
      invariant key0 == NodeAt(prf, k0, i, Prefix(a_i, n, i))
      invariant key1 == NodeAt(prf, k1, i, Prefix(a_i, n, i))
      invariant key0.t != key1.t
    {
      hide RootsOk, LevelAt, NodeAt;
      var out0, out1 := prf(key0.s), prf(key1.s);
      a := GetBit(a_i, 64 - n + i + 2);
      var words := DrawWords(a, out0, out1);
      PathExtends(prf, n, a_i, k0, k1, words);
      k0, k1 := ExtendTree(k0, words), ExtendTree(k1, words);
      key0, key1 := Child(out0, words, key0.t, a), Child(out1, words, key1.t, a);
    }
  }
}

/** A decision tree as a padded table, walked for a fixed number of rounds. */
module DecisionTree {
  import opened Words

  /** A node of the tree file; a child 0 is no child, since 0 is the root. */
  datatype FileNode = FileNode(weight: u32, idx: u32, left: nat, right: nat)

  /** A node of the table: where to go, which feature to look at next, threshold and value. */
  datatype NodeEl = NodeEl(nl: nat, nr: nat, xl: nat, xr: nat, t: u32, v: u32)

  /** The tree itself. */
  datatype Tree = Empty | Branch(weight: u32, idx: u32, left: Tree, right: Tree)

  /** How the comparison of feature and threshold decides. */
  type GoesLeft = (u32, u32) -> bool

  /** The tree that hangs below node i of the file. */
  ghost predicate Encodes(nodes: seq<FileNode>, i: nat, tree: Tree)
    decreases tree
  {
    && tree.Branch? && i < |nodes| && nodes[i].weight == tree.weight && nodes[i].idx == tree.idx
    && (if nodes[i].left == 0 then tree.left == Empty else Encodes(nodes, nodes[i].left, tree.left))
    && (if nodes[i].right == 0 then tree.right == Empty else Encodes(nodes, nodes[i].right, tree.right))
  }

  ghost predicate FeaturesIn(tree: Tree, dataLens: nat)
    decreases tree
  {
    tree.Branch? ==> tree.idx < dataLens && FeaturesIn(tree.left, dataLens) && FeaturesIn(tree.right, dataLens)
  }

  /** What the tree says about the data: a leaf's weight; a missing child says 0. */
  ghost function Evaluate(tree: Tree, data: seq<u32>, goesLeft: GoesLeft): u32
    requires FeaturesIn(tree, |data|)
    decreases tree
  {
    if tree.Empty? then 0
    else if tree.left.Empty? && tree.right.Empty? then tree.weight
    else if goesLeft(data[tree.idx], tree.weight) then Evaluate(tree.left, data, goesLeft)
    else Evaluate(tree.right, data, goesLeft)
  }

  /** The file's nodes that the decisions lead through, from node i on: each next one is the child that the
      comparison picks. */
  ghost predicate Leads(nodes: seq<FileNode>, data: seq<u32>, goesLeft: GoesLeft, i: nat, path: seq<nat>) {
    && |path| > 0 && path[0] == i && (forall k :: 0 <= k < |path| ==> path[k] < |nodes| && nodes[path[k]].idx < |data|)
    && forall k {:trigger path[k]} :: 1 <= k < |path| ==> path[k] != 0 && path[k] == Chosen(nodes[path[k - 1]], data, goesLeft)
  }

  ghost function Chosen(n: FileNode, data: seq<u32>, goesLeft: GoesLeft): nat
    requires n.idx < |data|
  {
    if goesLeft(data[n.idx], n.weight) then n.left else n.right
  }

  /** The path ends at a node without children, whose weight is the answer, or where the chosen child is missing. */
  ghost predicate Answers(nodes: seq<FileNode>, data: seq<u32>, goesLeft: GoesLeft, path: seq<nat>, y: u32)
    requires |path| > 0 && path[|path| - 1] < |nodes| && nodes[path[|path| - 1]].idx < |data|
  {
    var n := nodes[path[|path| - 1]];
    if n.left == 0 && n.right == 0 then y == n.weight else Chosen(n, data, goesLeft) == 0 && y == 0
  }

  /** Data and a path from the root answer y. */
  ghost predicate Decides(nodes: seq<FileNode>, data: seq<u32>, goesLeft: GoesLeft, path: seq<nat>, y: u32) {
    Leads(nodes, data, goesLeft, 0, path) && Answers(nodes, data, goesLeft, path, y)
  }

  /** In terms of the file's fields. */
  lemma DecidesIs(nodes: seq<FileNode>, data: seq<u32>, goesLeft: GoesLeft, path: seq<nat>, y: u32)
    requires |path| > 0 && forall k :: 0 <= k < |path| ==> path[k] < |nodes| && nodes[path[k]].idx < |data|
    ensures Decides(nodes, data, goesLeft, path, y) <==>
              && path[0] == 0
              && (forall k {:trigger path[k]} :: 1 <= k < |path| ==>
                    && path[k] != 0
                    && path[k] == if goesLeft(data[nodes[path[k - 1]].idx], nodes[path[k - 1]].weight)
                                  then nodes[path[k - 1]].left else nodes[path[k - 1]].right)
              && var n := nodes[path[|path| - 1]];
                 if n.left == 0 && n.right == 0 then y == n.weight
                 else (if goesLeft(data[n.idx], n.weight) then n.left else n.right) == 0 && y == 0
  {
  }

  ghost function Height(tree: Tree): nat
    decreases tree
  {
    if tree.Empty? then 0 else 1 + Max(Height(tree.left), Height(tree.right))
  }

  function Max(a: nat, b: nat): nat {
    if a < b then b else a
  }

  /** The number of levels below node i, itself included. */
  function FindDeep(nodes: seq<FileNode>, i: nat, ghost tree: Tree): (deep: nat)
    requires Encodes(nodes, i, tree)
    ensures deep == Height(tree) >= 1
    decreases tree
  {
    var ldeep := if nodes[i].left != 0 then FindDeep(nodes, nodes[i].left, tree.left) else 0;
    var rdeep := if nodes[i].right != 0 then FindDeep(nodes, nodes[i].right, tree.right) else 0;
    Max(ldeep, rdeep) + 1
  }

  /** The table entry for node i; missing children lead to the dummy node at the end. */
  function Entry(nodes: seq<FileNode>, i: nat): NodeEl
    requires i < |nodes| && nodes[i].left < |nodes| && nodes[i].right < |nodes|
  {
    var n := nodes[i];
    NodeEl(if n.left == 0 then |nodes| else n.left, if n.right == 0 then |nodes| else n.right,
           nodes[n.left].idx, nodes[n.right].idx, n.weight, if n.left == 0 && n.right == 0 then n.weight else 0)
  }

  lemma EntriesAre(nodes: seq<FileNode>, table: seq<NodeEl>)
    requires |table| == |nodes| && ChildrenIn(nodes) && forall i :: 0 <= i < |nodes| ==> table[i] == Entry(nodes, i)
    ensures forall i :: 0 <= i < |nodes| ==>
              && nodes[i].left < |nodes| && nodes[i].right < |nodes|
              && table[i].nl == (if nodes[i].left == 0 then |nodes| else nodes[i].left)
              && table[i].nr == (if nodes[i].right == 0 then |nodes| else nodes[i].right)
              && table[i].xl == nodes[nodes[i].left].idx && table[i].xr == nodes[nodes[i].right].idx
              && table[i].t == nodes[i].weight
              && table[i].v == (if nodes[i].left == 0 && nodes[i].right == 0 then nodes[i].weight else 0)
  {
  }

  ghost predicate ChildrenIn(nodes: seq<FileNode>) {
    forall i :: 0 <= i < |nodes| ==> nodes[i].left < |nodes| && nodes[i].right < |nodes|
  }

  /** The table for the nodes of a file. */
  method FillTable(tmp: seq<FileNode>) returns (table: array<NodeEl>)
    requires ChildrenIn(tmp)
    ensures fresh(table) && table.Length == |tmp| + 1 && table[|tmp|] == NodeEl(|tmp|, |tmp|, 0, 0, 0, 0)
    ensures forall k :: 0 <= k < |tmp| ==> table[k] == Entry(tmp, k)
  {
    var len := |tmp|;
    table := new NodeEl[len + 1](_ => NodeEl(0, 0, 0, 0, 0, 0));
    for i := 0 to len
      invariant forall k :: 0 <= k < i ==> table[k] == Entry(tmp, k)
    {
      var n := tmp[i];
      table[i] := NodeEl(n.left, n.right, tmp[n.left].idx, tmp[n.right].idx, n.weight,
                         if n.left == 0 && n.right == 0 then n.weight else 0);
      if table[i].nl == 0 {
        table[i] := table[i].(nl := len);
      }
      if table[i].nr == 0 {
        table[i] := table[i].(nr := len);
      }
    }
    table[len] := NodeEl(len, len, 0, 0, 0, 0);
  }

  class Dt {
    const Ps: array<NodeEl>
    const deep: nat
    const startX: nat
    const startN: nat
    const dataLens: nat
    ghost const nodes: seq<FileNode>
    ghost const tree: Tree

    /** The table holds the tree, and behind it a dummy node that leads to itself. */
    ghost predicate Valid()
      reads this, Ps
    {
      && ChildrenIn(nodes) && Encodes(nodes, 0, tree) && FeaturesIn(tree, dataLens)
      && Ps.Length == |nodes| + 1 && deep == Height(tree) && startN == 0 && startX == nodes[0].idx
      && (forall i :: 0 <= i < |nodes| ==> Ps[i] == Entry(nodes, i))
      && Ps[|nodes|] == NodeEl(|nodes|, |nodes|, 0, 0, 0, 0)
    }

    /** From the nodes of a tree file. */
    constructor FromPath(tmp: seq<FileNode>, dataLens: nat, ghost tree: Tree)
      requires ChildrenIn(tmp) && Encodes(tmp, 0, tree) && FeaturesIn(tree, dataLens)
      ensures Valid() && nodes == tmp && this.tree == tree && this.dataLens == dataLens
      ensures Ps.Length == |tmp| + 1 && startN == 0 && startX == tmp[0].idx
      ensures forall i :: 0 <= i < |tmp| ==>
                && tmp[i].left < |tmp| && tmp[i].right < |tmp|
                && Ps[i].nl == (if tmp[i].left == 0 then |tmp| else tmp[i].left)
                && Ps[i].nr == (if tmp[i].right == 0 then |tmp| else tmp[i].right)
                && Ps[i].xl == tmp[tmp[i].left].idx && Ps[i].xr == tmp[tmp[i].right].idx && Ps[i].t == tmp[i].weight
                && Ps[i].v == (if tmp[i].left == 0 && tmp[i].right == 0 then tmp[i].weight else 0)
      ensures Ps[|tmp|] == NodeEl(|tmp|, |tmp|, 0, 0, 0, 0)
    {
      hide FeaturesIn, Entry;
      var table := FillTable(tmp);
      EntriesAre(tmp, table[..|tmp|]);
      this.Ps, this.deep, this.startX, this.startN, this.dataLens := table, FindDeep(tmp, 0, tree), tmp[0].idx, 0, dataLens;
      this.nodes, this.tree := tmp, tree;
    }

    /** Where the walk stands: at a node with the rest of the tree below it and its feature to look
        at, or at the dummy node with nothing left. */
    ghost predicate At(ki: nat, idi: nat, rest: Tree)
      requires Valid()
      reads this, Ps
    {
      if rest.Empty? then idi == |nodes| else Encodes(nodes, idi, rest) && ki == rest.idx
    }

    /** The oblivious walk: always deep rounds, whatever the tree and the data. */
    method Online(data: seq<u32>, goesLeft: GoesLeft) returns (y: u32)
      requires Valid() && |data| == dataLens
      ensures y == Evaluate(tree, data, goesLeft)
      ensures exists path :: Decides(nodes, data, goesLeft, path, y)
      ensures forall path, z :: Decides(nodes, data, goesLeft, path, z) ==> z == y
    {
      hide Evaluate, Encodes, FeaturesIn, Entry, Height, Plus32, Decides;
      OnePath(nodes, tree, data, goesLeft);
      y := 0;
      var ki: nat, idi: nat := startX, startN;
      ghost var rest := tree;
      StartsIn(data, goesLeft);
      for i := 1 to deep + 1
        invariant At(ki, idi, rest) && ki < dataLens && FeaturesIn(rest, dataLens)
        invariant Height(rest) <= deep + 1 - i
        invariant Owed(y, rest, data, goesLeft)
      {
        NodeThere(ki, idi, rest);
        var xPick, nPick := data[ki], Ps[idi];
        Round(y, rest, data, goesLeft);
        y := Plus32(y, nPick.v);
        if i >= deep {
          LastRound(rest, data, goesLeft);
          return;
        }
        var goes := goesLeft(xPick, nPick.t);
        NextStands(ki, idi, rest, data, goesLeft, goes);
        ki, idi := if goes then nPick.xl else nPick.xr, if goes then nPick.nl else nPick.nr;
        rest := Next(rest, data, goesLeft);
      }
      NothingLeft(rest);
    }

    /** What the sum and the rest of the tree together still promise. */
    ghost predicate Owed(y: u32, rest: Tree, data: seq<u32>, goesLeft: GoesLeft)
      requires FeaturesIn(tree, |data|) && FeaturesIn(rest, |data|)
    {
      if rest.Empty? then y == Evaluate(tree, data, goesLeft)
      else y == 0 && Evaluate(rest, data, goesLeft) == Evaluate(tree, data, goesLeft)
    }
  
    lemma StartsIn(data: seq<u32>, goesLeft: GoesLeft)
      requires Valid() && |data| == dataLens
      ensures At(startX, startN, tree) && startX < dataLens && FeaturesIn(tree, dataLens) && Height(tree) == deep
      ensures Owed(0, tree, data, goesLeft)
    {
    }

    lemma NodeThere(ki: nat, idi: nat, rest: Tree)
      requires Valid() && At(ki, idi, rest)
      ensures idi < Ps.Length
      ensures rest.Branch? ==> ki == rest.idx && Ps[idi].t == rest.weight
      ensures Ps[idi].v == if Leaf(rest) then rest.weight else 0
    {
      if rest.Branch? {
        ChildrenThere(nodes, idi, rest);
      }
    }

    /** One round adds what a leaf is worth, once. */
    lemma Round(y: u32, rest: Tree, data: seq<u32>, goesLeft: GoesLeft)
      requires FeaturesIn(tree, |data|) && FeaturesIn(rest, |data|) && Owed(y, rest, data, goesLeft)
      ensures FeaturesIn(Next(rest, data, goesLeft), |data|)
      ensures Owed(Plus32(y, if Leaf(rest) then rest.weight else 0), Next(rest, data, goesLeft), data, goesLeft)
    {
      EvaluateStep(rest, data, goesLeft);
      SmallSum(y);
      if rest.Branch? {
        SmallSum(rest.weight);
      }
      hide Evaluate, FeaturesIn, Plus32, Next;
    }

    /** The walk moves on to the chosen child, or to the dummy node. */
    lemma NextStands(ki: nat, idi: nat, rest: Tree, data: seq<u32>, goesLeft: GoesLeft, goes: bool)
      requires Valid() && At(ki, idi, rest) && FeaturesIn(rest, |data|) && |data| == dataLens && ki < dataLens && idi < Ps.Length
      requires rest.Branch? ==> goes == goesLeft(data[rest.idx], rest.weight)
      ensures var n := Ps[idi];
              && At(if goes then n.xl else n.xr, if goes then n.nl else n.nr, Next(rest, data, goesLeft))
              && (if goes then n.xl else n.xr) < dataLens
      ensures Height(Next(rest, data, goesLeft)) <= if rest.Empty? then 0 else Height(rest) - 1
    {
      if rest.Branch? {
        assert Ps[idi] == Entry(nodes, idi);
        ChildrenThere(nodes, idi, rest);
        ChildFeature(nodes, tree, 0, dataLens);
      }
    }
  }

  /** The decisions lead along one path, and the tree says what it answers. */
  lemma OnePath(nodes: seq<FileNode>, tree: Tree, data: seq<u32>, goesLeft: GoesLeft)
    requires Encodes(nodes, 0, tree) && FeaturesIn(tree, |data|)
    ensures exists path :: Decides(nodes, data, goesLeft, path, Evaluate(tree, data, goesLeft))
    ensures forall path, z :: Decides(nodes, data, goesLeft, path, z) ==> z == Evaluate(tree, data, goesLeft)
  {
    hide Encodes, FeaturesIn, Evaluate, Leads, Answers;
    var path := PathThere(nodes, 0, tree, data, goesLeft);
    assert Decides(nodes, data, goesLeft, path, Evaluate(tree, data, goesLeft));
    forall q, z | Decides(nodes, data, goesLeft, q, z)
      ensures z == Evaluate(tree, data, goesLeft)
    {
      PathAnswers(nodes, 0, tree, data, goesLeft, q, z);
    }
  }

  lemma {:induction false} PathThere(nodes: seq<FileNode>, i: nat, tree: Tree, data: seq<u32>, goesLeft: GoesLeft)
    returns (path: seq<nat>)
    requires Encodes(nodes, i, tree) && FeaturesIn(tree, |data|)
    ensures Leads(nodes, data, goesLeft, i, path) && Answers(nodes, data, goesLeft, path, Evaluate(tree, data, goesLeft))
    decreases tree
  {
    var n := nodes[i];
    path := [i];
    var goes := goesLeft(data[n.idx], n.weight);
    var j := Chosen(n, data, goesLeft);
    if j != 0 {
      var rest := PathThere(nodes, j, if goes then tree.left else tree.right, data, goesLeft);
      path := [i] + rest;
      assert path[|path| - 1] == rest[|rest| - 1];
    }
  }

  lemma {:induction false} PathAnswers(nodes: seq<FileNode>, i: nat, tree: Tree, data: seq<u32>, goesLeft: GoesLeft,
                                       path: seq<nat>, y: u32)
    requires Encodes(nodes, i, tree) && FeaturesIn(tree, |data|)
    requires Leads(nodes, data, goesLeft, i, path) && Answers(nodes, data, goesLeft, path, y)
    ensures y == Evaluate(tree, data, goesLeft)
    decreases tree
  {
    var n := nodes[i];
    if |path| > 1 {
      var j := Chosen(n, data, goesLeft);
      assert path[1] == j;
      PathAnswers(nodes, j, if goesLeft(data[n.idx], n.weight) then tree.left else tree.right, data, goesLeft, path[1..], y);
    }
  }

  /** Nodes of the file that follow one another as children. */
  ghost predicate Chain(nodes: seq<FileNode>, i: nat, path: seq<nat>) {
    && |path| > 0 && path[0] == i && (forall k :: 0 <= k < |path| ==> path[k] < |nodes|)
    && forall k {:trigger path[k]} :: 1 <= k < |path| ==>
         path[k] != 0 && (path[k] == nodes[path[k - 1]].left || path[k] == nodes[path[k - 1]].right)
  }

  /** The height is the length of the longest chain. */
  lemma {:induction false} HeightIs(nodes: seq<FileNode>, i: nat, tree: Tree) returns (longest: seq<nat>)
    requires Encodes(nodes, i, tree)
    ensures Chain(nodes, i, longest) && |longest| == Height(tree)
    ensures forall path :: Chain(nodes, i, path) ==> |path| <= Height(tree)
    decreases tree
  {
    longest := [i];
    if nodes[i].left != 0 {
      var l := HeightIs(nodes, nodes[i].left, tree.left);
      if 1 + |l| > |longest| {
        longest := [i] + l;
      }
    }
    if nodes[i].right != 0 {
      var r := HeightIs(nodes, nodes[i].right, tree.right);
      if 1 + |r| > |longest| {
        longest := [i] + r;
      }
    }
    forall path | Chain(nodes, i, path)
      ensures |path| <= Height(tree)
    {
      ChainShort(nodes, i, tree, path);
    }
  }

  lemma {:induction false} ChainShort(nodes: seq<FileNode>, i: nat, tree: Tree, path: seq<nat>)
    requires Encodes(nodes, i, tree) && Chain(nodes, i, path)
    ensures |path| <= Height(tree)
    decreases tree
  {
    if |path| > 1 {
      assert path[1] != 0;
      ChainShort(nodes, path[1], if path[1] == nodes[i].left then tree.left else tree.right, path[1..]);
    }
  }

  ghost predicate Leaf(tree: Tree) {
    tree.Branch? && tree.left.Empty? && tree.right.Empty?
  }

  /** The part of the tree that the decision at its root leads to. */
  ghost function Next(rest: Tree, data: seq<u32>, goesLeft: GoesLeft): Tree
    requires FeaturesIn(rest, |data|)
  {
    if rest.Empty? then Empty
    else if goesLeft(data[rest.idx], rest.weight) then rest.left
    else rest.right
  }

  lemma EvaluateStep(rest: Tree, data: seq<u32>, goesLeft: GoesLeft)
    requires FeaturesIn(rest, |data|)
    ensures FeaturesIn(Next(rest, data, goesLeft), |data|)
    ensures Evaluate(rest, data, goesLeft)
         == if Leaf(rest) then rest.weight else Evaluate(Next(rest, data, goesLeft), data, goesLeft)
    ensures Leaf(rest) || rest.Empty? ==> Next(rest, data, goesLeft).Empty?
    ensures Evaluate(Empty, data, goesLeft) == 0
  {
  }

  /** A child that the file names is there. */
  lemma ChildrenThere(nodes: seq<FileNode>, i: nat, tree: Tree)
    requires Encodes(nodes, i, tree)
    ensures i < |nodes| && (nodes[i].left == 0 <==> tree.left.Empty?) && (nodes[i].right == 0 <==> tree.right.Empty?)
    ensures tree.left.Branch? ==> nodes[i].left < |nodes| && nodes[nodes[i].left].idx == tree.left.idx
    ensures tree.right.Branch? ==> nodes[i].right < |nodes| && nodes[nodes[i].right].idx == tree.right.idx
  {
    if nodes[i].left != 0 {
      assert Encodes(nodes, nodes[i].left, tree.left);
    }
    if nodes[i].right != 0 {
      assert Encodes(nodes, nodes[i].right, tree.right);
    }
  }

  lemma SmallSum(y: u32)
    ensures Plus32(y, 0) == y && Plus32(0, y) == y
  {
  }

  lemma ChildFeature(nodes: seq<FileNode>, tree: Tree, i: nat, dataLens: nat)
    requires Encodes(nodes, i, tree) && FeaturesIn(tree, dataLens)
    ensures i < |nodes| && nodes[i].idx < dataLens
  {
  }

  /** With one level left, the walk is at a leaf or has nothing left. */
  lemma LastRound(rest: Tree, data: seq<u32>, goesLeft: GoesLeft)
    requires FeaturesIn(rest, |data|) && Height(rest) <= 1
    ensures Next(rest, data, goesLeft).Empty?
  {
    if rest.Branch? {
      assert Height(rest.left) == 0 && Height(rest.right) == 0;
    }
  }

  lemma NothingLeft(rest: Tree)
    requires Height(rest) <= 0
    ensures rest.Empty?
  {
  }
}

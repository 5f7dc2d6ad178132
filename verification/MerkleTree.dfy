/** Bitcoin's Merkle tree: the level-by-level root of a block's transaction ids, and the same
    values addressed by level and position as a partial Merkle proof walks them. */
module MerkleTree {
  import opened Bytes
  import opened Integers

  /** How many nodes a level has: each level is half the one below, rounded up. */
  function Width(total: nat, level: nat): nat
  {
    if level == 0 then total else (Width(total, level - 1) + 1) / 2
  }

  lemma DivTwice(a: nat, b: nat)
    requires b >= 1
    ensures a / b / 2 == a / (2 * b)
  {
    var q, r := a / (2 * b), a % (2 * b);
    var m, n := a / b, a % b;
    var k := m - 2 * q;
    assert a == (2 * b) * q + r && a == b * m + n;
    assert b * k + n == r by { assert b * (2 * q) == (2 * b) * q; }
    if k <= -1 {
      MultipleAtLeast(-k, b);
    } else if k >= 2 {
      MultipleAtLeast(k - 1, b);
    }
  }

  lemma HalfUp(n: nat, b: nat)
    requires b >= 1
    ensures (n / b + 1) / 2 == (n + b) / (2 * b)
  {
    DivTwice(n + b, b);
    assert b * (n / b + 1) == b * (n / b) + b;
    DivUnique(n + b, n / b + 1, n % b, b);
  }

  /** The closed form `(total + (1 << level) - 1) >> level`. */
  lemma {:induction false} WidthFormula(total: nat, level: nat)
    ensures Width(total, level) == (total + Pow2(level) - 1) / Pow2(level)
  {
    if level > 0 {
      WidthFormula(total, level - 1);
      HalfUp(total + Pow2(level - 1) - 1, Pow2(level - 1));
    }
  }

  /** A node of the next level hashes two nodes; the last one of an odd level is paired with itself. */
  function PairHash(nodes: seq<Bytes>, i: nat, hash: Bytes -> Bytes): Bytes
    requires 2 * i < |nodes|
  {
    hash(nodes[2 * i] + (if 2 * i + 1 < |nodes| then nodes[2 * i + 1] else nodes[2 * i]))
  }

  function NextLevel(nodes: seq<Bytes>, hash: Bytes -> Bytes): (r: seq<Bytes>)
    ensures |r| == (|nodes| + 1) / 2
    ensures forall i {:trigger r[i]} :: 0 <= i < |r| ==> r[i] == PairHash(nodes, i, hash)
  {
    seq((|nodes| + 1) / 2, i requires 0 <= i < (|nodes| + 1) / 2 => PairHash(nodes, i, hash))
  }

  /** The block's Merkle root: halve until one node is left. */
  function MerkleRoot(nodes: seq<Bytes>, hash: Bytes -> Bytes): Bytes
    requires nodes != []
    decreases |nodes|
  {
    if |nodes| == 1 then nodes[0] else MerkleRoot(NextLevel(nodes, hash), hash)
  }

  /** All nodes at a level above the leaves. */
  function Level(leaves: seq<Bytes>, k: nat, hash: Bytes -> Bytes): (r: seq<Bytes>)
    ensures |r| == Width(|leaves|, k)
    decreases k
  {
    if k == 0 then leaves else NextLevel(Level(leaves, k - 1, hash), hash)
  }

  lemma {:induction false} LevelOfNextLevel(leaves: seq<Bytes>, k: nat, hash: Bytes -> Bytes)
    ensures Level(NextLevel(leaves, hash), k, hash) == Level(leaves, k + 1, hash)
    decreases k
  {
    if k > 0 {
      LevelOfNextLevel(leaves, k - 1, hash);
    } else {
      assert Level(leaves, 0, hash) == leaves;
    }
  }

  /** The number of halvings that leave one node. */
  function Height(total: nat): nat
  {
    if total <= 1 then 0 else 1 + Height((total + 1) / 2)
  }

  /** The only node of the top level is the block's Merkle root. */
  lemma {:induction false} RootIsTopNode(leaves: seq<Bytes>, hash: Bytes -> Bytes)
    requires leaves != []
    ensures |Level(leaves, Height(|leaves|), hash)| == 1
    ensures Level(leaves, Height(|leaves|), hash)[0] == MerkleRoot(leaves, hash)
    decreases |leaves|
  {
    if |leaves| > 1 {
      var up := NextLevel(leaves, hash);
      LevelOfNextLevel(leaves, Height(|up|), hash);
      RootIsTopNode(up, hash);
    }
  }

  // ---- The same tree as a data structure ----

  /** A node has one child when its level's last node has no sibling; it is then hashed with itself. */
  datatype Tree = Leaf(id: Bytes) | One(only: Tree) | Two(left: Tree, right: Tree)

  /** A tree without its ids: all a proof verifier can derive from the number of leaves. */
  datatype Shape = Tip | Single(below: Shape) | Fork(first: Shape, second: Shape)

  function Hash(t: Tree, hash: Bytes -> Bytes): Bytes
  {
    match t
    case Leaf(id) => id
    case One(only) => hash(Hash(only, hash) + Hash(only, hash))
    case Two(left, right) => hash(Hash(left, hash) + Hash(right, hash))
  }

  function Ids(t: Tree): (s: seq<Bytes>)
    ensures s != []
  {
    match t
    case Leaf(id) => [id]
    case One(only) => Ids(only)
    case Two(left, right) => Ids(left) + Ids(right)
  }

  function Erase(t: Tree): Shape
  {
    match t
    case Leaf(_) => Tip
    case One(only) => Single(Erase(only))
    case Two(left, right) => Fork(Erase(left), Erase(right))
  }

  /** The subtree at a level and position. */
  function TreeAt(leaves: seq<Bytes>, level: nat, position: nat): Tree
    requires position < Width(|leaves|, level)
    decreases level
  {
    if level == 0 then Leaf(leaves[position])
    else if 2 * position + 1 < Width(|leaves|, level - 1) then
      Two(TreeAt(leaves, level - 1, 2 * position), TreeAt(leaves, level - 1, 2 * position + 1))
    else
      One(TreeAt(leaves, level - 1, 2 * position))
  }

  function ShapeAt(total: nat, level: nat, position: nat): Shape
    decreases level
  {
    if level == 0 then Tip
    else if 2 * position + 1 < Width(total, level - 1) then
      Fork(ShapeAt(total, level - 1, 2 * position), ShapeAt(total, level - 1, 2 * position + 1))
    else
      Single(ShapeAt(total, level - 1, 2 * position))
  }

  lemma {:induction false} TreeHasShape(leaves: seq<Bytes>, level: nat, position: nat)
    requires position < Width(|leaves|, level)
    ensures Erase(TreeAt(leaves, level, position)) == ShapeAt(|leaves|, level, position)
    decreases level
  {
    if level > 0 {
      TreeHasShape(leaves, level - 1, 2 * position);
      if 2 * position + 1 < Width(|leaves|, level - 1) {
        TreeHasShape(leaves, level - 1, 2 * position + 1);
      }
    }
  }

  lemma {:induction false} TreeHash(leaves: seq<Bytes>, level: nat, position: nat, hash: Bytes -> Bytes)
    requires position < Width(|leaves|, level)
    ensures Hash(TreeAt(leaves, level, position), hash) == Level(leaves, level, hash)[position]
    decreases level
  {
    if level > 0 {
      var nodes := Level(leaves, level - 1, hash);
      TreeHash(leaves, level - 1, 2 * position, hash);
      if 2 * position + 1 < |nodes| {
        TreeHash(leaves, level - 1, 2 * position + 1, hash);
      }
      assert Level(leaves, level, hash)[position] == PairHash(nodes, position, hash);
    }
  }

  /** The index of the first leaf at or after a position of a level. */
  function First(level: nat, position: nat): nat
    decreases level
  {
    if level == 0 then position else First(level - 1, 2 * position)
  }

  lemma {:induction false} FirstMonotone(level: nat, a: nat, b: nat)
    requires a <= b
    ensures First(level, a) <= First(level, b)
    decreases level
  {
    if level > 0 { FirstMonotone(level - 1, 2 * a, 2 * b); }
  }

  lemma {:induction false} FirstZero(level: nat)
    ensures First(level, 0) == 0
  {
    if level > 0 { FirstZero(level - 1); }
  }

  /** A position exists at a level exactly when its first leaf does. */
  lemma {:induction false} FirstInside(total: nat, level: nat, position: nat)
    ensures position < Width(total, level) <==> First(level, position) < total
    decreases level
  {
    if level > 0 { FirstInside(total, level - 1, 2 * position); }
  }

  function Clip(i: nat, total: nat): nat
  {
    if i <= total then i else total
  }

  /** The leaves a position covers. */
  function Covered(leaves: seq<Bytes>, level: nat, from: nat, to: nat): seq<Bytes>
    requires from <= to
  {
    FirstMonotone(level, from, to);
    leaves[Clip(First(level, from), |leaves|)..Clip(First(level, to), |leaves|)]
  }

  lemma CoveredJoin(leaves: seq<Bytes>, level: nat, a: nat, b: nat, c: nat)
    requires a <= b <= c
    ensures Covered(leaves, level, a, b) + Covered(leaves, level, b, c) == Covered(leaves, level, a, c)
  {
    FirstMonotone(level, a, b);
    FirstMonotone(level, b, c);
  }

  lemma CoveredPast(leaves: seq<Bytes>, level: nat, a: nat, b: nat, c: nat)
    requires a <= b <= c && b >= Width(|leaves|, level)
    ensures Covered(leaves, level, a, b) == Covered(leaves, level, a, c)
  {
    FirstMonotone(level, a, b);
    FirstMonotone(level, b, c);
    FirstInside(|leaves|, level, b);
    FirstInside(|leaves|, level, c);
  }

  lemma CoveredBelow(leaves: seq<Bytes>, level: nat, a: nat, b: nat)
    requires a <= b && level > 0
    ensures Covered(leaves, level, a, b) == Covered(leaves, level - 1, 2 * a, 2 * b)
  {
  }

  lemma CoveredLeaf(leaves: seq<Bytes>, position: nat)
    requires position < |leaves|
    ensures Covered(leaves, 0, position, position + 1) == [leaves[position]]
  {
  }

  lemma TreeIdsFork(leaves: seq<Bytes>, level: nat, position: nat, left: Tree, right: Tree)
    requires level > 0
    requires Ids(left) == Covered(leaves, level - 1, 2 * position, 2 * position + 1)
    requires Ids(right) == Covered(leaves, level - 1, 2 * position + 1, 2 * position + 2)
    ensures Ids(Two(left, right)) == Covered(leaves, level, position, position + 1)
  {
    CoveredFork(leaves, level, position, 2 * position);
  }

  lemma CoveredFork(leaves: seq<Bytes>, level: nat, position: nat, below: nat)
    requires level > 0 && below == 2 * position
    ensures Covered(leaves, level, position, position + 1) ==
            Covered(leaves, level - 1, below, below + 1) + Covered(leaves, level - 1, below + 1, below + 2)
  {
    CoveredBelow(leaves, level, position, position + 1);
    CoveredJoin(leaves, level - 1, below, below + 1, below + 2);
  }

  lemma TreeIdsSingle(leaves: seq<Bytes>, level: nat, position: nat, only: Tree)
    requires level > 0 && 2 * position + 1 >= Width(|leaves|, level - 1)
    requires Ids(only) == Covered(leaves, level - 1, 2 * position, 2 * position + 1)
    ensures Ids(One(only)) == Covered(leaves, level, position, position + 1)
  {
    CoveredBelow(leaves, level, position, position + 1);
    CoveredPast(leaves, level - 1, 2 * position, 2 * position + 1, 2 * position + 2);
  }

  /** The ids under a node are the leaves its position covers. */
  lemma {:induction false} TreeIds(leaves: seq<Bytes>, level: nat, position: nat)
    requires position < Width(|leaves|, level)
    ensures Ids(TreeAt(leaves, level, position)) == Covered(leaves, level, position, position + 1)
    decreases level
  {
    if level == 0 {
      CoveredLeaf(leaves, position);
    } else {
      var p := 2 * position;
      TreeIds(leaves, level - 1, p);
      if p + 1 < Width(|leaves|, level - 1) {
        TreeIds(leaves, level - 1, p + 1);
        TreeIdsFork(leaves, level, position, TreeAt(leaves, level - 1, p), TreeAt(leaves, level - 1, p + 1));
      } else {
        TreeIdsSingle(leaves, level, position, TreeAt(leaves, level - 1, p));
      }
    }
  }

  lemma {:induction false} TopWidth(total: nat)
    requires total >= 1
    ensures Width(total, Height(total)) == 1
  {
    if total > 1 {
      TopWidth((total + 1) / 2);
      WidthOfHalf(total, Height((total + 1) / 2));
    }
  }

  lemma {:induction false} WidthOfHalf(total: nat, level: nat)
    ensures Width((total + 1) / 2, level) == Width(total, level + 1)
  {
    if level > 0 { WidthOfHalf(total, level - 1); }
  }

  /** The tree of a block's ids. */
  function BlockTree(leaves: seq<Bytes>): Tree
    requires leaves != []
  {
    TopWidth(|leaves|);
    TreeAt(leaves, Height(|leaves|), 0)
  }

  /** The block's tree holds exactly its ids in order, hashes to its root, and has the shape a
      verifier derives from the number of ids. */
  lemma BlockTreeProperties(leaves: seq<Bytes>, hash: Bytes -> Bytes)
    requires leaves != []
    ensures Ids(BlockTree(leaves)) == leaves
    ensures Hash(BlockTree(leaves), hash) == MerkleRoot(leaves, hash)
    ensures Erase(BlockTree(leaves)) == ShapeAt(|leaves|, Height(|leaves|), 0)
  {
    var h := Height(|leaves|);
    TopWidth(|leaves|);
    RootIsTopNode(leaves, hash);
    TreeHash(leaves, h, 0, hash);
    TreeHasShape(leaves, h, 0);
    BlockTreeIds(leaves);
  }

  lemma BlockTreeIds(leaves: seq<Bytes>)
    requires leaves != []
    ensures Ids(BlockTree(leaves)) == leaves
  {
    var h := Height(|leaves|);
    TopWidth(|leaves|);
    TreeIds(leaves, h, 0);
    FirstZero(h);
    FirstInside(|leaves|, h, 1);
  }
}

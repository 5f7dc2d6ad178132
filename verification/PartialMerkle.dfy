/** Partial Merkle proofs (BIP 37, "Partial Merkle branch format"): the walk that rebuilds the root
    from hashes and flag bits, why an accepted proof cannot name a foreign transaction, and which
    proofs built for a single transaction are accepted. */
module PartialMerkle {
  import opened Bytes
  import opened MerkleTree

  /** The rebuilt hash, the flags and hashes left over, and the ids flagged as matches. */
  datatype Walked = Fail | Walked(value: Bytes, flags: seq<bool>, hashes: seq<Bytes>, matches: seq<Bytes>)

  /** Rebuilds a subtree's hash, consuming one flag per visited node and one hash per node the
      flags do not open. Equal siblings are refused as a mutated branch. */
  function Walk(shape: Shape, flags: seq<bool>, hashes: seq<Bytes>, hash: Bytes -> Bytes): Walked
  {
    if flags == [] then Fail
    else if shape.Tip? || !flags[0] then
      if hashes == [] then Fail
      else Walked(hashes[0], flags[1..], hashes[1..], if flags[0] then [hashes[0]] else [])
    else
      match shape
      case Single(below) =>
        var left := Walk(below, flags[1..], hashes, hash);
        if left.Fail? then Fail else left.(value := hash(left.value + left.value))
      case Fork(first, second) =>
        var left := Walk(first, flags[1..], hashes, hash);
        if left.Fail? then Fail else
        var right := Walk(second, left.flags, left.hashes, hash);
        if right.Fail? || right.value == left.value then Fail
        else right.(value := hash(left.value + right.value), matches := left.matches + right.matches)
  }

  // ---- Soundness ----

  /** Everything the walk hashes. */
  ghost function WalkPreimages(shape: Shape, flags: seq<bool>, hashes: seq<Bytes>, hash: Bytes -> Bytes): set<Bytes>
  {
    if flags == [] || shape.Tip? || !flags[0] then {}
    else
      match shape
      case Single(below) =>
        var left := Walk(below, flags[1..], hashes, hash);
        WalkPreimages(below, flags[1..], hashes, hash) + (if left.Fail? then {} else {left.value + left.value})
      case Fork(first, second) =>
        var left := Walk(first, flags[1..], hashes, hash);
        var below := WalkPreimages(first, flags[1..], hashes, hash);
        if left.Fail? then below else
        var right := Walk(second, left.flags, left.hashes, hash);
        below + WalkPreimages(second, left.flags, left.hashes, hash) +
        (if right.Fail? then {} else {left.value + right.value})
  }

  /** Everything hashed to build the block's tree. */
  ghost function TreePreimages(t: Tree, hash: Bytes -> Bytes): set<Bytes>
  {
    match t
    case Leaf(_) => {}
    case One(only) => TreePreimages(only, hash) + {Hash(only, hash) + Hash(only, hash)}
    case Two(left, right) =>
      TreePreimages(left, hash) + TreePreimages(right, hash) + {Hash(left, hash) + Hash(right, hash)}
  }

  ghost predicate Digests(s: seq<Bytes>)
  {
    forall i :: 0 <= i < |s| ==> |s[i]| == 32
  }

  ghost predicate DigestSized(hash: Bytes -> Bytes)
  {
    forall s {:trigger hash(s)} :: |hash(s)| == 32
  }

  lemma {:induction false} TreeDigest(t: Tree, hash: Bytes -> Bytes)
    requires Digests(Ids(t)) && DigestSized(hash)
    ensures |Hash(t, hash)| == 32
  {
    if t.Leaf? { assert |Ids(t)[0]| == 32; }
  }

  lemma ChildDigests(left: seq<Bytes>, right: seq<Bytes>)
    requires Digests(left + right)
    ensures Digests(left) && Digests(right)
  {
    var all := left + right;
    forall i | 0 <= i < |left| ensures |left[i]| == 32 { assert all[i] == left[i]; }
    forall i | 0 <= i < |right| ensures |right[i]| == 32 { assert all[|left| + i] == right[i]; }
  }

  lemma {:induction false} WalkDigest(shape: Shape, flags: seq<bool>, hashes: seq<Bytes>, hash: Bytes -> Bytes)
    requires Digests(hashes) && DigestSized(hash) && Walk(shape, flags, hashes, hash).Walked?
    ensures |Walk(shape, flags, hashes, hash).value| == 32
    ensures Digests(Walk(shape, flags, hashes, hash).hashes)
    decreases shape
  {
    if !shape.Tip? && flags[0] {
      match shape
      case Single(below) => WalkDigest(below, flags[1..], hashes, hash);
      case Fork(first, second) =>
        WalkDigest(first, flags[1..], hashes, hash);
        var left := Walk(first, flags[1..], hashes, hash);
        WalkDigest(second, left.flags, left.hashes, hash);
    }
  }

  ghost predicate AllIn(s: seq<Bytes>, ids: seq<Bytes>)
  {
    forall i :: 0 <= i < |s| ==> s[i] in ids
  }

  lemma AllInJoin(s: seq<Bytes>, a: seq<Bytes>, t: seq<Bytes>, b: seq<Bytes>)
    requires AllIn(s, a) && AllIn(t, b)
    ensures AllIn(s + t, a + b)
  {
  }

  /** A walk that reproduces the hash of a tree only reveals that tree's own leaves: every match it
      reports is one of the tree's ids. */
  lemma {:induction false} WalkSound(t: Tree, flags: seq<bool>, hashes: seq<Bytes>, hash: Bytes -> Bytes,
                                     inputs: set<Bytes>)
    requires Digests(Ids(t)) && Digests(hashes) && DigestSized(hash) && CollisionFree(hash, inputs)
    requires WalkPreimages(Erase(t), flags, hashes, hash) <= inputs && TreePreimages(t, hash) <= inputs
    requires Walk(Erase(t), flags, hashes, hash).Walked?
    requires Walk(Erase(t), flags, hashes, hash).value == Hash(t, hash)
    ensures AllIn(Walk(Erase(t), flags, hashes, hash).matches, Ids(t))
    decreases t
  {
    var w := Walk(Erase(t), flags, hashes, hash);
    if t.Leaf? {
      assert w.matches == [] || w.matches == Ids(t);
    } else if flags[0] {
      match t
      case One(only) =>
        var left := Walk(Erase(only), flags[1..], hashes, hash);
        WalkDigest(Erase(only), flags[1..], hashes, hash);
        TreeDigest(only, hash);
        AppendCancel(left.value, left.value, Hash(only, hash), Hash(only, hash));
        WalkSound(only, flags[1..], hashes, hash, inputs);
      case Two(l, r) =>
        var left := Walk(Erase(l), flags[1..], hashes, hash);
        var right := Walk(Erase(r), left.flags, left.hashes, hash);
        ChildDigests(Ids(l), Ids(r));
        WalkDigest(Erase(l), flags[1..], hashes, hash);
        TreeDigest(l, hash);
        AppendCancel(left.value, right.value, Hash(l, hash), Hash(r, hash));
        WalkSound(l, flags[1..], hashes, hash, inputs);
        WalkSound(r, left.flags, left.hashes, hash, inputs);
        AllInJoin(left.matches, Ids(l), right.matches, Ids(r));
    }
  }

  // ---- Completeness: the standard proof for one leaf ----

  /** The way from a node to the leaf being proved, or `Off` when the leaf is elsewhere. */
  datatype Path = Off | Here | Down(rest: Path) | GoLeft(rest: Path) | GoRight(rest: Path)

  predicate ValidPath(t: Tree, path: Path)
  {
    match path
    case Off => true
    case Here => t.Leaf?
    case Down(rest) => t.One? && rest != Off && ValidPath(t.only, rest)
    case GoLeft(rest) => t.Two? && rest != Off && ValidPath(t.left, rest)
    case GoRight(rest) => t.Two? && rest != Off && ValidPath(t.right, rest)
  }

  function IdAt(t: Tree, path: Path): Bytes
    requires ValidPath(t, path) && path != Off
  {
    match path
    case Here => t.id
    case Down(rest) => IdAt(t.only, rest)
    case GoLeft(rest) => IdAt(t.left, rest)
    case GoRight(rest) => IdAt(t.right, rest)
  }

  /** The path to the i-th id. */
  function PathTo(t: Tree, i: nat): (path: Path)
    requires i < |Ids(t)|
    ensures ValidPath(t, path) && path != Off && IdAt(t, path) == Ids(t)[i]
  {
    match t
    case Leaf(_) => Here
    case One(only) => Down(PathTo(only, i))
    case Two(l, r) => if i < |Ids(l)| then GoLeft(PathTo(l, i)) else GoRight(PathTo(r, i - |Ids(l)|))
  }

  /** One flag per visited node, set on the path and clear beside it, before `tail`. */
  function FlagsTo(t: Tree, path: Path, tail: seq<bool>): seq<bool>
    requires ValidPath(t, path)
    decreases t
  {
    match path
    case Off => [false] + tail
    case Here => [true] + tail
    case Down(rest) => [true] + FlagsTo(t.only, rest, tail)
    case GoLeft(rest) => [true] + FlagsTo(t.left, rest, FlagsTo(t.right, Off, tail))
    case GoRight(rest) => [true] + FlagsTo(t.left, Off, FlagsTo(t.right, rest, tail))
  }

  /** The hashes of the nodes beside the path, and the leaf itself, before `tail`. */
  function HashesTo(t: Tree, path: Path, hash: Bytes -> Bytes, tail: seq<Bytes>): seq<Bytes>
    requires ValidPath(t, path)
    decreases t
  {
    match path
    case Off => [Hash(t, hash)] + tail
    case Here => [t.id] + tail
    case Down(rest) => HashesTo(t.only, rest, hash, tail)
    case GoLeft(rest) => HashesTo(t.left, rest, hash, HashesTo(t.right, Off, hash, tail))
    case GoRight(rest) => HashesTo(t.left, Off, hash, HashesTo(t.right, rest, hash, tail))
  }

  /** No two siblings on the path hash alike. */
  predicate PathDistinct(t: Tree, path: Path, hash: Bytes -> Bytes)
    requires ValidPath(t, path)
  {
    match path
    case Off => true
    case Here => true
    case Down(rest) => PathDistinct(t.only, rest, hash)
    case GoLeft(rest) => Hash(t.left, hash) != Hash(t.right, hash) && PathDistinct(t.left, rest, hash)
    case GoRight(rest) => Hash(t.left, hash) != Hash(t.right, hash) && PathDistinct(t.right, rest, hash)
  }

  /** What walking a built proof yields: the subtree's hash and, on the path, the leaf as the only
      match, unless two siblings on the path hash alike. */
  function Built(t: Tree, path: Path, flags: seq<bool>, hashes: seq<Bytes>, hash: Bytes -> Bytes): Walked
    requires ValidPath(t, path)
  {
    if !PathDistinct(t, path, hash) then Fail
    else Walked(Hash(t, hash), flags, hashes, if path.Off? then [] else [IdAt(t, path)])
  }

  lemma {:induction false} WalkBuilt(t: Tree, path: Path, flags: seq<bool>, hashes: seq<Bytes>, hash: Bytes -> Bytes)
    requires ValidPath(t, path)
    ensures Walk(Erase(t), FlagsTo(t, path, flags), HashesTo(t, path, hash, hashes), hash) ==
            Built(t, path, flags, hashes, hash)
    decreases t
  {
    match path
    case Off =>
      assert FlagsTo(t, path, flags)[1..] == flags && HashesTo(t, path, hash, hashes)[1..] == hashes;
    case Here =>
      assert FlagsTo(t, path, flags)[1..] == flags && HashesTo(t, path, hash, hashes)[1..] == hashes;
    case Down(rest) =>
      WalkBuilt(t.only, rest, flags, hashes, hash);
      assert FlagsTo(t, path, flags)[1..] == FlagsTo(t.only, rest, flags);
    case GoLeft(rest) =>
      WalkBuilt(t.left, rest, FlagsTo(t.right, Off, flags), HashesTo(t.right, Off, hash, hashes), hash);
      WalkBuilt(t.right, Off, flags, hashes, hash);
      assert FlagsTo(t, path, flags)[1..] == FlagsTo(t.left, rest, FlagsTo(t.right, Off, flags));
      assert [IdAt(t, path)] + [] == [IdAt(t, path)];
    case GoRight(rest) =>
      WalkBuilt(t.left, Off, FlagsTo(t.right, rest, flags), HashesTo(t.right, rest, hash, hashes), hash);
      WalkBuilt(t.right, rest, flags, hashes, hash);
      assert FlagsTo(t, path, flags)[1..] == FlagsTo(t.left, Off, FlagsTo(t.right, rest, flags));
      assert [] + [IdAt(t, path)] == [IdAt(t, path)];
  }

  function Depth(t: Tree): nat
  {
    match t
    case Leaf(_) => 0
    case One(only) => 1 + Depth(only)
    case Two(left, right) => 1 + (if Depth(left) <= Depth(right) then Depth(right) else Depth(left))
  }

  /** A proof for one leaf needs at most two flags and one hash per level. */
  lemma {:induction false} ProofSize(t: Tree, path: Path, flags: seq<bool>, hashes: seq<Bytes>, hash: Bytes -> Bytes)
    requires ValidPath(t, path)
    ensures |flags| < |FlagsTo(t, path, flags)| <= |flags| + (if path.Off? then 1 else 2 * Depth(t) + 1)
    ensures |hashes| < |HashesTo(t, path, hash, hashes)| <= |hashes| + (if path.Off? then 1 else Depth(t) + 1)
    decreases t
  {
    match path
    case Off =>
    case Here =>
    case Down(rest) => ProofSize(t.only, rest, flags, hashes, hash);
    case GoLeft(rest) =>
      ProofSize(t.right, Off, flags, hashes, hash);
      ProofSize(t.left, rest, FlagsTo(t.right, Off, flags), HashesTo(t.right, Off, hash, hashes), hash);
    case GoRight(rest) =>
      ProofSize(t.right, rest, flags, hashes, hash);
      ProofSize(t.left, Off, FlagsTo(t.right, rest, flags), HashesTo(t.right, rest, hash, hashes), hash);
  }

  lemma {:induction false} TreeDepth(leaves: seq<Bytes>, level: nat, position: nat)
    requires position < Width(|leaves|, level)
    ensures Depth(TreeAt(leaves, level, position)) <= level
    decreases level
  {
    if level > 0 {
      TreeDepth(leaves, level - 1, 2 * position);
      if 2 * position + 1 < Width(|leaves|, level - 1) {
        TreeDepth(leaves, level - 1, 2 * position + 1);
      }
    }
  }

  lemma {:induction false} HeightBound(total: nat)
    requires total >= 1
    ensures Height(total) <= total - 1
  {
    if total > 1 { HeightBound((total + 1) / 2); }
  }

  lemma {:induction false} HashesToDigests(t: Tree, path: Path, hash: Bytes -> Bytes, tail: seq<Bytes>)
    requires ValidPath(t, path) && Digests(Ids(t)) && DigestSized(hash) && Digests(tail)
    ensures Digests(HashesTo(t, path, hash, tail))
    decreases t
  {
    TreeDigest(t, hash);
    if t.Two? { ChildDigests(Ids(t.left), Ids(t.right)); }
    match path
    case Off =>
    case Here =>
    case Down(rest) => HashesToDigests(t.only, rest, hash, tail);
    case GoLeft(rest) =>
      HashesToDigests(t.right, Off, hash, tail);
      HashesToDigests(t.left, rest, hash, HashesTo(t.right, Off, hash, tail));
    case GoRight(rest) =>
      HashesToDigests(t.right, rest, hash, tail);
      HashesToDigests(t.left, Off, hash, HashesTo(t.right, rest, hash, tail));
  }
}

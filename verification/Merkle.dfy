/** The transaction Merkle root: the level-by-level loop, and the tree it stands for.
    `H` is the hash of two concatenated hashes. */
module Merkle {

  function Padded<T>(hs: seq<T>): seq<T> {
    if |hs| % 2 == 1 then hs + [hs[|hs| - 1]] else hs
  }

  function Pairs<T>(H: (T, T) -> T, hs: seq<T>): (r: seq<T>)
    requires |hs| % 2 == 0
    ensures |r| == |hs| / 2
  {
    seq(|hs| / 2, n requires 0 <= n < |hs| / 2 => H(hs[2 * n], hs[2 * n + 1]))
  }

  /** One round of the loop. */
  function Level<T>(H: (T, T) -> T, hs: seq<T>): (r: seq<T>)
    ensures |r| == (|hs| + 1) / 2
  {
    Pairs(H, Padded(hs))
  }

  function Rounds(n: nat): nat {
    if n <= 1 then 0 else 1 + Rounds((n + 1) / 2)
  }

  function Pow2(d: nat): (r: nat)
    ensures r >= 1
  {
    if d == 0 then 1 else 2 * Pow2(d - 1)
  }

  /** The loop runs for the rounded-up binary logarithm of the number of transactions. */
  lemma {:induction false} RoundsIsLog(n: nat)
    requires n >= 1
    ensures n <= Pow2(Rounds(n)) && (n > 1 ==> Pow2(Rounds(n) - 1) < n)
  {
    if n > 1 {
      RoundsIsLog((n + 1) / 2);
    }
  }

  /** The tree of depth d: the left half of the leaves under one child, the rest under the other; a missing
      right child is a copy of the left one. */
  function Tree<T>(H: (T, T) -> T, d: nat, hs: seq<T>): T
    requires 1 <= |hs| <= Pow2(d)
  {
    if d == 0 then hs[0]
    else
      var half := Pow2(d - 1);
      if |hs| <= half then
        var t := Tree(H, d - 1, hs);
        H(t, t)
      else
        H(Tree(H, d - 1, hs[..half]), Tree(H, d - 1, hs[half..]))
  }

  lemma PowIsEven(d: nat)
    requires d > 0
    ensures Pow2(d) % 2 == 0 && Pow2(d) / 2 == Pow2(d - 1)
  {
  }

  lemma PairsSplit<T>(H: (T, T) -> T, left: seq<T>, right: seq<T>)
    requires |left| % 2 == 0 && |right| % 2 == 0
    ensures Pairs(H, left + right) == Pairs(H, left) + Pairs(H, right)
  {
    var all := left + right;
    forall n | 0 <= n < |all| / 2
      ensures Pairs(H, all)[n] == (Pairs(H, left) + Pairs(H, right))[n]
    {
      var k := n - |left| / 2;
      assert n < |left| / 2 || (all[2 * n] == right[2 * k] && all[2 * n + 1] == right[2 * k + 1]);
    }
  }

  lemma LevelSplits<T>(H: (T, T) -> T, left: seq<T>, right: seq<T>)
    requires |left| % 2 == 0
    ensures Level(H, left + right) == Level(H, left) + Level(H, right)
  {
    hide Pairs;
    assert Padded(left + right) == left + Padded(right);
    PairsSplit(H, left, Padded(right));
  }

  lemma LevelOfOneOrTwo<T>(H: (T, T) -> T, hs: seq<T>)
    requires 1 <= |hs| <= 2
    ensures Level(H, hs)[0] == H(hs[0], hs[|hs| - 1])
  {
  }

  lemma TreeOfHalves<T>(H: (T, T) -> T, d: nat, left: seq<T>, right: seq<T>)
    requires d > 0 && |left| == Pow2(d - 1) && 1 <= |right| <= Pow2(d - 1)
    ensures Tree(H, d, left + right) == H(Tree(H, d - 1, left), Tree(H, d - 1, right))
  {
    assert (left + right)[..Pow2(d - 1)] == left && (left + right)[Pow2(d - 1)..] == right;
  }

  lemma HalfFits(n: nat, d: nat)
    requires n <= Pow2(d + 1)
    ensures (n + 1) / 2 <= Pow2(d)
  {
  }

  /** Hashing the leaves pairwise removes the bottom row of the tree. */
  lemma {:induction false} LevelLowersTree<T>(H: (T, T) -> T, d: nat, hs: seq<T>)
    requires 1 <= |hs| <= Pow2(d + 1)
    ensures |Level(H, hs)| <= Pow2(d)
    ensures Tree(H, d + 1, hs) == Tree(H, d, Level(H, hs))
  {
    hide Level;
    HalfFits(|hs|, d);
    if d == 0 {
      LevelOfOneOrTwo(H, hs);
    } else if |hs| <= Pow2(d) {
      LevelLowersTree(H, d - 1, hs);
    } else {
      var left, right := hs[..Pow2(d)], hs[Pow2(d)..];
      PowIsEven(d);
      LevelLowersTree(H, d - 1, left);
      LevelLowersTree(H, d - 1, right);
      hide Pow2;
      LevelSplits(H, left, right);
      assert hs == left + right;
      TreeOfHalves(H, d + 1, left, right);
      TreeOfHalves(H, d, Level(H, left), Level(H, right));
    }
  }

  /** The root of the transaction list, as the tree of least depth that holds it. */
  function Root<T>(H: (T, T) -> T, zero: T, txids: seq<T>): T {
    if txids == [] then zero
    else
      RoundsIsLog(|txids|);
      Tree(H, Rounds(|txids|), txids)
  }

  method ComputeMerkleRoot<T>(H: (T, T) -> T, zero: T, txids: seq<T>) returns (root: T, ghost rounds: nat)
    ensures root == Root(H, zero, txids)
    ensures rounds == Rounds(|txids|)
  {
    rounds := 0;
    if txids == [] {
      return zero, 0;
    }
    var hashes := txids;
    hide Pow2;
    hide Level;
    while |hashes| > 1
      invariant |hashes| >= 1 && rounds + Rounds(|hashes|) == Rounds(|txids|)
      invariant Root(H, zero, hashes) == Root(H, zero, txids)
    {
      RootOfLevel(H, zero, hashes);
      LevelIsPaddedPairs(H, hashes);
      if |hashes| % 2 == 1 {
        hashes := hashes + [hashes[|hashes| - 1]];
      }
      hashes := Pairs(H, hashes);
      rounds := rounds + 1;
    }
    root := hashes[0];
  }

  lemma LevelIsPaddedPairs<T>(H: (T, T) -> T, hs: seq<T>)
    ensures |hs| % 2 == 1 ==> Level(H, hs) == Pairs(H, hs + [hs[|hs| - 1]])
    ensures |hs| % 2 == 0 ==> Level(H, hs) == Pairs(H, hs)
  {
  }

  /** A round of the loop keeps the root and uses up one round. */
  lemma RootOfLevel<T>(H: (T, T) -> T, zero: T, hs: seq<T>)
    requires |hs| > 1
    ensures Root(H, zero, Level(H, hs)) == Root(H, zero, hs)
    ensures Rounds(|Level(H, hs)|) == Rounds(|hs|) - 1
  {
    hide Level;
    hide Pow2;
    RoundsIsLog(|hs|);
    LevelLowersTree(H, Rounds(|hs|) - 1, hs);
  }

  // ---- What a root commits to ----

  ghost predicate Injective<T(!new)>(H: (T, T) -> T) {
    forall a, b, c, d :: H(a, b) == H(c, d) ==> a == c && b == d
  }

  /** The bottom row of the full tree, copies included. */
  function Leaves<T>(d: nat, hs: seq<T>): (r: seq<T>)
    requires 1 <= |hs| <= Pow2(d)
    ensures |r| == Pow2(d) && hs <= r
  {
    if d == 0 then hs
    else
      var half := Pow2(d - 1);
      if |hs| <= half then
        var row := Leaves(d - 1, hs);
        row + row
      else
        var left, right := Leaves(d - 1, hs[..half]), Leaves(d - 1, hs[half..]);
        assert left == hs[..half];
        left + right
  }

  /** A tree is the same function of its bottom row at every list. */
  function FullTree<T>(H: (T, T) -> T, d: nat, row: seq<T>): T
    requires |row| == Pow2(d)
  {
    if d == 0 then row[0]
    else H(FullTree(H, d - 1, row[..Pow2(d - 1)]), FullTree(H, d - 1, row[Pow2(d - 1)..]))
  }

  lemma FullTreeOfHalves<T>(H: (T, T) -> T, d: nat, left: seq<T>, right: seq<T>)
    requires d > 0 && |left| == |right| == Pow2(d - 1)
    ensures |left + right| == Pow2(d)
    ensures FullTree(H, d, left + right) == H(FullTree(H, d - 1, left), FullTree(H, d - 1, right))
  {
    assert (left + right)[..Pow2(d - 1)] == left && (left + right)[Pow2(d - 1)..] == right;
  }

  lemma {:induction false} TreeIsFullTree<T>(H: (T, T) -> T, d: nat, hs: seq<T>)
    requires 1 <= |hs| <= Pow2(d)
    ensures Tree(H, d, hs) == FullTree(H, d, Leaves(d, hs))
  {
    hide FullTree;
    if d == 0 {
      FullTreeOfOne(H, hs);
    } else {
      var half := Pow2(d - 1);
      if |hs| <= half {
        TreeIsFullTree(H, d - 1, hs);
        FullTreeOfHalves(H, d, Leaves(d - 1, hs), Leaves(d - 1, hs));
      } else {
        TreeIsFullTree(H, d - 1, hs[..half]);
        TreeIsFullTree(H, d - 1, hs[half..]);
        FullTreeOfHalves(H, d, Leaves(d - 1, hs[..half]), Leaves(d - 1, hs[half..]));
      }
    }
  }

  lemma FullTreeOfOne<T>(H: (T, T) -> T, row: seq<T>)
    requires |row| == 1
    ensures FullTree(H, 0, row) == row[0]
  {
  }

  lemma {:induction false} FullTreeIsInjective<T(!new)>(H: (T, T) -> T, d: nat, xs: seq<T>, ys: seq<T>)
    requires Injective(H) && |xs| == |ys| == Pow2(d)
    requires FullTree(H, d, xs) == FullTree(H, d, ys)
    ensures xs == ys
  {
    if d > 0 {
      var half := Pow2(d - 1);
      FullTreeIsInjective(H, d - 1, xs[..half], ys[..half]);
      FullTreeIsInjective(H, d - 1, xs[half..], ys[half..]);
      assert xs == xs[..half] + xs[half..] && ys == ys[..half] + ys[half..];
    }
  }

  lemma SameDepthIff<T(!new)>(H: (T, T) -> T, zero: T, xs: seq<T>, ys: seq<T>)
    requires Injective(H) && xs != [] && ys != [] && Rounds(|xs|) == Rounds(|ys|)
    requires |xs| <= Pow2(Rounds(|xs|)) && |ys| <= Pow2(Rounds(|ys|))
    ensures Root(H, zero, xs) == Root(H, zero, ys) <==> Leaves(Rounds(|xs|), xs) == Leaves(Rounds(|ys|), ys)
  {
    var d := Rounds(|xs|);
    TreeIsFullTree(H, d, xs);
    TreeIsFullTree(H, d, ys);
    if Root(H, zero, xs) == Root(H, zero, ys) {
      FullTreeIsInjective(H, d, Leaves(d, xs), Leaves(d, ys));
    }
  }

  /** The list after k rounds of the loop. */
  function Rise<T>(H: (T, T) -> T, hs: seq<T>, k: nat): seq<T>
    decreases k
  {
    if k == 0 then hs else Rise(H, Level(H, hs), k - 1)
  }

  lemma {:induction false} RiseKeepsRoot<T>(H: (T, T) -> T, zero: T, hs: seq<T>, k: nat)
    requires hs != [] && k <= Rounds(|hs|)
    ensures Rise(H, hs, k) != [] && Rounds(|Rise(H, hs, k)|) == Rounds(|hs|) - k
    ensures Root(H, zero, Rise(H, hs, k)) == Root(H, zero, hs)
    decreases k
  {
    hide Root;
    if k > 0 {
      RootOfLevel(H, zero, hs);
      hide Level;
      RiseKeepsRoot(H, zero, Level(H, hs), k - 1);
    }
  }

  function Least(a: nat, b: nat): nat {
    if a <= b then a else b
  }

  lemma RisenFits<T>(H: (T, T) -> T, zero: T, hs: seq<T>, d: nat)
    requires hs != [] && d <= Rounds(|hs|)
    ensures
      var row := Rise(H, hs, Rounds(|hs|) - d);
      row != [] && Rounds(|row|) == d && |row| <= Pow2(d) && Root(H, zero, row) == Root(H, zero, hs)
  {
    hide Root;
    hide Pow2;
    RiseKeepsRoot(H, zero, hs, Rounds(|hs|) - d);
    RoundsIsLog(|Rise(H, hs, Rounds(|hs|) - d)|);
  }

  /** The full row at depth d of the tree over a list: Rounds(|hs|) - d levels above its leaves. */
  ghost function RowAt<T>(H: (T, T) -> T, hs: seq<T>, d: nat): seq<T>
    requires hs != [] && d <= Rounds(|hs|)
  {
    RisenFits(H, hs[0], hs, d);
    Leaves(d, Rise(H, hs, Rounds(|hs|) - d))
  }

  /** With an injective pair hash, two nonempty lists of any lengths have the same root if and only if their
      trees have the same full row at the depth of the shallower one. */
  lemma {:induction false} SameRootIff<T(!new)>(H: (T, T) -> T, zero: T, xs: seq<T>, ys: seq<T>)
    requires Injective(H) && xs != [] && ys != []
    ensures
      var d := Least(Rounds(|xs|), Rounds(|ys|));
      Root(H, zero, xs) == Root(H, zero, ys) <==> RowAt(H, xs, d) == RowAt(H, ys, d)
  {
    hide Root;
    hide Pow2;
    hide Leaves;
    hide Rise;
    hide Rounds;
    hide Injective;
    var d := Least(Rounds(|xs|), Rounds(|ys|));
    RisenFits(H, zero, xs, d);
    RisenFits(H, zero, ys, d);
    SameDepthIff(H, zero, Rise(H, xs, Rounds(|xs|) - d), Rise(H, ys, Rounds(|ys|) - d));
  }

  /** A leaf is not told from a pair: a list of two has the root of the list of their pair hash, and in
      general every list of more than one has the root of its next level. */
  lemma PairHasRootOfLeaf<T>(H: (T, T) -> T, zero: T, a: T, b: T)
    ensures Root(H, zero, [a, b]) == Root(H, zero, [H(a, b)])
  {
    RootOfLevel(H, zero, [a, b]);
    LevelOfOneOrTwo(H, [a, b]);
    assert Level(H, [a, b]) == [H(a, b)];
  }

  /** Lists of the same length with the same root are the same list. */
  lemma RootCommitsToList<T(!new)>(H: (T, T) -> T, zero: T, xs: seq<T>, ys: seq<T>)
    requires Injective(H) && |xs| == |ys| && Root(H, zero, xs) == Root(H, zero, ys)
    ensures xs == ys
  {
    if xs != [] {
      RoundsIsLog(|xs|);
      SameDepthIff(H, zero, xs, ys);
      assert xs == Leaves(Rounds(|xs|), xs)[..|xs|];
      assert ys == Leaves(Rounds(|ys|), ys)[..|ys|];
    }
  }

  /** The length matters: an odd list of more than one entry has the root of itself with its last entry repeated. */
  lemma RepeatedLastHasSameRoot<T>(H: (T, T) -> T, zero: T, xs: seq<T>)
    requires |xs| > 1 && |xs| % 2 == 1
    ensures Root(H, zero, xs + [xs[|xs| - 1]]) == Root(H, zero, xs)
  {
    var ys := xs + [xs[|xs| - 1]];
    LevelIsPaddedPairs(H, xs);
    LevelIsPaddedPairs(H, ys);
    RootOfLevel(H, zero, xs);
    RootOfLevel(H, zero, ys);
  }
}

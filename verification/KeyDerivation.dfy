/** Hierarchical key derivation over 256-bit integers. The keyed hash and the public point of a private key
    are parameters. */
module KeyDerivation {
  import opened Basics
  import opened DerivationPath

  /** The order of the secp256k1 group. */
  const ORDER: nat := 0xFFFF_FFFF_FFFF_FFFF_FFFF_FFFF_FFFF_FFFE_BAAE_DCE6_AF48_A03B_BFD2_5E8C_D036_4141

  /** What is hashed: the parent key itself for a hardened child, its public point otherwise. */
  datatype Data = HardenedData(key: nat, index: nat) | NormalData(point: nat, index: nat)

  datatype Crypto = Crypto(hmac: (nat, Data) -> (nat, nat), point: nat -> nat)

  datatype Node = Node(key: nat, chain: nat)

  predicate IsPrivateKey(key: nat) {
    0 < key < ORDER
  }

  function Hashed(c: Crypto, node: Node, index: nat): (nat, nat) {
    var data := if index >= HARDENED then HardenedData(node.key, index) else NormalData(c.point(node.key), index);
    c.hmac(node.chain, data)
  }

  function DeriveChild(c: Crypto, node: Node, index: nat): Option<Node> {
    if index < HARDENED && !IsPrivateKey(node.key) then None
    else
      var (left, right) := Hashed(c, node, index);
      Some(Node((node.key % ORDER + left % ORDER) % ORDER, right))
  }

  /** The node reached by following a path. */
  function DeriveNode(c: Crypto, node: Node, path: seq<nat>): Option<Node>
    decreases |path|
  {
    if path == [] then Some(node)
    else
      match DeriveChild(c, node, path[0])
      case None => None
      case Some(child) => DeriveNode(c, child, path[1..])
  }

  function DerivePath(c: Crypto, master: Node, path: seq<nat>): Option<nat> {
    match DeriveNode(c, master, path)
    case None => None
    case Some(node) => if IsPrivateKey(node.key) then Some(node.key) else None
  }

  method DeriveInLoop(c: Crypto, master: Node, path: seq<nat>) returns (key: Option<nat>)
    ensures key == DerivePath(c, master, path)
  {
    var node := master;
    for n := 0 to |path|
      invariant DeriveNode(c, node, path[n..]) == DeriveNode(c, master, path)
    {
      assert path[n..][1..] == path[n + 1..];
      var child := DeriveChild(c, node, path[n]);
      if child.None? {
        return None;
      }
      node := child.value;
    }
    return if IsPrivateKey(node.key) then Some(node.key) else None;
  }

  // ---- The same walk without the refusals ----

  function Child(c: Crypto, node: Node, index: nat): Node {
    var (left, right) := Hashed(c, node, index);
    Node((node.key + left) % ORDER, right)
  }

  function Walk(c: Crypto, node: Node, path: seq<nat>): Node
    decreases |path|
  {
    if path == [] then node else Walk(c, Child(c, node, path[0]), path[1..])
  }

  /** The sum of the left halves of the hashes along the path. */
  function LeftHalves(c: Crypto, node: Node, path: seq<nat>): nat
    decreases |path|
  {
    if path == [] then 0
    else Hashed(c, node, path[0]).0 + LeftHalves(c, Child(c, node, path[0]), path[1..])
  }

  lemma ReducedSum(a: nat, b: nat)
    ensures (a % ORDER + b % ORDER) % ORDER == (a + b) % ORDER
    ensures ((a % ORDER) + b) % ORDER == (a + b) % ORDER
  {
  }

  /** A nonempty path reaches the starting key plus the left halves along it, reduced by the group order. */
  lemma {:induction false} WalkAddsUp(c: Crypto, node: Node, path: seq<nat>)
    requires path != []
    ensures Walk(c, node, path).key == (node.key + LeftHalves(c, node, path)) % ORDER
    decreases |path|
  {
    var child := Child(c, node, path[0]);
    var left := Hashed(c, node, path[0]).0;
    if |path| == 1 {
      assert path[1..] == [];
    } else {
      WalkAddsUp(c, child, path[1..]);
      ReducedSum(node.key + left, LeftHalves(c, child, path[1..]));
    }
  }

  /** Whether the walk gets past its n-th step: a normal child needs a usable private key above it. */
  predicate StepAllowed(c: Crypto, node: Node, path: seq<nat>, n: nat)
    requires n < |path|
  {
    path[n] >= HARDENED || IsPrivateKey(Walk(c, node, path[..n]).key)
  }

  lemma WalkStep(c: Crypto, node: Node, path: seq<nat>, n: nat)
    requires 0 < n < |path|
    ensures StepAllowed(c, node, path, n) == StepAllowed(c, Child(c, node, path[0]), path[1..], n - 1)
  {
    assert path[..n][1..] == path[1..][..n - 1];
  }

  /** Derivation follows the walk, and is refused exactly when some step of it is not allowed. */
  lemma {:induction false} DeriveFollowsWalk(c: Crypto, node: Node, path: seq<nat>)
    ensures DeriveNode(c, node, path).Some? <==> forall n :: 0 <= n < |path| ==> StepAllowed(c, node, path, n)
    ensures DeriveNode(c, node, path).Some? ==> DeriveNode(c, node, path).value == Walk(c, node, path)
    decreases |path|
  {
    if path != [] {
      var child := Child(c, node, path[0]);
      ReducedSum(node.key, Hashed(c, node, path[0]).0);
      DeriveFollowsWalk(c, child, path[1..]);
      hide Hashed;
      assert path[..0] == [];
      assert StepAllowed(c, node, path, 0) == DeriveChild(c, node, path[0]).Some?;
      forall n | 0 < n < |path|
        ensures StepAllowed(c, node, path, n) == StepAllowed(c, child, path[1..], n - 1)
      {
        WalkStep(c, node, path, n);
      }
      if forall n :: 0 <= n < |path| ==> StepAllowed(c, node, path, n) {
        forall n | 0 <= n < |path[1..]|
          ensures StepAllowed(c, child, path[1..], n)
        {
          assert StepAllowed(c, node, path, n + 1);
        }
      }
    }
  }

  /** The key of every derivation that succeeds along a nonempty path, and exactly when it succeeds. */
  lemma DerivedKey(c: Crypto, master: Node, path: seq<nat>)
    requires path != []
    ensures var sum := (master.key + LeftHalves(c, master, path)) % ORDER;
            && (DerivePath(c, master, path).Some? <==>
                  sum != 0 && forall n :: 0 <= n < |path| ==> StepAllowed(c, master, path, n))
            && (DerivePath(c, master, path).Some? ==> DerivePath(c, master, path).value == sum < ORDER)
  {
    DeriveFollowsWalk(c, master, path);
    WalkAddsUp(c, master, path);
  }

  /** Deriving along p and then q is deriving along q from the node p reached. */
  lemma {:induction false} DeriveComposes(c: Crypto, node: Node, p: seq<nat>, q: seq<nat>)
    ensures DeriveNode(c, node, p + q) ==
            match DeriveNode(c, node, p)
            case None => None
            case Some(reached) => DeriveNode(c, reached, q)
    decreases |p|
  {
    if p == [] {
      assert p + q == q;
    } else {
      assert (p + q)[1..] == p[1..] + q;
      var child := DeriveChild(c, node, p[0]);
      if child.Some? {
        DeriveComposes(c, child.value, p[1..], q);
      }
    }
  }

  // ---- What is hashed ----

  ghost predicate SameHardened(c: Crypto, d: Crypto) {
    forall chain, key, index :: c.hmac(chain, HardenedData(key, index)) == d.hmac(chain, HardenedData(key, index))
  }

  ghost predicate SameNormal(c: Crypto, d: Crypto) {
    && (forall key :: c.point(key) == d.point(key))
    && forall chain, point, index :: c.hmac(chain, NormalData(point, index)) == d.hmac(chain, NormalData(point, index))
  }

  /** Along a hardened path only private keys are hashed: neither public points nor what is hashed of them can
      change the node that is reached. */
  lemma {:induction false} HardenedHashesKeys(c: Crypto, d: Crypto, node: Node, path: seq<nat>)
    requires SameHardened(c, d) && forall n :: 0 <= n < |path| ==> path[n] >= 0x8000_0000
    ensures DeriveNode(c, node, path) == DeriveNode(d, node, path)
    decreases |path|
  {
    if path != [] {
      var child := DeriveChild(c, node, path[0]);
      assert child == DeriveChild(d, node, path[0]);
      if child.Some? {
        HardenedHashesKeys(c, d, child.value, path[1..]);
      }
    }
  }

  /** Along a normal path only public points are hashed. */
  lemma {:induction false} NormalHashesPoints(c: Crypto, d: Crypto, node: Node, path: seq<nat>)
    requires SameNormal(c, d) && forall n :: 0 <= n < |path| ==> path[n] < 0x8000_0000
    ensures DeriveNode(c, node, path) == DeriveNode(d, node, path)
    decreases |path|
  {
    if path != [] {
      var child := DeriveChild(c, node, path[0]);
      assert child == DeriveChild(d, node, path[0]);
      if child.Some? {
        NormalHashesPoints(c, d, child.value, path[1..]);
      }
    }
  }

  /** One derivation step. With `DeriveComposes` it determines every path. */
  lemma OneStep(c: Crypto, node: Node, index: nat)
    ensures
      var (left, right) := if index >= 0x8000_0000 then c.hmac(node.chain, HardenedData(node.key, index))
                           else c.hmac(node.chain, NormalData(c.point(node.key), index));
      var refused := index < 0x8000_0000 && !(0 < node.key < ORDER);
      var sum := (node.key + left) % ORDER;
      && DeriveNode(c, node, [index]) == (if refused then None else Some(Node(sum, right)))
      && DerivePath(c, node, [index]) == (if refused || sum == 0 then None else Some(sum))
      && DerivePath(c, node, []) == (if 0 < node.key < ORDER then Some(node.key) else None)
  {
    ReducedSum(node.key, Hashed(c, node, index).0);
    assert [index][1..] == [];
  }
}

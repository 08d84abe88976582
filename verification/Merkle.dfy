/**
 The sorted-pair Merkle tree: src/utils/merkle.cpp and src/utils/merkle.h. The hash
 function is a parameter; where a property needs it to be free of collisions, that
 is asked only of the byte strings the trees and proofs at hand really hash.
 */
module Merkle {
  import opened Outcomes
  import opened Words

  /* Sorted pairs */

  // operator< of FixedBytes.
  predicate Less(a: Bytes, b: Bytes) {
    b != [] && (a == [] || a[0] < b[0] || (a[0] == b[0] && Less(a[1..], b[1..])))
  }

  lemma {:induction false} LessIsTotal(a: Bytes, b: Bytes)
    ensures !(Less(a, b) && Less(b, a))
    ensures !Less(a, b) && !Less(b, a) ==> a == b
  {
    if a != [] && b != [] && a[0] == b[0] {
      LessIsTotal(a[1..], b[1..]);
      assert a == [a[0]] + a[1..] && b == [b[0]] + b[1..];
    }
  }

  function Min(a: Hash, b: Hash): Hash {
    if Less(b, a) then b else a
  }

  function Max(a: Hash, b: Hash): Hash {
    if Less(a, b) then b else a
  }

  // The 64 bytes hashed for a pair of nodes.
  function Join(a: Hash, b: Hash): (j: Bytes)
    ensures |j| == 64
  {
    Min(a, b) + Max(a, b)
  }

  // A pair is known from its joined bytes up to order, and no further.
  lemma JoinIsUnorderedPair(a: Hash, b: Hash, c: Hash, d: Hash)
    ensures Join(a, b) == Join(c, d) <==> (a == c && b == d) || (a == d && b == c)
  {
    LessIsTotal(a, b);
    LessIsTotal(c, d);
    assert Join(a, b)[..32] == Min(a, b) && Join(a, b)[32..] == Max(a, b);
    assert Join(c, d)[..32] == Min(c, d) && Join(c, d)[32..] == Max(c, d);
  }

  // The smaller of the two as a number comes first.
  lemma JoinIsSorted(a: Hash, b: Hash)
    ensures Join(a, b) == if BE(a) <= BE(b) then a + b else b + a
  {
    LessByValue(a, b);
    LessByValue(b, a);
    LessIsTotal(a, b);
    hide Less, BE;
  }

  lemma {:induction false} LessByValue(a: Bytes, b: Bytes)
    requires |a| == |b|
    ensures Less(a, b) <==> BE(a) < BE(b)
  {
    if a != [] {
      LessByValue(a[1..], b[1..]);
      FirstDigit(a);
      FirstDigit(b);
      DigitDecides(a[0], b[0], Pow256(|a| - 1), BE(a[1..]), BE(b[1..]));
    }
  }

  lemma FirstDigit(a: Bytes)
    requires a != []
    ensures BE(a) == a[0] * Pow256(|a| - 1) + BE(a[1..]) && BE(a[1..]) < Pow256(|a| - 1)
  {
    assert a == a[..1] + a[1..];
    assert a[..1][..0] == [];
    assert BE(a[..1]) == a[0];
    BEConcat(a[..1], a[1..]);
    BEBound(a[1..]);
  }

  lemma DigitDecides(x: nat, y: nat, p: nat, u: nat, v: nat)
    requires u < p && v < p
    ensures x * p + u < y * p + v <==> x < y || (x == y && u < v)
  {
    if x < y {
      assert (x + 1) * p <= y * p;
    } else if y < x {
      assert (y + 1) * p <= x * p;
    }
  }

  /* Layers and proofs: specification */

  function Layer(sha3: Bytes -> Hash, s: seq<Hash>): (r: seq<Hash>)
    ensures |r| == (|s| + 1) / 2
  {
    seq((|s| + 1) / 2, i requires 0 <= i < (|s| + 1) / 2 =>
      if 2 * i + 1 < |s| then sha3(Join(s[2 * i], s[2 * i + 1])) else s[2 * i])
  }

  function Layers(sha3: Bytes -> Hash, s: seq<Hash>): (r: seq<seq<Hash>>)
    ensures r != [] && r[0] == s && |r[|r| - 1]| <= 1
    decreases |s|
  {
    if |s| <= 1 then [s] else [s] + Layers(sha3, Layer(sha3, s))
  }

  lemma LayersUnfold(sha3: Bytes -> Hash, s: seq<Hash>)
    ensures Layers(sha3, s) == [s] + Layers(sha3, s)[1..]
    ensures Layers(sha3, s)[1..] == if |s| <= 1 then [] else Layers(sha3, Layer(sha3, s))
  {
  }

  // Three leaves: the third waits for the pair of the first two.
  lemma RootOfThree(sha3: Bytes -> Hash, a: Hash, b: Hash, d: Hash)
    ensures RootOf(Layers(sha3, [a, b, d])) == sha3(Join(sha3(Join(a, b)), d))
  {
    hide Join;
    var pair, root := sha3(Join(a, b)), sha3(Join(sha3(Join(a, b)), d));
    assert Layer(sha3, [a, b, d]) == [pair, d];
    assert Layer(sha3, [pair, d]) == [root];
    assert Layers(sha3, [root]) == [[root]];
    assert Layers(sha3, [pair, d]) == [[pair, d]] + [[root]];
    assert Layers(sha3, [a, b, d]) == [[a, b, d]] + ([[pair, d]] + [[root]]);
  }

  function RootOf(layers: seq<seq<Hash>>): Hash
    requires layers != []
  {
    var last := layers[|layers| - 1];
    if last == [] then ZERO_HASH else last[0]
  }

  function Sibling(pos: nat): nat {
    if pos % 2 == 0 then pos + 1 else pos - 1
  }

  function Proof(layers: seq<seq<Hash>>, pos: nat): Outcome<seq<Hash>> {
    if layers == [] || |layers[0]| == 1 then Ok([])
    else if Sibling(pos) >= |layers[0]| then Undefined
    else
      var rest :- Proof(layers[1..], Sibling(pos) / 2);
      Ok([layers[0][Sibling(pos)]] + rest)
  }

  function Fold(sha3: Bytes -> Hash, proof: seq<Hash>, leaf: Hash): Hash {
    if proof == [] then leaf else Fold(sha3, proof[1..], sha3(Join(leaf, proof[0])))
  }

  // The layers built so far: what is missing are those above the last one.
  predicate Built(sha3: Bytes -> Hash, s: seq<Hash>, tree: seq<seq<Hash>>) {
    tree != [] && Layers(sha3, s) == tree + Layers(sha3, tree[|tree| - 1])[1..]
  }

  lemma BuiltFirst(sha3: Bytes -> Hash, s: seq<Hash>)
    ensures Built(sha3, s, [s])
  {
    LayersUnfold(sha3, s);
  }

  lemma BuiltNext(sha3: Bytes -> Hash, s: seq<Hash>, tree: seq<seq<Hash>>)
    requires Built(sha3, s, tree) && |tree[|tree| - 1]| > 1
    ensures Built(sha3, s, tree + [Layer(sha3, tree[|tree| - 1])])
    ensures |Layer(sha3, tree[|tree| - 1])| < |tree[|tree| - 1]|
  {
    hide Layers, Layer;
    var layer := Layer(sha3, tree[|tree| - 1]);
    LayersUnfold(sha3, tree[|tree| - 1]);
    LayersUnfold(sha3, layer);
    assert tree + ([layer] + Layers(sha3, layer)[1..]) == tree + [layer] + Layers(sha3, layer)[1..];
  }

  lemma BuiltAll(sha3: Bytes -> Hash, s: seq<Hash>, tree: seq<seq<Hash>>)
    requires Built(sha3, s, tree) && |tree[|tree| - 1]| <= 1
    ensures tree == Layers(sha3, s)
  {
    LayersUnfold(sha3, tree[|tree| - 1]);
  }

  /* The class */

  class Merkle {
    const sha3: Bytes -> Hash
    var tree: seq<seq<Hash>>

    // The template constructor hashes tx.hash() where this one hashes a leaf.
    constructor (sha3: Bytes -> Hash, leaves: seq<Hash>)
      ensures this.sha3 == sha3
      ensures tree == Layers(sha3, LeafHashes(sha3, leaves))
    {
      hide Layer, Layers, LeafHashes, Built;
      var tmp := HashEach(sha3, leaves);
      this.sha3 := sha3;
      tree := [tmp];
      new;
      BuiltFirst(sha3, tmp);
      while |tree[|tree| - 1]| > 1
        invariant tree != [] && Built(sha3, tmp, tree)
        decreases |tree[|tree| - 1]|
      {
        var layer := NewLayer(tree[|tree| - 1]);
        BuiltNext(sha3, tmp, tree);
        tree := tree + [layer];
      }
      BuiltAll(sha3, tmp, tree);
    }

    static method HashEach(sha3: Bytes -> Hash, leaves: seq<Hash>) returns (tmp: seq<Hash>)
      ensures tmp == LeafHashes(sha3, leaves)
    {
      tmp := [];
      for i := 0 to |leaves|
        invariant tmp == LeafHashes(sha3, leaves)[..i]
      {
        tmp := tmp + [sha3(leaves[i])];
      }
    }

    method NewLayer(layer: seq<Hash>) returns (ret: seq<Hash>)
      ensures ret == Layer(sha3, layer)
    {
      ret := [];
      var i := 0;
      while i < |layer|
        invariant 0 <= i <= |layer| + 1 && i % 2 == 0
        invariant |ret| == i / 2 && |ret| <= |Layer(sha3, layer)|
        invariant ret == Layer(sha3, layer)[..|ret|]
      {
        ret := ret + [if i + 1 < |layer| then sha3(Join(layer[i], layer[i + 1])) else layer[i]];
        i := i + 2;
      }
    }

    method GetProof(leafIndex: nat) returns (r: Outcome<seq<Hash>>)
      requires tree != [] && leafIndex < U64
      ensures r == if tree[0] != [] && leafIndex >= |tree[0]| then Ok([]) else Proof(tree, leafIndex)
    {
      // The unsigned size() - 1 of an empty layer is the largest uint64_t.
      if leafIndex > (if tree[0] == [] then U64 - 1 else |tree[0]| - 1) {
        return Ok([]);
      }
      var ret: seq<Hash> := [];
      var pos: nat := leafIndex;
      var i := 0;
      assert tree[0..] == tree;
      while i < |tree|
        invariant 0 <= i <= |tree|
        invariant Proof(tree, leafIndex) == Continued(ret, Proof(tree[i..], pos))
      {
        if |tree[i]| == 1 {
          break;
        }
        pos := Sibling(pos);
        if pos >= |tree[i]| {
          return Undefined;
        }
        ContinuedStep(ret, tree[i][pos], Proof(tree[i + 1..], pos / 2));
        ret := ret + [tree[i][pos]];
        pos := pos / 2;
        i := i + 1;
      }
      assert ret + [] == ret;
      return Ok(ret);
    }

    static method Verify(sha3: Bytes -> Hash, proof: seq<Hash>, leaf: Hash, root: Hash) returns (b: bool)
      ensures b <==> Fold(sha3, proof, leaf) == root
    {
      var computedHash := leaf;
      for i := 0 to |proof|
        invariant Fold(sha3, proof[i..], computedHash) == Fold(sha3, proof, leaf)
      {
        computedHash := sha3(Join(computedHash, proof[i]));
      }
      return computedHash == root;
    }
  }

  function LeafHashes(sha3: Bytes -> Hash, leaves: seq<Hash>): (r: seq<Hash>)
    ensures |r| == |leaves|
  {
    seq(|leaves|, i requires 0 <= i < |leaves| => sha3(leaves[i]))
  }

  function Continued(ret: seq<Hash>, r: Outcome<seq<Hash>>): Outcome<seq<Hash>> {
    if ret == [] then r
    else
      var rest :- r;
      Ok(ret + rest)
  }

  lemma ContinuedStep(ret: seq<Hash>, h: Hash, r: Outcome<seq<Hash>>)
    ensures Continued(ret, Continued([h], r)) == Continued(ret + [h], r)
  {
    assert [] + [h] == [h];
    if r.Ok? {
      assert ret + ([h] + r.value) == ret + [h] + r.value;
    }
  }

  /* Completeness */

  // The path from index pos of a layer of n nodes has a sibling at every level.
  predicate Paired(pos: nat, n: nat)
    decreases n
  {
    n <= 1 || (Sibling(pos) < n && Paired(pos / 2, (n + 1) / 2))
  }

  // getProof reads a sibling for every level below the root exactly when they all
  // exist, and then the proof verifies.
  lemma {:induction false} ProofCompleteness(sha3: Bytes -> Hash, s: seq<Hash>, pos: nat)
    requires pos < |s|
    ensures Proof(Layers(sha3, s), pos) == Undefined <==> !Paired(pos, |s|)
    ensures Paired(pos, |s|) <==> ProofVerifies(sha3, s, pos)
    decreases |s|
  {
    hide Join, Layer;
    if |s| > 1 {
      var layer := Layer(sha3, s);
      assert Layers(sha3, s)[1..] == Layers(sha3, layer);
      ProofCompleteness(sha3, layer, pos / 2);
      if Sibling(pos) < |s| && Paired(pos / 2, |layer|) {
        PairedStep(sha3, s, pos);
      }
    }
  }

  lemma PairedStep(sha3: Bytes -> Hash, s: seq<Hash>, pos: nat)
    requires |s| > 1 && pos < |s| && Sibling(pos) < |s|
    requires ProofVerifies(sha3, Layer(sha3, s), pos / 2)
    ensures ProofVerifies(sha3, s, pos)
  {
    hide Join, Layer;
    var layer, sib := Layer(sha3, s), s[Sibling(pos)];
    var rest := Proof(Layers(sha3, layer), pos / 2).value;
    var proof := [sib] + rest;
    assert Layers(sha3, s) == [s] + Layers(sha3, layer);
    assert Layers(sha3, s)[1..] == Layers(sha3, layer);
    assert Sibling(pos) / 2 == pos / 2;
    assert Proof(Layers(sha3, s), pos) == Ok(proof);
    NodeAbove(sha3, s, pos);
    assert proof[1..] == rest;
    assert Fold(sha3, proof, s[pos]) == Fold(sha3, rest, layer[pos / 2]);
  }

  lemma NodeAbove(sha3: Bytes -> Hash, s: seq<Hash>, pos: nat)
    requires pos < |s| && Sibling(pos) < |s|
    ensures Layer(sha3, s)[pos / 2] == sha3(Join(s[pos], s[Sibling(pos)]))
  {
    JoinIsUnorderedPair(s[pos], s[Sibling(pos)], s[Sibling(pos)], s[pos]);
  }

  predicate PowerOfTwo(n: nat) {
    n == 1 || (n > 0 && n % 2 == 0 && PowerOfTwo(n / 2))
  }

  predicate AllPaired(n: nat) {
    forall i :: 0 <= i < n ==> Paired(i, n)
  }

  lemma {:induction false} PairedEverywhere(n: nat)
    requires n > 0
    ensures AllPaired(n) <==> PowerOfTwo(n)
  {
    hide Paired;
    if n % 2 == 1 && n > 1 {
      LastIsUnpaired(n);
    } else if n > 1 {
      PairedEverywhere(n / 2);
      if AllPaired(n) {
        forall j | 0 <= j < n / 2
          ensures Paired(j, n / 2)
        {
          assert Paired(2 * j, n);
          PairedHalf(2 * j, n);
        }
      }
      if AllPaired(n / 2) {
        forall i | 0 <= i < n
          ensures Paired(i, n)
        {
          assert Paired(i / 2, n / 2);
          PairedHalf(i, n);
        }
      }
    } else {
      LastIsUnpaired(1);
    }
  }

  lemma PairedHalf(i: nat, n: nat)
    requires i < n && n % 2 == 0
    ensures Paired(i, n) <==> Paired(i / 2, n / 2)
  {
    hide Paired;
    PairedUnfold(i, n);
    assert (n + 1) / 2 == n / 2;
    assert Sibling(i) < n;
  }

  lemma PairedUnfold(pos: nat, n: nat)
    requires n > 1
    ensures Paired(pos, n) <==> Sibling(pos) < n && Paired(pos / 2, (n + 1) / 2)
  {
  }

  lemma LastIsUnpaired(n: nat)
    requires n % 2 == 1
    ensures Paired(n - 1, n) <==> n == 1
  {
  }

  // Every leaf of a tree has a proof that verifies iff their number is a power of two.
  lemma MerkleCompleteness(sha3: Bytes -> Hash, s: seq<Hash>)
    requires s != []
    ensures PowerOfTwo(|s|) <==> forall i :: 0 <= i < |s| ==> ProofVerifies(sha3, s, i)
  {
    PairedEverywhere(|s|);
    forall i | 0 <= i < |s|
      ensures ProofVerifies(sha3, s, i) <==> Paired(i, |s|)
    {
      ProofCompleteness(sha3, s, i);
    }
  }

  predicate ProofVerifies(sha3: Bytes -> Hash, s: seq<Hash>, i: nat)
    requires i < |s|
  {
    var proof := Proof(Layers(sha3, s), i);
    proof.Ok? && Fold(sha3, proof.value, s[i]) == RootOf(Layers(sha3, s))
  }

  /* The tree as a term */

  datatype Term = Leaf(value: Bytes) | Node(left: Term, right: Term)

  function HashOf(sha3: Bytes -> Hash, t: Term): Hash {
    match t
    case Leaf(x) => sha3(x)
    case Node(l, r) => sha3(Join(HashOf(sha3, l), HashOf(sha3, r)))
  }

  function Bag(t: Term): multiset<Bytes> {
    match t
    case Leaf(x) => multiset{x}
    case Node(l, r) => Bag(l) + Bag(r)
  }

  function Bags(ts: seq<Term>): multiset<Bytes> {
    if ts == [] then multiset{} else Bag(ts[0]) + Bags(ts[1..])
  }

  // Every byte string hashed for the term.
  function Preimages(sha3: Bytes -> Hash, t: Term): set<Bytes> {
    match t
    case Leaf(x) => {x}
    case Node(l, r) => {Join(HashOf(sha3, l), HashOf(sha3, r))} + Preimages(sha3, l) + Preimages(sha3, r)
  }

  predicate NoCollision(sha3: Bytes -> Hash, inputs: set<Bytes>) {
    forall x, y :: x in inputs && y in inputs && sha3(x) == sha3(y) ==> x == y
  }

  predicate HashLeaves(t: Term) {
    match t
    case Leaf(x) => |x| == 32
    case Node(l, r) => HashLeaves(l) && HashLeaves(r)
  }

  function TermLayer(ts: seq<Term>): (r: seq<Term>)
    ensures |r| == (|ts| + 1) / 2
  {
    if |ts| <= 1 then ts else [Node(ts[0], ts[1])] + TermLayer(ts[2..])
  }

  function TermRoot(ts: seq<Term>): Term
    requires ts != []
    decreases |ts|
  {
    if |ts| == 1 then ts[0] else TermRoot(TermLayer(ts))
  }

  function LeafTerms(leaves: seq<Hash>): (r: seq<Term>)
    ensures |r| == |leaves|
  {
    seq(|leaves|, i requires 0 <= i < |leaves| => Leaf(leaves[i]))
  }

  function Tree(leaves: seq<Hash>): Term
    requires leaves != []
  {
    TermRoot(LeafTerms(leaves))
  }

  function Hashes(sha3: Bytes -> Hash, ts: seq<Term>): (r: seq<Hash>)
    ensures |r| == |ts|
  {
    seq(|ts|, i requires 0 <= i < |ts| => HashOf(sha3, ts[i]))
  }

  lemma {:induction false} LayerOfHashes(sha3: Bytes -> Hash, ts: seq<Term>)
    ensures Layer(sha3, Hashes(sha3, ts)) == Hashes(sha3, TermLayer(ts))
  {
    hide Layer, Join;
    var hs := Hashes(sha3, ts);
    if |ts| >= 2 {
      LayerOfHashes(sha3, ts[2..]);
      assert Hashes(sha3, ts[2..]) == hs[2..];
      LayerStep(sha3, hs);
      var first, rest := Node(ts[0], ts[1]), TermLayer(ts[2..]);
      assert Hashes(sha3, [first] + rest) == [HashOf(sha3, first)] + Hashes(sha3, rest);
    } else {
      ShortLayer(sha3, hs);
    }
  }

  lemma ShortLayer(sha3: Bytes -> Hash, s: seq<Hash>)
    requires |s| <= 1
    ensures Layer(sha3, s) == s
  {
  }

  lemma LayerStep(sha3: Bytes -> Hash, s: seq<Hash>)
    requires |s| >= 2
    ensures Layer(sha3, s) == [sha3(Join(s[0], s[1]))] + Layer(sha3, s[2..])
  {
    hide Join;
    var l, r := Layer(sha3, s), [sha3(Join(s[0], s[1]))] + Layer(sha3, s[2..]);
    forall i | 0 < i < |l|
      ensures l[i] == r[i]
    {
      assert r[i] == Layer(sha3, s[2..])[i - 1];
      assert s[2..][2 * (i - 1)] == s[2 * i];
    }
  }

  lemma {:induction false} RootOfHashes(sha3: Bytes -> Hash, ts: seq<Term>)
    requires ts != []
    ensures RootOf(Layers(sha3, Hashes(sha3, ts))) == HashOf(sha3, TermRoot(ts))
    decreases |ts|
  {
    if |ts| > 1 {
      LayerOfHashes(sha3, ts);
      RootOfHashes(sha3, TermLayer(ts));
    }
  }

  // The root of the built tree is the hash of its term.
  lemma RootIsTermHash(sha3: Bytes -> Hash, leaves: seq<Hash>)
    requires leaves != []
    ensures RootOf(Layers(sha3, LeafHashes(sha3, leaves))) == HashOf(sha3, Tree(leaves))
  {
    assert Hashes(sha3, LeafTerms(leaves)) == LeafHashes(sha3, leaves);
    RootOfHashes(sha3, LeafTerms(leaves));
  }

  lemma {:induction false} LayerKeepsLeaves(ts: seq<Term>)
    ensures Bags(TermLayer(ts)) == Bags(ts)
    ensures (forall t <- ts :: HashLeaves(t)) ==> forall t <- TermLayer(ts) :: HashLeaves(t)
  {
    if |ts| >= 2 {
      LayerKeepsLeaves(ts[2..]);
      var first, rest := Node(ts[0], ts[1]), TermLayer(ts[2..]);
      assert ts[1..][1..] == ts[2..] && ([first] + rest)[1..] == rest;
    }
  }

  lemma {:induction false} RootKeepsLeaves(ts: seq<Term>)
    requires ts != [] && forall t <- ts :: HashLeaves(t)
    ensures Bag(TermRoot(ts)) == Bags(ts) && HashLeaves(TermRoot(ts))
    decreases |ts|
  {
    if |ts| > 1 {
      LayerKeepsLeaves(ts);
      RootKeepsLeaves(TermLayer(ts));
    } else {
      assert ts[1..] == [];
    }
  }

  lemma {:induction false} BagsOfLeaves(leaves: seq<Hash>)
    ensures Bags(LeafTerms(leaves)) == multiset(leaves)
  {
    if leaves != [] {
      BagsOfLeaves(leaves[1..]);
      assert LeafTerms(leaves)[1..] == LeafTerms(leaves[1..]);
      assert leaves == [leaves[0]] + leaves[1..];
    }
  }

  lemma TreeLeaves(leaves: seq<Hash>)
    requires leaves != []
    ensures Bag(Tree(leaves)) == multiset(leaves) && HashLeaves(Tree(leaves))
  {
    RootKeepsLeaves(LeafTerms(leaves));
    BagsOfLeaves(leaves);
  }

  /* Binding */

  lemma {:induction false} EqualHashesEqualLeaves(sha3: Bytes -> Hash, t: Term, u: Term)
    requires HashLeaves(t) && HashLeaves(u)
    requires NoCollision(sha3, Preimages(sha3, t) + Preimages(sha3, u))
    requires HashOf(sha3, t) == HashOf(sha3, u)
    ensures Bag(t) == Bag(u)
  {
    hide Join;
    if t.Node? && u.Node? {
      var a, b, c, d := HashOf(sha3, t.left), HashOf(sha3, t.right), HashOf(sha3, u.left), HashOf(sha3, u.right);
      assert Join(a, b) == Join(c, d);
      JoinIsUnorderedPair(a, b, c, d);
      if a == c && b == d {
        EqualHashesEqualLeaves(sha3, t.left, u.left);
        EqualHashesEqualLeaves(sha3, t.right, u.right);
      } else {
        EqualHashesEqualLeaves(sha3, t.left, u.right);
        EqualHashesEqualLeaves(sha3, t.right, u.left);
      }
    }
  }

  // Two non-empty leaf lists of any sizes with the same root hold the same leaves
  // the same number of times.
  lemma MerkleBinding(sha3: Bytes -> Hash, a: seq<Hash>, b: seq<Hash>)
    requires a != [] && b != []
    requires NoCollision(sha3, Preimages(sha3, Tree(a)) + Preimages(sha3, Tree(b)))
    requires RootOf(Layers(sha3, LeafHashes(sha3, a))) == RootOf(Layers(sha3, LeafHashes(sha3, b)))
    ensures multiset(a) == multiset(b) && |a| == |b|
  {
    RootIsTermHash(sha3, a);
    RootIsTermHash(sha3, b);
    TreeLeaves(a);
    TreeLeaves(b);
    EqualHashesEqualLeaves(sha3, Tree(a), Tree(b));
    assert |a| == |multiset(a)| && |b| == |multiset(b)|;
  }

  /* Soundness */

  // Every byte string verify hashes.
  function ProofPreimages(sha3: Bytes -> Hash, proof: seq<Hash>, leaf: Hash): set<Bytes> {
    if proof == [] then {}
    else {Join(leaf, proof[0])} + ProofPreimages(sha3, proof[1..], sha3(Join(leaf, proof[0])))
  }

  lemma {:induction false} FoldLast(sha3: Bytes -> Hash, proof: seq<Hash>, leaf: Hash)
    requires proof != []
    ensures var front, last := proof[..|proof| - 1], proof[|proof| - 1];
      && Fold(sha3, proof, leaf) == sha3(Join(Fold(sha3, front, leaf), last))
      && ProofPreimages(sha3, proof, leaf) == ProofPreimages(sha3, front, leaf) + {Join(Fold(sha3, front, leaf), last)}
  {
    if |proof| > 1 {
      var next := sha3(Join(leaf, proof[0]));
      assert proof[1..][..|proof| - 2] == proof[..|proof| - 1][1..];
      FoldLast(sha3, proof[1..], next);
    }
  }

  // A proof of any length that verify accepts for the hash of a 32-byte leaf is for
  // a leaf of the tree.
  lemma {:induction false} ProofSoundness(sha3: Bytes -> Hash, t: Term, proof: seq<Hash>, x: Hash)
    requires HashLeaves(t)
    requires NoCollision(sha3, Preimages(sha3, t) + ProofPreimages(sha3, proof, sha3(x)) + {x})
    requires Fold(sha3, proof, sha3(x)) == HashOf(sha3, t)
    ensures x in Bag(t)
    decreases |proof|
  {
    var inputs := Preimages(sha3, t) + ProofPreimages(sha3, proof, sha3(x)) + {x};
    if proof != [] {
      FoldLast(sha3, proof, sha3(x));
      var front, last := proof[..|proof| - 1], proof[|proof| - 1];
      var f := Fold(sha3, front, sha3(x));
      assert Join(f, last) in inputs;
      if t.Node? {
        var a, b := HashOf(sha3, t.left), HashOf(sha3, t.right);
        assert Join(a, b) in inputs;
        JoinIsUnorderedPair(f, last, a, b);
        ProofSoundness(sha3, if f == a then t.left else t.right, front, x);
      }
    }
  }

  lemma MerkleSoundness(sha3: Bytes -> Hash, leaves: seq<Hash>, proof: seq<Hash>, x: Hash)
    requires leaves != []
    requires NoCollision(sha3, Preimages(sha3, Tree(leaves)) + ProofPreimages(sha3, proof, sha3(x)) + {x})
    requires Fold(sha3, proof, sha3(x)) == RootOf(Layers(sha3, LeafHashes(sha3, leaves)))
    ensures x in leaves
  {
    RootIsTermHash(sha3, leaves);
    TreeLeaves(leaves);
    ProofSoundness(sha3, Tree(leaves), proof, x);
    assert x in multiset(leaves);
  }

  // A tree of 2^k leaves.
  predicate Perfect(t: Term, k: nat) {
    if k == 0 then t.Leaf? else t.Node? && Perfect(t.left, k - 1) && Perfect(t.right, k - 1)
  }

  function Pow2(k: nat): (p: nat)
    ensures p > 0
  {
    if k == 0 then 1 else 2 * Pow2(k - 1)
  }

  lemma {:induction false} PerfectLayer(ts: seq<Term>, j: nat)
    requires |ts| % 2 == 0 && forall t <- ts :: Perfect(t, j)
    ensures |TermLayer(ts)| == |ts| / 2
    ensures forall t <- TermLayer(ts) :: Perfect(t, j + 1)
  {
    if |ts| >= 2 {
      PerfectLayer(ts[2..], j);
      assert ts[0] in ts && ts[1] in ts;
    }
  }

  lemma {:induction false} PerfectRoot(ts: seq<Term>, j: nat, k: nat)
    requires |ts| == Pow2(k) && forall t <- ts :: Perfect(t, j)
    ensures Perfect(TermRoot(ts), j + k)
    decreases k
  {
    if k == 0 {
      assert ts[0] in ts;
    } else {
      PerfectLayer(ts, j);
      PerfectRoot(TermLayer(ts), j + 1, k - 1);
    }
  }

  lemma {:induction false} FullProofSoundness(sha3: Bytes -> Hash, t: Term, proof: seq<Hash>, leaf: Hash)
    requires Perfect(t, |proof|)
    requires NoCollision(sha3, Preimages(sha3, t) + ProofPreimages(sha3, proof, leaf))
    requires Fold(sha3, proof, leaf) == HashOf(sha3, t)
    ensures exists x :: x in Bag(t) && sha3(x) == leaf
    decreases |proof|
  {
    if proof == [] {
      assert t.value in Bag(t);
    } else {
      FoldLast(sha3, proof, leaf);
      var front, last := proof[..|proof| - 1], proof[|proof| - 1];
      var f := Fold(sha3, front, leaf);
      var a, b := HashOf(sha3, t.left), HashOf(sha3, t.right);
      JoinIsUnorderedPair(f, last, a, b);
      var child := if f == a then t.left else t.right;
      FullProofSoundness(sha3, child, front, leaf);
      assert forall x :: x in Bag(child) ==> x in Bag(t);
    }
  }

  // With 2^k leaves, a proof of length k accepted for any hash at all is for a hash
  // of the leaf layer.
  lemma MerkleLayerSoundness(sha3: Bytes -> Hash, leaves: seq<Hash>, k: nat, proof: seq<Hash>, leaf: Hash)
    requires |leaves| == Pow2(k) && |proof| == k
    requires NoCollision(sha3, Preimages(sha3, Tree(leaves)) + ProofPreimages(sha3, proof, leaf))
    requires Fold(sha3, proof, leaf) == RootOf(Layers(sha3, LeafHashes(sha3, leaves)))
    ensures leaf in LeafHashes(sha3, leaves)
  {
    hide Layers, RootOf, Layer, TermRoot, Preimages, ProofPreimages, Fold, Bag;
    RootIsTermHash(sha3, leaves);
    TreeLeaves(leaves);
    assert forall t <- LeafTerms(leaves) :: Perfect(t, 0);
    PerfectRoot(LeafTerms(leaves), 0, k);
    FullProofSoundness(sha3, Tree(leaves), proof, leaf);
    var x :| x in Bag(Tree(leaves)) && sha3(x) == leaf;
    assert x in multiset(leaves);
    var i :| 0 <= i < |leaves| && leaves[i] == x;
    assert LeafHashes(sha3, leaves)[i] == leaf;
  }
}

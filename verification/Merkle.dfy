/** The Merkle loop of node/block.py over byte strings and an ideal (collision-free) hash of them. */
module Merkle {

  /** A byte: one written out, or byte number `at` of the double hash of some bytes. */
  datatype Octet = Literal(value: nat) | Hashed(preimage: seq<Octet>, at: nat)

  type Bytes = seq<Octet>

  const DIGEST_SIZE: nat := 32

  /** `sha256d`. */
  function Sha256d(bytes: Bytes): (digest: Bytes)
    ensures |digest| == DIGEST_SIZE
  {
    seq(DIGEST_SIZE, at requires 0 <= at < DIGEST_SIZE => Hashed(bytes, at))
  }

  lemma HashInjective(x: Bytes, y: Bytes)
    ensures Sha256d(x) == Sha256d(y) ==> x == y
  {
    if Sha256d(x) == Sha256d(y) { assert Sha256d(x)[0] == Sha256d(y)[0]; }
  }

  /** A txid is a string of hex digits: some bytes, in one of their spellings (letter case, white space). */
  datatype TxId = TxId(bytes: Bytes, spelling: string)

  /** `bytes.fromhex` of each. */
  function BytesOf(txids: seq<TxId>): seq<Bytes>
  {
    seq(|txids|, i requires 0 <= i < |txids| => txids[i].bytes)
  }

  function Pair(left: Bytes, right: Bytes): (digest: Bytes)
    ensures |digest| == DIGEST_SIZE
  {
    Sha256d(left + right)
  }

  /** What is hashed at place i of the next layer: neighbours, an odd last node being its own. */
  function Joined(layer: seq<Bytes>, i: nat): Bytes
    requires 2 * i < |layer|
  {
    layer[2 * i] + if 2 * i + 1 < |layer| then layer[2 * i + 1] else layer[2 * i]
  }

  /** Node i of the next layer. */
  function Node(layer: seq<Bytes>, i: nat): Bytes
    requires 2 * i < |layer|
  {
    Sha256d(Joined(layer, i))
  }

  /** One layer up: hash neighbours, pairing an odd last node with itself. */
  function NextLayer(layer: seq<Bytes>): (next: seq<Bytes>)
    ensures |next| == (|layer| + 1) / 2
  {
    seq((|layer| + 1) / 2, i requires 0 <= i < (|layer| + 1) / 2 => Node(layer, i))
  }

  function LayerRoot(layer: seq<Bytes>): Bytes
    requires layer != []
    decreases |layer|
  {
    if |layer| == 1 then layer[0] else LayerRoot(NextLayer(layer))
  }

  function BytesRoot(leaves: seq<Bytes>): Bytes
  {
    if leaves == [] then Sha256d([]) else LayerRoot(leaves)
  }

  /** `merkle_root`. */
  function Root(txids: seq<TxId>): Bytes
  {
    BytesRoot(BytesOf(txids))
  }

  /** The layer loop of the program. */
  method MerkleRoot(txids: seq<TxId>) returns (root: Bytes)
    ensures root == Root(txids)
  {
    if txids == [] { return Sha256d([]); }
    var layer := BytesOf(txids);
    assert LayerRoot(layer) == Root(txids);
    hide Pair, Root, BytesRoot, Sha256d;
    while |layer| > 1
      invariant layer != [] && LayerRoot(layer) == Root(txids)
    {
      var next: seq<Bytes> := [];
      var i := 0;
      while i < |layer|
        invariant i == 2 * |next| && |next| <= (|layer| + 1) / 2
        invariant forall k :: 0 <= k < |next| ==> next[k] == Node(layer, k)
      {
        var left := layer[i];
        var right := if i + 1 < |layer| then layer[i + 1] else left;
        assert Pair(left, right) == Node(layer, |next|);
        next := next + [Pair(left, right)];
        i := i + 2;
      }
      assert next == NextLayer(layer);
      layer := next;
    }
    root := layer[0];
  }

  // ----- the same root as a recursive tree -----

  function Pow2(n: nat): nat { if n == 0 then 1 else 2 * Pow2(n - 1) }

  /** The subtree of height h over a non-empty list that fits it; a missing right half repeats the left. */
  function Tree(h: nat, nodes: seq<Bytes>): Bytes
    requires 0 < |nodes| <= Pow2(h)
  {
    if h == 0 then nodes[0]
    else if |nodes| <= Pow2(h - 1) then var l := Tree(h - 1, nodes); Pair(l, l)
    else Pair(Tree(h - 1, nodes[..Pow2(h - 1)]), Tree(h - 1, nodes[Pow2(h - 1)..]))
  }

  lemma LayerHalves(nodes: seq<Bytes>, half: nat)
    requires 2 * half < |nodes|
    ensures NextLayer(nodes)[..half] == NextLayer(nodes[..2 * half])
    ensures NextLayer(nodes)[half..] == NextLayer(nodes[2 * half..])
  {
    hide Pair;
    forall i | 0 <= i < half ensures Node(nodes, i) == Node(nodes[..2 * half], i) {}
    forall i | 0 <= i < (|nodes| - 2 * half + 1) / 2 ensures Node(nodes, half + i) == Node(nodes[2 * half..], i) {}
    hide Node;
  }

  lemma {:induction false} TreeOfLayer(h: nat, nodes: seq<Bytes>)
    requires 0 < |nodes| <= Pow2(h + 1)
    ensures Tree(h + 1, nodes) == Tree(h, NextLayer(nodes))
  {
    hide Sha256d;
    if h > 0 {
      var half := Pow2(h);
      hide Node, NextLayer;
      if |nodes| <= half {
        TreeOfLayer(h - 1, nodes);
      } else {
        TreeOfLayer(h - 1, nodes[..half]);
        TreeOfLayer(h - 1, nodes[half..]);
        LayerHalves(nodes, Pow2(h - 1));
      }
    }
  }

  /** The height of the tree over n leaves: the number of times the loop runs. */
  function Height(n: nat): nat { if n <= 1 then 0 else 1 + Height((n + 1) / 2) }

  lemma {:induction false} HeightFits(n: nat)
    ensures n <= Pow2(Height(n))
  {
    if n > 1 { HeightFits((n + 1) / 2); }
  }

  /** The bottom-up layer loop computes the top-down tree. */
  lemma {:induction false} LayersAreTree(layer: seq<Bytes>)
    requires layer != []
    ensures |layer| <= Pow2(Height(|layer|))
    ensures LayerRoot(layer) == Tree(Height(|layer|), layer)
    decreases |layer|
  {
    HeightFits(|layer|);
    hide Pair, Node;
    if |layer| > 1 {
      LayersAreTree(NextLayer(layer));
      TreeOfLayer(Height(|layer|) - 1, layer);
    }
  }

  // ----- commitment -----

  predicate Distinct<T(==)>(s: seq<T>)
  {
    forall i, j :: 0 <= i < j < |s| ==> s[i] != s[j]
  }

  /** Every byte string has the length of a digest. */
  predicate Full(layer: seq<Bytes>)
  {
    forall i :: 0 <= i < |layer| ==> |layer[i]| == DIGEST_SIZE
  }

  predicate SameLengths(a: seq<Bytes>, b: seq<Bytes>)
  {
    |a| == |b| && forall i :: 0 <= i < |a| ==> |a[i]| == |b[i]|
  }

  /** Neighbours joined are the same bytes, though the cut between them may lie elsewhere. */
  predicate SameJoins(a: seq<Bytes>, b: seq<Bytes>)
  {
    |a| == |b| && forall i :: 0 <= i < (|a| + 1) / 2 ==> Joined(a, i) == Joined(b, i)
  }

  lemma NextLayerFull(layer: seq<Bytes>)
    ensures Full(NextLayer(layer))
  {
    hide Sha256d;
  }

  lemma NextLayerAt(layer: seq<Bytes>, i: nat)
    requires 2 * i < |layer|
    ensures NextLayer(layer)[i] == Sha256d(Joined(layer, i))
  {
    hide Sha256d;
  }

  lemma SameJoinsIff(a: seq<Bytes>, b: seq<Bytes>)
    requires |a| == |b|
    ensures SameJoins(a, b) <==> NextLayer(a) == NextLayer(b)
  {
    hide Sha256d, Pair, Joined;
    forall i: nat | 2 * i < |a|
      ensures NextLayer(a)[i] == NextLayer(b)[i] <==> Joined(a, i) == Joined(b, i)
    {
      NextLayerAt(a, i);
      NextLayerAt(b, i);
      HashInjective(Joined(a, i), Joined(b, i));
    }
    if NextLayer(a) == NextLayer(b) {
      forall i: nat | 2 * i < |a| ensures Joined(a, i) == Joined(b, i) {
        assert NextLayer(a)[i] == NextLayer(b)[i];
      }
    } else if SameJoins(a, b) {
      forall i | 0 <= i < |NextLayer(a)| ensures NextLayer(a)[i] == NextLayer(b)[i] {
        assert Joined(a, i) == Joined(b, i);
      }
    }
  }

  /** Joined neighbours come apart again where the lengths are known. */
  lemma SplitPair(x: Bytes, y: Bytes, x': Bytes, y': Bytes)
    requires |x| == |x'| && x + y == x' + y'
    ensures x == x' && y == y'
  {
    assert x == (x + y)[..|x|] && y == (x + y)[|x|..];
  }

  lemma JoinsDecide(a: seq<Bytes>, b: seq<Bytes>)
    requires SameLengths(a, b) && SameJoins(a, b)
    ensures a == b
  {
    forall k | 0 <= k < |a| ensures a[k] == b[k] {
      var i := k / 2;
      assert Joined(a, i) == Joined(b, i);
      if 2 * i + 1 < |a| { SplitPair(a[2 * i], a[2 * i + 1], b[2 * i], b[2 * i + 1]); }
      else { SplitPair(a[2 * i], a[2 * i], b[2 * i], b[2 * i]); }
    }
  }

  lemma {:induction false} EqualCounts(a: seq<Bytes>, b: seq<Bytes>)
    requires |a| == |b| && |a| > 1
    ensures LayerRoot(a) == LayerRoot(b) <==> SameJoins(a, b)
    decreases |a|
  {
    SameJoinsIff(a, b);
    var x, y := NextLayer(a), NextLayer(b);
    if |x| > 1 {
      EqualCounts(x, y);
      NextLayerFull(a);
      NextLayerFull(b);
      if SameJoins(x, y) { JoinsDecide(x, y); }
    } else {
      assert x == [x[0]] && y == [y[0]];
    }
  }

  /** For lists of one length, with no duplicate check at all: roots are equal exactly when joined neighbours are,
      and if the entries are as long too, exactly when the lists are. */
  lemma RootDecides(a: seq<Bytes>, b: seq<Bytes>)
    requires |a| == |b|
    ensures |a| > 1 ==> (BytesRoot(a) == BytesRoot(b) <==> SameJoins(a, b))
    ensures |a| <= 1 || SameLengths(a, b) ==> (BytesRoot(a) == BytesRoot(b) <==> a == b)
  {
    if |a| > 1 {
      EqualCounts(a, b);
      if SameJoins(a, b) && SameLengths(a, b) { JoinsDecide(a, b); }
    } else if |a| == 1 {
      assert a == [a[0]] && b == [b[0]];
    }
  }

  /** The lengths are needed: where the cut between neighbours lies leaves no trace in the root. */
  lemma CutCollides(x: Bytes, y: Bytes, z: Bytes)
    ensures BytesRoot([x + y, z]) == BytesRoot([x, y + z])
    ensures y != [] ==> [x + y, z] != [x, y + z]
  {
    assert Joined([x + y, z], 0) == Joined([x, y + z], 0) by { assert (x + y) + z == x + (y + z); }
    RootDecides([x + y, z], [x, y + z]);
  }

  // ----- lists of different lengths -----

  lemma NextLayerInjective(a: seq<Bytes>, b: seq<Bytes>)
    requires Distinct(a) && Distinct(b) && Full(a) && Full(b) && NextLayer(a) == NextLayer(b)
    ensures a == b
  {
    hide Sha256d, Pair;
    if |a| < |b| {
      OddTwin(a, b);
    } else if |b| < |a| {
      OddTwin(b, a);
    } else {
      SameJoinsIff(a, b);
      JoinsDecide(a, b);
    }
  }

  /** A list one longer with the same next layer repeats its last entry. */
  lemma OddTwin(a: seq<Bytes>, b: seq<Bytes>)
    requires |a| < |b| && Full(a) && Full(b) && NextLayer(a) == NextLayer(b)
    ensures !Distinct(b)
  {
    var i := |NextLayer(b)| - 1;
    assert 2 * i + 1 == |a| && |b| == |a| + 1;
    NextLayerAt(a, i);
    NextLayerAt(b, i);
    HashInjective(Joined(a, i), Joined(b, i));
    SplitPair(a[2 * i], a[2 * i], b[2 * i], b[2 * i + 1]);
  }

  lemma NextLayerDistinct(layer: seq<Bytes>)
    requires Distinct(layer) && Full(layer)
    ensures Distinct(NextLayer(layer))
  {
    hide Sha256d, Pair;
    var next := NextLayer(layer);
    forall i, j | 0 <= i < j < |next|
      ensures next[i] != next[j]
    {
      NextLayerAt(layer, i);
      NextLayerAt(layer, j);
      HashInjective(Joined(layer, i), Joined(layer, j));
      assert layer[2 * i] != layer[2 * j];
      assert layer[2 * i] == Joined(layer, i)[..DIGEST_SIZE] && layer[2 * j] == Joined(layer, j)[..DIGEST_SIZE];
    }
  }

  /** The layer after k turns of the loop. */
  function Climb(layer: seq<Bytes>, k: nat): seq<Bytes>
    decreases k
  {
    if k == 0 then layer else Climb(NextLayer(layer), k - 1)
  }

  /** The loop over b passes through a. */
  predicate LayerOf(a: seq<Bytes>, b: seq<Bytes>)
  {
    exists k: nat :: k <= Height(|b|) && a == Climb(b, k)
  }

  lemma {:induction false} ClimbRoot(layer: seq<Bytes>, k: nat)
    requires layer != [] && k <= Height(|layer|)
    ensures Climb(layer, k) != [] && LayerRoot(Climb(layer, k)) == LayerRoot(layer)
    ensures Height(|Climb(layer, k)|) == Height(|layer|) - k
    decreases k
  {
    hide Pair;
    if k > 0 { ClimbRoot(NextLayer(layer), k - 1); }
  }

  lemma {:induction false} ClimbLast(layer: seq<Bytes>, k: nat)
    ensures Climb(NextLayer(layer), k) == NextLayer(Climb(layer, k))
    decreases k
  {
    hide Pair;
    if k > 0 { ClimbLast(NextLayer(layer), k - 1); }
  }

  lemma {:induction false} ClimbDistinct(layer: seq<Bytes>, k: nat)
    requires Distinct(layer) && Full(layer)
    ensures Distinct(Climb(layer, k)) && Full(Climb(layer, k))
    decreases k
  {
    hide Pair;
    if k > 0 {
      NextLayerDistinct(layer);
      NextLayerFull(layer);
      ClimbDistinct(NextLayer(layer), k - 1);
    }
  }

  lemma RootIsLayer(layer: seq<Bytes>)
    requires layer != []
    ensures LayerOf([LayerRoot(layer)], layer)
  {
    ClimbRoot(layer, Height(|layer|));
    assert Climb(layer, Height(|layer|)) == [LayerRoot(layer)];
  }

  lemma LayerBelow(a: seq<Bytes>, b: seq<Bytes>)
    requires Distinct(a) && Distinct(b) && Full(a) && Full(b) && |b| > 1 && LayerOf(NextLayer(a), NextLayer(b))
    ensures LayerOf(a, b)
  {
    hide Pair, Distinct;
    var k: nat :| k <= Height(|NextLayer(b)|) && NextLayer(a) == Climb(NextLayer(b), k);
    ClimbLast(b, k);
    ClimbDistinct(b, k);
    NextLayerInjective(a, Climb(b, k));
  }

  lemma {:induction false} LayerCommitment(a: seq<Bytes>, b: seq<Bytes>)
    requires a != [] && b != [] && Distinct(a) && Distinct(b) && Full(a) && Full(b) && LayerRoot(a) == LayerRoot(b)
    ensures LayerOf(a, b) || LayerOf(b, a)
    decreases |a| + |b|
  {
    hide Pair, Distinct;
    if |a| == 1 {
      RootIsLayer(b);
      assert a == [LayerRoot(b)];
    } else if |b| == 1 {
      RootIsLayer(a);
      assert b == [LayerRoot(a)];
    } else {
      NextLayerDistinct(a);
      NextLayerDistinct(b);
      NextLayerFull(a);
      NextLayerFull(b);
      LayerCommitment(NextLayer(a), NextLayer(b));
      if LayerOf(NextLayer(a), NextLayer(b)) { LayerBelow(a, b); } else { LayerBelow(b, a); }
    }
  }

  /** The hash of two digests. */
  ghost predicate IsPair(x: Bytes)
  {
    exists left, right :: |left| == |right| == DIGEST_SIZE && x == Pair(left, right)
  }

  lemma PairNotEmptyHash(left: Bytes, right: Bytes)
    requires |left| == DIGEST_SIZE
    ensures Pair(left, right) != Sha256d([])
  {
    HashInjective(left + right, []);
    assert (left + right)[..DIGEST_SIZE] == left;
  }

  lemma NextLayerPairs(layer: seq<Bytes>, i: nat)
    requires Full(layer) && i < |NextLayer(layer)|
    ensures IsPair(NextLayer(layer)[i]) && NextLayer(layer)[i] != Sha256d([])
  {
    hide Sha256d;
    var right := if 2 * i + 1 < |layer| then layer[2 * i + 1] else layer[2 * i];
    assert NextLayer(layer)[i] == Pair(layer[2 * i], right);
    PairNotEmptyHash(layer[2 * i], right);
  }

  lemma {:induction false} RootIsPair(layer: seq<Bytes>)
    requires |layer| > 1 && Full(layer)
    ensures LayerRoot(layer) != Sha256d([])
    decreases |layer|
  {
    hide Pair;
    NextLayerFull(layer);
    if |NextLayer(layer)| > 1 { RootIsPair(NextLayer(layer)); } else { NextLayerPairs(layer, 0); }
  }

  lemma EmptyHashOnly(leaves: seq<Bytes>)
    requires Full(leaves)
    ensures BytesRoot(leaves) == Sha256d([]) <==> leaves == [] || leaves == [Sha256d([])]
  {
    hide Pair;
    if |leaves| > 1 { RootIsPair(leaves); } else if |leaves| == 1 { assert leaves == [leaves[0]]; }
  }

  lemma EmptyLayer(layer: seq<Bytes>)
    ensures LayerOf([], layer) <==> layer == []
    ensures LayerOf(layer, []) <==> layer == []
  {
    hide Pair;
    assert [] == Climb([], 0);
    if layer != [] && LayerOf([], layer) {
      var k: nat :| k <= Height(|layer|) && [] == Climb(layer, k);
      ClimbRoot(layer, k);
    }
  }

  /** Among duplicate-free lists of 32-byte entries, of any lengths, roots are equal exactly when the loop over one
      list passes through the other; the empty list shares its root with one more. */
  lemma MerkleCommitment(a: seq<Bytes>, b: seq<Bytes>)
    requires Distinct(a) && Distinct(b) && Full(a) && Full(b)
    ensures BytesRoot(a) == BytesRoot(b) <==>
            LayerOf(a, b) || LayerOf(b, a) || (a == [] && b == [Sha256d([])]) || (a == [Sha256d([])] && b == [])
  {
    hide Pair, Distinct;
    if a == [] {
      EmptyHashOnly(b);
      EmptyLayer(b);
    } else if b == [] {
      EmptyHashOnly(a);
      EmptyLayer(a);
    } else {
      if BytesRoot(a) == BytesRoot(b) { LayerCommitment(a, b); }
      if LayerOf(a, b) {
        var k: nat :| k <= Height(|b|) && a == Climb(b, k);
        ClimbRoot(b, k);
      }
      if LayerOf(b, a) {
        var k: nat :| k <= Height(|a|) && b == Climb(a, k);
        ClimbRoot(a, k);
      }
    }
  }

  lemma {:induction false} ClimbPairs(layer: seq<Bytes>, k: nat)
    requires k > 0 && Full(layer)
    ensures forall i :: 0 <= i < |Climb(layer, k)| ==> IsPair(Climb(layer, k)[i])
    decreases k
  {
    hide Pair, IsPair;
    if k > 1 {
      NextLayerFull(layer);
      ClimbPairs(NextLayer(layer), k - 1);
    } else {
      assert Climb(layer, k) == NextLayer(layer);
      forall i | 0 <= i < |NextLayer(layer)| ensures IsPair(NextLayer(layer)[i]) { NextLayerPairs(layer, i); }
    }
  }

  /** A list is another one's layer only if it is that list or consists of hashes of pairs. */
  lemma LayerDecides(a: seq<Bytes>, b: seq<Bytes>)
    requires LayerOf(a, b) && b != [] && Full(b)
    ensures a != [] && (IsPair(a[0]) || a == b)
  {
    hide Pair, IsPair;
    var k: nat :| k <= Height(|b|) && a == Climb(b, k);
    ClimbRoot(b, k);
    if k > 0 { ClimbPairs(b, k); }
  }

  /** The count is needed: replacing entries by the hashes of their pairs keeps the root. */
  lemma UpperLayerCollides(leaves: seq<Bytes>, x: Bytes, y: Bytes)
    ensures |leaves| > 1 ==> BytesRoot(NextLayer(leaves)) == BytesRoot(leaves) && |NextLayer(leaves)| < |leaves|
    ensures BytesRoot([Pair(x, y)]) == BytesRoot([x, y])
  {
    assert NextLayer([x, y]) == [Pair(x, y)];
  }

  /** So is distinctness: repeating an odd last entry keeps the root. */
  lemma DuplicateLastCollides(leaves: seq<Bytes>)
    requires |leaves| % 2 == 1 && |leaves| > 1
    ensures BytesRoot(leaves) == BytesRoot(leaves + [leaves[|leaves| - 1]])
  {
    hide Pair;
    assert NextLayer(leaves) == NextLayer(leaves + [leaves[|leaves| - 1]]);
  }
}

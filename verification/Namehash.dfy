/**
 ENS node hashes (EIP-137): the labels of a lower-cased name are folded into a 32-byte node
 from the last to the first. `keccak` stands for the hash function.
 */
module Namehash {
  import opened Bytes

  type Hash = bytes -> bytes

  const DOT: byte := 46
  const ZERO_NODE: bytes := Zeros(32)

  function Zeros(n: nat): (r: bytes)
    ensures |r| == n
  {
    if n == 0 then [] else Zeros(n - 1) + [0]
  }

  function LowerByte(b: byte): (r: byte) {
    if 65 <= b <= 90 then b + 32 else b
  }

  function Lower(name: bytes): (r: bytes)
    ensures |r| == |name| && forall i :: 0 <= i < |name| ==> r[i] == LowerByte(name[i])
  {
    seq(|name|, i requires 0 <= i < |name| => LowerByte(name[i]))
  }

  /** The pieces between dots; a name without a dot is one piece, and pieces may be empty. */
  function Labels(name: bytes): (r: seq<bytes>)
    ensures |r| >= 1
  {
    if name == [] then [[]] else
      var rest := Labels(name[1..]);
      if name[0] == DOT then [[]] + rest else [[name[0]] + rest[0]] + rest[1..]
  }

  function Joined(labels: seq<bytes>): (r: bytes)
    requires |labels| >= 1
  {
    if |labels| == 1 then labels[0] else labels[0] + [DOT] + Joined(labels[1..])
  }

  lemma {:induction false} JoinedLabels(name: bytes)
    ensures Joined(Labels(name)) == name && forall l <- Labels(name) :: DOT !in l
  {
    if name != [] {
      var rest := Labels(name[1..]);
      JoinedLabels(name[1..]);
      assert name == [name[0]] + name[1..];
      if name[0] == DOT {
        assert Labels(name)[1..] == rest;
        assert [] + [DOT] + Joined(rest) == name;
      } else {
        assert Labels(name)[1..] == rest[1..];
        assert rest[0] in rest;
        if |rest| > 1 {
          assert [name[0]] + rest[0] + [DOT] + Joined(rest[1..]) == [name[0]] + (rest[0] + [DOT] + Joined(rest[1..]));
        }
      }
    }
  }

  /** EIP-137: the node of no labels is zero, otherwise it hashes the parent's node and the first label's hash. */
  function Node(keccak: Hash, labels: seq<bytes>): (r: bytes) {
    if labels == [] then ZERO_NODE else keccak(Node(keccak, labels[1..]) + keccak(labels[0]))
  }

  function NodeOf(keccak: Hash, name: bytes): (r: bytes) {
    if name == [] then ZERO_NODE else Node(keccak, Labels(Lower(name)))
  }

  method Compute(keccak: Hash, name: bytes) returns (node: bytes)
    ensures node == NodeOf(keccak, name)
  {
    node := ZERO_NODE;
    if name == [] {
      return;
    }
    var labels := Labels(Lower(name));
    for i := |labels| downto 0
      invariant node == Node(keccak, labels[i..])
    {
      assert labels[i..][1..] == labels[i + 1..];
      var labelHash := keccak(labels[i]);
      node := keccak(node + labelHash);
    }
    assert labels[0..] == labels;
  }

  lemma {:induction false} LabelsOfChild(first: bytes, parent: bytes)
    requires DOT !in first
    ensures Labels(first + [DOT] + parent) == [first] + Labels(parent)
  {
    var name := first + [DOT] + parent;
    if first == [] {
      assert name[1..] == parent;
    } else {
      LabelsOfChild(first[1..], parent);
      assert name[1..] == first[1..] + [DOT] + parent;
      assert [first[0]] + first[1..] == first;
    }
  }

  lemma LowerKeepsDots(s: bytes)
    ensures DOT in Lower(s) <==> DOT in s
  {
    var r := Lower(s);
    assert forall i :: 0 <= i < |s| ==> (r[i] == DOT <==> s[i] == DOT);
  }

  lemma {:induction false} ZerosAre(n: nat)
    ensures Zeros(n) == seq(n, _ => 0)
  {
    if n > 0 {
      ZerosAre(n - 1);
    }
  }

  /** The node of no name is 32 zero bytes; the node of a single label hashes those and the label's hash. */
  lemma RootNode(keccak: Hash, only: bytes)
    requires 46 !in only && only != []
    ensures NodeOf(keccak, []) == seq(32, _ => 0)
    ensures NodeOf(keccak, only) == keccak(seq(32, _ => 0) + keccak(Lower(only)))
  {
    ZerosAre(32);
    LowerKeepsDots(only);
    OneLabel(Lower(only));
    var labels := [Lower(only)];
    assert labels[1..] == [] && Node(keccak, labels[1..]) == ZERO_NODE;
    assert Node(keccak, labels) == keccak(ZERO_NODE + keccak(labels[0]));
  }

  lemma {:induction false} OneLabel(name: bytes)
    requires DOT !in name
    ensures Labels(name) == [name]
  {
    if name != [] {
      OneLabel(name[1..]);
      assert [name[0]] + name[1..] == name;
    }
  }

  /** The node of a child is the hash of its parent's node and of its own lower-cased label. */
  lemma ChildNode(keccak: Hash, first: bytes, parent: bytes)
    requires 46 !in first && parent != []
    ensures NodeOf(keccak, first + [46] + parent) == keccak(NodeOf(keccak, parent) + keccak(Lower(first)))
  {
    assert Lower(first + [DOT] + parent) == Lower(first) + [DOT] + Lower(parent);
    LowerKeepsDots(first);
    LabelsOfChild(Lower(first), Lower(parent));
    assert ([Lower(first)] + Labels(Lower(parent)))[1..] == Labels(Lower(parent));
  }

  /** The same letter, in either case. */
  predicate CaseVariant(x: byte, y: byte) {
    x == y || (65 <= x <= 90 && y == x + 32) || (65 <= y <= 90 && x == y + 32)
  }

  predicate SameButCase(a: bytes, b: bytes) {
    |a| == |b| && forall i :: 0 <= i < |a| ==> CaseVariant(a[i], b[i])
  }

  lemma LowerExactly(a: bytes, b: bytes)
    ensures Lower(a) == Lower(b) <==> SameButCase(a, b)
  {
    if Lower(a) == Lower(b) {
      assert |a| == |Lower(a)| == |Lower(b)| == |b|;
      forall i | 0 <= i < |a| ensures CaseVariant(a[i], b[i]) {
        assert Lower(a)[i] == Lower(b)[i];
      }
    }
    if SameButCase(a, b) {
      assert forall i :: 0 <= i < |a| ==> Lower(a)[i] == Lower(b)[i];
    }
  }

  /** Names of any length that differ only in the case of ASCII letters have the same node. */
  lemma CaseDoesNotMatter(keccak: Hash, a: bytes, b: bytes)
    requires SameButCase(a, b)
    ensures NodeOf(keccak, a) == NodeOf(keccak, b)
  {
    LowerExactly(a, b);
  }

  // ----- Different names, different nodes -----

  /** Everything hashed on the way to a node. */
  function Hashed(keccak: Hash, labels: seq<bytes>): (r: set<bytes>) {
    if labels == [] then {} else
      Hashed(keccak, labels[1..]) + {labels[0], Node(keccak, labels[1..]) + keccak(labels[0])}
  }

  ghost predicate CollisionFree(keccak: Hash, inputs: set<bytes>) {
    && (forall x :: |keccak(x)| == 32)
    && (forall x, y :: x in inputs && y in inputs && keccak(x) == keccak(y) ==> x == y)
    && (forall x <- inputs :: keccak(x) != ZERO_NODE)
  }

  lemma {:induction false} NodeInjective(keccak: Hash, ls: seq<bytes>, ms: seq<bytes>, inputs: set<bytes>)
    requires Hashed(keccak, ls) <= inputs && Hashed(keccak, ms) <= inputs && CollisionFree(keccak, inputs)
    requires Node(keccak, ls) == Node(keccak, ms)
    ensures ls == ms
  {
    if ls != [] && ms != [] {
      var x, y := Node(keccak, ls[1..]), Node(keccak, ms[1..]);
      assert x + keccak(ls[0]) in inputs && y + keccak(ms[0]) in inputs;
      NodeLength(keccak, ls[1..]);
      NodeLength(keccak, ms[1..]);
      SplitEqual(x, y, keccak(ls[0]), keccak(ms[0]));
      NodeInjective(keccak, ls[1..], ms[1..], inputs);
      assert ls == [ls[0]] + ls[1..] && ms == [ms[0]] + ms[1..];
    }
  }

  lemma NodeLength(keccak: Hash, labels: seq<bytes>)
    requires forall x :: |keccak(x)| == 32
    ensures |Node(keccak, labels)| == 32
  {
  }

  /** Unless a hash on the way collides or is zero, two names share a node exactly when they differ only in case. */
  lemma NodesDistinguishNames(keccak: Hash, a: bytes, b: bytes)
    requires CollisionFree(keccak, Hashed(keccak, Labels(Lower(a))) + Hashed(keccak, Labels(Lower(b))))
    ensures NodeOf(keccak, a) == NodeOf(keccak, b) <==> SameButCase(a, b)
  {
    LowerExactly(a, b);
    var ls, ms := Labels(Lower(a)), Labels(Lower(b));
    if a != [] && b != [] && NodeOf(keccak, a) == NodeOf(keccak, b) {
      NodeInjective(keccak, ls, ms, Hashed(keccak, ls) + Hashed(keccak, ms));
      JoinedLabels(Lower(a));
      JoinedLabels(Lower(b));
    }
  }
}

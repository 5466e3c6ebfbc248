/**
  The evolution-chain record of the species catalog and its linearization:
  starting at the root, record each node's species and descend into the
  first of its `evolves_to` children until a node has none.
 */
module Evolution {
  import opened Wrappers

  /** A species reference as the catalog gives it: `{ name, url }`. */
  datatype Species = Species(name: string, url: string)

  /** One node of an evolution chain: its species and its ordered `evolves_to` children. */
  datatype Node = Node(species: Species, evolvesTo: seq<Node>)

  /** The linearization of the tree rooted at `n`, as a recursive definition. */
  function Chain(n: Node): (r: seq<Species>)
    ensures |r| >= 1 && r[0] == n.species
  {
    [n.species] + (if |n.evolvesTo| > 0 then Chain(n.evolvesTo[0]) else [])
  }

  /** What the extraction yields for the record's `chain` field, which may be absent. */
  function Extracted(root: Option<Node>): (r: seq<Species>)
    ensures r == [] <==> root.None?
    ensures root.Some? ==> r[0] == root.value.species
  {
    match root
    case None => []
    case Some(n) => Chain(n)
  }

  /**
    The loop of the component's extraction: push the current node's species,
    then move to its first child, or stop when it has no children.
   */
  method ExtractEvolutionChain(root: Option<Node>) returns (chain: seq<Species>)
    ensures chain == Extracted(root)
    ensures root.None? ==> chain == []
    ensures root.Some? ==> |chain| >= 1 && chain[0] == root.value.species
  {
    chain := [];
    if root.None? {
      return;
    }
    var current := root.value;
    while true
      invariant chain + Chain(current) == Chain(root.value)
      decreases current
    {
      chain := chain + [current.species];
      if |current.evolvesTo| > 0 {
        current := current.evolvesTo[0];
      } else {
        break;
      }
    }
  }

  /**
    `p` is the first-child spine of `n`: it starts at `n`, each next node is
    the first child of the one before, and it ends at a node without children.
   */
  ghost predicate IsFirstChildSpine(p: seq<Node>, n: Node)
  {
    |p| >= 1 && p[0] == n &&
    (forall i :: 0 <= i < |p| - 1 ==> |p[i].evolvesTo| > 0 && p[i + 1] == p[i].evolvesTo[0]) &&
    p[|p| - 1].evolvesTo == []
  }

  /** The spine of `n`; constructing it shows that every tree has one. */
  ghost function Spine(n: Node): (p: seq<Node>)
    ensures IsFirstChildSpine(p, n)
  {
    if |n.evolvesTo| == 0 then [n] else [n] + Spine(n.evolvesTo[0])
  }

  /** The spine of a tree is unique. */
  lemma {:induction false} SpineUnique(p: seq<Node>, q: seq<Node>, n: Node)
    requires IsFirstChildSpine(p, n) && IsFirstChildSpine(q, n)
    ensures p == q
  {
    if |n.evolvesTo| > 0 {
      assert |p| > 1 && |q| > 1;
      var c := n.evolvesTo[0];
      assert IsFirstChildSpine(p[1..], c) by {
        forall i | 0 <= i < |p[1..]| - 1
          ensures |p[1..][i].evolvesTo| > 0 && p[1..][i + 1] == p[1..][i].evolvesTo[0]
        {
          assert p[1..][i] == p[i + 1] && p[1..][i + 1] == p[i + 2];
        }
      }
      assert IsFirstChildSpine(q[1..], c) by {
        forall i | 0 <= i < |q[1..]| - 1
          ensures |q[1..][i].evolvesTo| > 0 && q[1..][i + 1] == q[1..][i].evolvesTo[0]
        {
          assert q[1..][i] == q[i + 1] && q[1..][i + 1] == q[i + 2];
        }
      }
      SpineUnique(p[1..], q[1..], c);
      assert p == [p[0]] + p[1..] && q == [q[0]] + q[1..];
    }
  }

  /**
    The chain is the species of the spine, in order: its length is the length
    of the spine, its i-th entry is the species of the i-th spine node.
   */
  lemma {:induction false} ChainFollowsSpine(n: Node, p: seq<Node>)
    requires IsFirstChildSpine(p, n)
    ensures |Chain(n)| == |p|
    ensures forall i :: 0 <= i < |p| ==> Chain(n)[i] == p[i].species
  {
    if |n.evolvesTo| > 0 {
      assert |p| > 1;
      var c := n.evolvesTo[0];
      assert IsFirstChildSpine(p[1..], c) by {
        forall i | 0 <= i < |p[1..]| - 1
          ensures |p[1..][i].evolvesTo| > 0 && p[1..][i + 1] == p[1..][i].evolvesTo[0]
        {
          assert p[1..][i] == p[i + 1] && p[1..][i + 1] == p[i + 2];
        }
      }
      ChainFollowsSpine(c, p[1..]);
      forall i | 0 <= i < |p|
        ensures Chain(n)[i] == p[i].species
      {
        if i > 0 {
          assert Chain(n)[i] == Chain(c)[i - 1];
          assert p[1..][i - 1] == p[i];
        }
      }
    }
  }

  /** The chain of a childless root is that root's species alone. */
  lemma ChainOfChildlessRoot(n: Node)
    requires n.evolvesTo == []
    ensures Chain(n) == [n.species]
  {
  }

  /** Each entry after the first is the species of the previous node's first child. */
  lemma {:induction false} ChainStepsToFirstChild(n: Node, i: nat)
    requires i + 1 < |Chain(n)|
    ensures |Spine(n)| == |Chain(n)|
    ensures |Spine(n)[i].evolvesTo| > 0
    ensures Chain(n)[i + 1] == Spine(n)[i].evolvesTo[0].species
  {
    var p := Spine(n);
    ChainFollowsSpine(n, p);
    assert Chain(n)[i + 1] == p[i + 1].species;
  }

  /** Children after the first never influence the chain. */
  lemma ChainIgnoresLaterChildren(n: Node, others: seq<Node>)
    requires |n.evolvesTo| > 0
    ensures Chain(Node(n.species, [n.evolvesTo[0]] + others)) == Chain(n)
  {
  }

  /** `s` is the species of some node of the tree rooted at `n`. */
  predicate Occurs(s: Species, n: Node)
  {
    s == n.species || exists i :: 0 <= i < |n.evolvesTo| && Occurs(s, n.evolvesTo[i])
  }

  /** Every species on the chain is in the tree. */
  lemma {:induction false} ChainSpeciesOccur(n: Node, s: Species)
    requires s in Chain(n)
    ensures Occurs(s, n)
  {
    if s != n.species {
      assert |n.evolvesTo| > 0 && s in Chain(n.evolvesTo[0]);
      ChainSpeciesOccur(n.evolvesTo[0], s);
    }
  }

  /**
    A species found only under a child other than the first (neither the node
    itself nor anywhere under the first child) never appears on the chain.
   */
  lemma ExclusiveToLaterChildIsDropped(n: Node, i: nat, s: Species)
    requires 1 <= i < |n.evolvesTo|
    requires Occurs(s, n.evolvesTo[i])
    requires s != n.species && !Occurs(s, n.evolvesTo[0])
    ensures s !in Chain(n)
  {
    if s in Chain(n) {
      ChainSpeciesOccur(n.evolvesTo[0], s);
    }
  }
}

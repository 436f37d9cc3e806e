/** The gene registry (`Neat`): the single authority that numbers nodes and
    connections. Nodes live in a growing list, the i-th (0-based) carrying
    innovation number i + 1; connections live in a catalogue keyed by the pair
    hash of their endpoints, each pair receiving the next sequential innovation
    number the first time it is looked up. */
module Registry {
  import opened Wrappers
  import opened NodeGenes
  import opened ConnectionGenes

  /** `MULT_DISJOINT`, `MULT_EXCESS`, `MULT_WEIGHT_DIFF`. */
  const MULT_DISJOINT: real := 3.0
  const MULT_EXCESS: real := 2.0
  const MULT_WEIGHT_DIFF: real := 4.0

  /** `WEIGHT_SHIFT_STRENGTH`, `WEIGHT_RANDOM_STRENGTH`. */
  const WEIGHT_SHIFT_STRENGTH: real := 0.3
  const WEIGHT_RANDOM_STRENGTH: real := 1.0

  /** The five mutation probabilities. */
  const PROB_MUTATE_LINK: real := 0.4
  const PROB_MUTATE_NODE: real := 0.4
  const PROB_MUTATE_WEIGHT_SHIFT: real := 0.4
  const PROB_MUTATE_WEIGHT_RANDOM: real := 0.4
  const PROB_MUTATE_TOGGLE_LINK: real := 0.4

  /** The connection catalogue, keyed by `hash_code`. */
  type Catalogue = map<nat, ConnectionGene>

  /** The i-th node (0-based) carries innovation number i + 1. */
  predicate NodesNumbered(nodes: seq<NodeGene>)
  {
    forall i :: 0 <= i < |nodes| ==> nodes[i].innovationNumber == i + 1
  }

  /** The innovation numbers handed out by the catalogue. */
  function Innovations(cat: Catalogue): set<nat>
  {
    set k | k in cat :: cat[k].innovationNumber
  }

  /** 1, 2, ..., n. */
  function UpTo(n: nat): (r: set<nat>)
    ensures forall i :: i in r <==> 1 <= i <= n
  {
    if n == 0 then {} else UpTo(n - 1) + {n}
  }

  /** Every entry is stored under its own pair hash, no two entries share an
      innovation number, and the numbers in use are exactly 1..n. */
  predicate CatalogueNumbered(cat: Catalogue)
  {
    && (forall k :: k in cat ==> k == ConnectionGenes.HashCode(cat[k]))
    && (forall k1, k2 :: k1 in cat && k2 in cat && k1 != k2 ==>
          cat[k1].innovationNumber != cat[k2].innovationNumber)
    && Innovations(cat) == UpTo(|cat|)
  }

  /** The node `create_node(x, y)` appends. */
  function CreatedNode(nodes: seq<NodeGene>, x: real, y: real): NodeGene
  {
    NodeGene(|nodes| + 1, x, y)
  }

  /** `get_node` as written: the stored node for index < len, a panic at
      index == len (the guard is `index <= len`), a freshly created node at the
      origin beyond. */
  function GetNodeAsWritten(nodes: seq<NodeGene>, index: nat): (Outcome<NodeGene>, seq<NodeGene>)
  {
    if index <= |nodes| then
      (if index < |nodes| then Returned(nodes[index]) else Panicked("index out of bounds"), nodes)
    else
      var n := CreatedNode(nodes, 0.0, 0.0);
      (Returned(n), nodes + [n])
  }

  /** `get_node` with the guard `index < len` its comment describes. */
  function GetNodeIntended(nodes: seq<NodeGene>, index: nat): (NodeGene, seq<NodeGene>)
  {
    if index < |nodes| then (nodes[index], nodes)
    else
      var n := CreatedNode(nodes, 0.0, 0.0);
      (n, nodes + [n])
  }

  /** `get_connection`: a known pair keeps its innovation number; an unseen pair
      gets catalogue size + 1 and is recorded. */
  function Lookup(cat: Catalogue, from: NodeGene, to: NodeGene): (ConnectionGene, Catalogue)
  {
    var probe := ConnectionGenes.New(from, to);
    var h := ConnectionGenes.HashCode(probe);
    if h in cat then (probe.(innovationNumber := cat[h].innovationNumber), cat)
    else
      var g := probe.(innovationNumber := |cat| + 1);
      (g, cat[h := g])
  }

  /** The nodes `reset` creates: `input` nodes at x = 0.1, then `output` nodes at
      x = 0.9, the k-th of n at y = (k + 1) / (n + 1). */
  function InitialNodes(input: nat, output: nat): seq<NodeGene>
  {
    Column(0, input, 0.1) + Column(input, output, 0.9)
  }

  /** `count` nodes at the same x, numbered from `start + 1`, the k-th at
      y = (k + 1) / (count + 1). */
  function Column(start: nat, count: nat, x: real): seq<NodeGene>
  {
    seq(count, k requires 0 <= k < count => NodeGene(start + k + 1, x, (k + 1) as real / (count + 1) as real))
  }

  // ---------------------------------------------------------------------------
  // Lemmas

  /** The layout `reset` produces. */
  lemma InitialNodesLayout(input: nat, output: nat)
    ensures |InitialNodes(input, output)| == input + output
    ensures NodesNumbered(InitialNodes(input, output))
    ensures forall k :: 0 <= k < input ==>
      InitialNodes(input, output)[k].x == 0.1
      && InitialNodes(input, output)[k].y == (k + 1) as real / (input + 1) as real
    ensures forall k :: input <= k < input + output ==>
      InitialNodes(input, output)[k].x == 0.9
      && InitialNodes(input, output)[k].y == (k - input + 1) as real / (output + 1) as real
  {
  }

  /** A created node is numbered one past the list, differs from every node
      already in a numbered list, and keeps the list numbered. */
  lemma CreatedNodeIsFresh(nodes: seq<NodeGene>, x: real, y: real)
    requires NodesNumbered(nodes)
    ensures CreatedNode(nodes, x, y).innovationNumber == |nodes| + 1
    ensures CreatedNode(nodes, x, y) !in nodes
    ensures NodesNumbered(nodes + [CreatedNode(nodes, x, y)])
  {
  }

  /** As written, `get_node` panics exactly at index == len. */
  lemma GetNodePanicsAtLength(nodes: seq<NodeGene>, index: nat)
    ensures GetNodeAsWritten(nodes, index).0.Panicked? <==> index == |nodes|
    ensures index < |nodes| ==> GetNodeAsWritten(nodes, index) == (Returned(nodes[index]), nodes)
  {
  }

  /** The intended `get_node` never fails and agrees with the code everywhere
      except at index == len, where it creates a node instead of panicking. */
  lemma GetNodeIntendedAgrees(nodes: seq<NodeGene>, index: nat)
    requires NodesNumbered(nodes)
    ensures index != |nodes| ==>
      GetNodeAsWritten(nodes, index) == (Returned(GetNodeIntended(nodes, index).0), GetNodeIntended(nodes, index).1)
    ensures index < |nodes| ==> GetNodeIntended(nodes, index) == (nodes[index], nodes)
    ensures index >= |nodes| ==>
      GetNodeIntended(nodes, index).0.innovationNumber == |nodes| + 1
      && GetNodeIntended(nodes, index).1 == nodes + [GetNodeIntended(nodes, index).0]
    ensures NodesNumbered(GetNodeIntended(nodes, index).1)
  {
    if index >= |nodes| {
      CreatedNodeIsFresh(nodes, 0.0, 0.0);
    }
  }

  /** Looking a pair up twice gives the same gene and leaves the catalogue as
      the first lookup left it. */
  lemma LookupIdempotent(cat: Catalogue, from: NodeGene, to: NodeGene)
    ensures Lookup(Lookup(cat, from, to).1, from, to) == Lookup(cat, from, to)
  {
  }

  /** A known pair changes nothing and returns the recorded innovation number. */
  lemma LookupKnown(cat: Catalogue, from: NodeGene, to: NodeGene)
    requires CalculateHashCode(from, to) in cat
    ensures Lookup(cat, from, to).1 == cat
    ensures Lookup(cat, from, to).0.innovationNumber == cat[CalculateHashCode(from, to)].innovationNumber
    ensures Lookup(cat, from, to).0.innovationNumber in Innovations(cat)
  {
  }

  lemma {:induction false} InnovationsOfInsert(cat: Catalogue, h: nat, g: ConnectionGene)
    requires h !in cat
    ensures Innovations(cat[h := g]) == Innovations(cat) + {g.innovationNumber}
  {
    var c' := cat[h := g];
    forall n ensures n in Innovations(c') <==> n in Innovations(cat) || n == g.innovationNumber {
      if n in Innovations(c') {
        var k :| k in c' && c'[k].innovationNumber == n;
        if k != h {
          assert cat[k].innovationNumber == n;
        }
      }
      if n in Innovations(cat) {
        var k :| k in cat && cat[k].innovationNumber == n;
        assert c'[k].innovationNumber == n;
      }
      if n == g.innovationNumber {
        assert c'[h].innovationNumber == n;
      }
    }
  }

  /** An unseen pair gets catalogue size + 1, a number no entry had, and the
      catalogue grows by exactly that entry. */
  lemma LookupMints(cat: Catalogue, from: NodeGene, to: NodeGene)
    requires CatalogueNumbered(cat)
    requires CalculateHashCode(from, to) !in cat
    ensures Lookup(cat, from, to).0.innovationNumber == |cat| + 1
    ensures Lookup(cat, from, to).0.innovationNumber !in Innovations(cat)
    ensures |Lookup(cat, from, to).1| == |cat| + 1
    ensures Lookup(cat, from, to).1 == cat[CalculateHashCode(from, to) := Lookup(cat, from, to).0]
  {
  }

  /** A lookup returns a gene between the given endpoints and at most adds
      that gene's entry; no entry changes. */
  lemma LookupExtends(cat: Catalogue, from: NodeGene, to: NodeGene)
    ensures var (g, c') := Lookup(cat, from, to);
      && g.from == from && g.to == to && g.weight == 1.0 && g.enabled
      && (forall k :: k in cat ==> k in c' && c'[k] == cat[k])
      && (forall k :: k in c' ==> k in cat || c'[k] == g)
      && |c'| >= |cat|
  {
  }

  /** Every lookup keeps the catalogue numbered 1..n, never drops an entry, and
      returns a number from 1..n. */
  lemma LookupPreservesNumbering(cat: Catalogue, from: NodeGene, to: NodeGene)
    requires CatalogueNumbered(cat)
    ensures CatalogueNumbered(Lookup(cat, from, to).1)
    ensures cat.Keys <= Lookup(cat, from, to).1.Keys
    ensures Lookup(cat, from, to).0.innovationNumber in UpTo(|Lookup(cat, from, to).1|)
  {
    var h := CalculateHashCode(from, to);
    if h !in cat {
      var g := Lookup(cat, from, to).0;
      InsertKeepsNumbered(cat, h, g);
    } else {
      assert cat[h].innovationNumber in Innovations(cat);
    }
  }

  /** Recording a gene numbered size + 1 under its own, unused pair hash keeps
      the catalogue numbered. */
  lemma InsertKeepsNumbered(cat: Catalogue, h: nat, g: ConnectionGene)
    requires CatalogueNumbered(cat)
    requires h !in cat && h == ConnectionGenes.HashCode(g) && g.innovationNumber == |cat| + 1
    ensures CatalogueNumbered(cat[h := g])
  {
    InsertKeepsUpTo(cat, h, g);
    InsertKeepsNumbersDistinct(cat, h, g);
  }

  /** The numbers in use stay exactly 1..n after recording number n. */
  lemma InsertKeepsUpTo(cat: Catalogue, h: nat, g: ConnectionGene)
    requires Innovations(cat) == UpTo(|cat|)
    requires h !in cat && g.innovationNumber == |cat| + 1
    ensures Innovations(cat[h := g]) == UpTo(|cat[h := g]|)
  {
    assert |cat[h := g]| == |cat| + 1;
    InnovationsOfInsert(cat, h, g);
    assert UpTo(|cat| + 1) == UpTo(|cat|) + {|cat| + 1};
  }

  /** A number beyond every number in use keeps the numbers distinct. */
  lemma InsertKeepsNumbersDistinct(cat: Catalogue, h: nat, g: ConnectionGene)
    requires forall k1, k2 :: k1 in cat && k2 in cat && k1 != k2 ==>
      cat[k1].innovationNumber != cat[k2].innovationNumber
    requires Innovations(cat) == UpTo(|cat|)
    requires h !in cat && g.innovationNumber == |cat| + 1
    ensures var c' := cat[h := g];
      forall k1, k2 :: k1 in c' && k2 in c' && k1 != k2 ==> c'[k1].innovationNumber != c'[k2].innovationNumber
  {
    var c' := cat[h := g];
    forall k1, k2 | k1 in c' && k2 in c' && k1 != k2
      ensures c'[k1].innovationNumber != c'[k2].innovationNumber
    {
      if k1 == h {
        assert c'[k2].innovationNumber in Innovations(cat);
      } else if k2 == h {
        assert c'[k1].innovationNumber in Innovations(cat);
      }
    }
  }

  /** (a, b) and (b, a) are distinct entries: looked up one after the other they
      receive different innovation numbers. */
  lemma LookupDirectional(cat: Catalogue, a: NodeGene, b: NodeGene)
    requires CatalogueNumbered(cat)
    requires a.innovationNumber < MAX_NODES && b.innovationNumber < MAX_NODES
    requires a.innovationNumber != b.innovationNumber
    ensures var (g1, c1) := Lookup(cat, a, b);
            var (g2, _) := Lookup(c1, b, a);
            g1.innovationNumber != g2.innovationNumber
  {
    var (g1, c1) := Lookup(cat, a, b);
    var h1, h2 := CalculateHashCode(a, b), CalculateHashCode(b, a);
    HashCodeDirectional(a, b);
    LookupPreservesNumbering(cat, a, b);
    assert h1 in c1 && c1[h1].innovationNumber == g1.innovationNumber;
    var g2 := Lookup(c1, b, a).0;
    if h2 in c1 {
      assert g2.innovationNumber == c1[h2].innovationNumber;
    } else {
      assert g2.innovationNumber == |c1| + 1;
      assert g1.innovationNumber in UpTo(|c1|);
    }
  }

  // ---------------------------------------------------------------------------
  // The registry as the source has it.

  class Neat {
    var allConnections: Catalogue
    var allNodes: seq<NodeGene>
    var inputSize: nat
    var outputSize: nat
    var populationSize: nat

    /** What every method keeps: both catalogues numbered, and the input and
        output nodes present. */
    ghost predicate Valid()
      reads this
    {
      && NodesNumbered(allNodes)
      && CatalogueNumbered(allConnections)
      && inputSize + outputSize <= |allNodes|
    }

    /** `Neat::new` resets a blank registry. */
    constructor (inputSize: nat, outputSize: nat, populationSize: nat)
      ensures Valid()
      ensures allNodes == InitialNodes(inputSize, outputSize) && allConnections == map[]
      ensures this.inputSize == inputSize && this.outputSize == outputSize
      ensures this.populationSize == populationSize
    {
      this.allConnections := map[];
      this.allNodes := [];
      this.inputSize := inputSize;
      this.outputSize := outputSize;
      this.populationSize := populationSize;
      new;
      Reset(inputSize, outputSize, populationSize);
    }

    /** `reset`: clears both catalogues and recreates the input and output nodes. */
    method Reset(input: nat, output: nat, population: nat)
      modifies this
      ensures Valid()
      ensures allNodes == InitialNodes(input, output) && allConnections == map[]
      ensures inputSize == input && outputSize == output && populationSize == population
    {
      inputSize := input;
      outputSize := output;
      populationSize := population;
      allConnections := map[];
      allNodes := [];
      CreateColumn(0.1, input);
      CreateColumn(0.9, output);
      InitialNodesLayout(input, output);
    }

    /** One loop of `reset`: `count` nodes created at x, the k-th at
        y = (k + 1) / (count + 1). */
    method CreateColumn(x: real, count: nat)
      modifies this`allNodes
      ensures allNodes == old(allNodes) + Column(|old(allNodes)|, count, x)
    {
      ghost var start := |allNodes|;
      var k := 0;
      while k < count
        invariant k <= count
        invariant allNodes == old(allNodes) + Column(start, count, x)[..k]
      {
        var _ := CreateNode(x, (k + 1) as real / (count + 1) as real);
        assert Column(start, count, x)[..k + 1] == Column(start, count, x)[..k] + [Column(start, count, x)[k]];
        k := k + 1;
      }
      assert Column(start, count, x)[..count] == Column(start, count, x);
    }

    /** `create_node`: appends a node numbered one past the list and returns it. */
    method CreateNode(x: real, y: real) returns (node: NodeGene)
      modifies this`allNodes
      ensures node == CreatedNode(old(allNodes), x, y)
      ensures allNodes == old(allNodes) + [node]
      ensures old(Valid()) ==> Valid()
    {
      node := NodeGene(|allNodes| + 1, x, y);
      if NodesNumbered(allNodes) {
        CreatedNodeIsFresh(allNodes, x, y);
      }
      allNodes := allNodes + [node];
    }

    /** `get_node`, off-by-one included. */
    method GetNode(index: nat) returns (r: Outcome<NodeGene>)
      modifies this`allNodes
      ensures (r, allNodes) == GetNodeAsWritten(old(allNodes), index)
      ensures old(Valid()) ==> Valid()
    {
      if index <= |allNodes| {
        if index < |allNodes| {
          r := Returned(allNodes[index]);
        } else {
          r := Panicked("index out of bounds");
        }
      } else {
        var node := CreateNode(0.0, 0.0);
        r := Returned(node);
      }
    }

    /** `get_connection`. */
    method GetConnection(from: NodeGene, to: NodeGene) returns (gene: ConnectionGene)
      modifies this`allConnections
      ensures (gene, allConnections) == Lookup(old(allConnections), from, to)
      ensures old(Valid()) ==> Valid()
    {
      if Valid() {
        LookupPreservesNumbering(allConnections, from, to);
      }
      gene := ConnectionGenes.New(from, to);
      var h := ConnectionGenes.HashCode(gene);
      if h in allConnections {
        gene := gene.(innovationNumber := allConnections[h].innovationNumber);
      } else {
        gene := gene.(innovationNumber := |allConnections| + 1);
        allConnections := allConnections[h := gene];
      }
    }
  }
}

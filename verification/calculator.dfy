/** The evaluator built from a genome: its nodes split by x into input, output
    and hidden groups, the hidden group sorted by x.

    A calculator node keeps its x and its output. The connections that
    `Calculator::new` builds are pushed onto copies of the nodes held in a local
    map, so the nodes the calculator keeps never have any: calculating a hidden
    or output node always sums nothing, and the sigmoid of 0 is 0.5. */
module Calculators {
  import opened Wrappers
  import opened NodeGenes
  import opened ConnectionGenes
  import opened Registry

  /** A calculator node: its x and its output. */
  datatype CalcNode = CalcNode(x: real, output: real)

  /** The three groups of `Calculator::new`. */
  datatype Group = Input | Output | Hidden

  /** The output of a node whose incoming sum is 0: 1 / (1 + e^0). */
  const SIGMOID_AT_ZERO: real := 0.5

  /** The group a node with this x joins: input at x <= 0.1, output at
      x >= 0.9, hidden in between. */
  function GroupOf(x: real): (g: Group)
    ensures g == Input <==> x <= 0.1
    ensures g == Output <==> 0.1 < x && x >= 0.9
    ensures g == Hidden <==> 0.1 < x < 0.9
  {
    if x <= 0.1 then Input else if x >= 0.9 then Output else Hidden
  }

  /** `Node::new(x)`: output 0. */
  function NodeFor(gene: NodeGene): (n: CalcNode)
    ensures n.x == gene.x && n.output == 0.0
  {
    CalcNode(gene.x, 0.0)
  }

  /** The nodes of group g, in the order of the genes. */
  function Members(genes: seq<NodeGene>, g: Group): seq<CalcNode>
  {
    if genes == [] then []
    else
      var last := genes[|genes| - 1];
      Members(genes[..|genes| - 1], g) + (if GroupOf(last.x) == g then [NodeFor(last)] else [])
  }

  /** x does not decrease along the sequence. */
  predicate SortedByX(s: seq<CalcNode>)
  {
    forall i, j :: 0 <= i < j < |s| ==> s[i].x <= s[j].x
  }

  /** The innovation numbers the node map of `Calculator::new` has keys for. */
  function Numbers(genes: seq<NodeGene>): set<nat>
  {
    set gene | gene in genes :: gene.innovationNumber
  }

  /** Every connection starts and ends at a node the genome holds; otherwise
      the lookup in the node map panics. */
  predicate EndpointsKnown(connections: seq<ConnectionGene>, genes: seq<NodeGene>)
  {
    forall c :: c in connections ==>
      c.from.innovationNumber in Numbers(genes) && c.to.innovationNumber in Numbers(genes)
  }

  /** The input nodes after `calculate` loads the inputs: node i outputs inputs[i]. */
  function Loaded(nodes: seq<CalcNode>, inputs: seq<real>): (r: seq<CalcNode>)
    requires |nodes| == |inputs|
    ensures |r| == |nodes|
    ensures forall i :: 0 <= i < |r| ==> r[i].output == inputs[i] && r[i].x == nodes[i].x
  {
    seq(|nodes|, i requires 0 <= i < |nodes| => nodes[i].(output := inputs[i]))
  }

  /** The nodes after each is calculated over no connections. */
  function Activated(nodes: seq<CalcNode>): (r: seq<CalcNode>)
    ensures |r| == |nodes|
    ensures forall i :: 0 <= i < |r| ==> r[i].output == SIGMOID_AT_ZERO && r[i].x == nodes[i].x
  {
    seq(|nodes|, i requires 0 <= i < |nodes| => nodes[i].(output := SIGMOID_AT_ZERO))
  }

  // ---------------------------------------------------------------------------
  // Lemmas

  /** One more gene adds its node to its own group only. */
  lemma MembersSnoc(init: seq<NodeGene>, last: NodeGene, g: Group)
    ensures Members(init + [last], g)
         == Members(init, g) + (if GroupOf(last.x) == g then [NodeFor(last)] else [])
  {
    assert (init + [last])[..|init|] == init;
  }

  /** The group sizes add up to the number of nodes. */
  lemma {:induction false} PartitionSizes(genes: seq<NodeGene>)
    ensures |Members(genes, Input)| + |Members(genes, Output)| + |Members(genes, Hidden)| == |genes|
  {
    if genes != [] {
      var init, last := genes[..|genes| - 1], genes[|genes| - 1];
      assert genes == init + [last];
      PartitionSizes(init);
      MembersSnoc(init, last, Input);
      MembersSnoc(init, last, Output);
      MembersSnoc(init, last, Hidden);
    }
  }

  /** Every member of a group satisfies that group's bound and starts at output 0. */
  lemma {:induction false} MembersInGroup(genes: seq<NodeGene>, g: Group)
    ensures forall n :: n in Members(genes, g) ==> GroupOf(n.x) == g && n.output == 0.0
  {
    if genes != [] {
      var init, last := genes[..|genes| - 1], genes[|genes| - 1];
      assert genes == init + [last];
      MembersInGroup(init, g);
      MembersSnoc(init, last, g);
    }
  }

  /** Every gene's node lands in the group its x names. */
  lemma {:induction false} GeneInItsGroup(genes: seq<NodeGene>)
    ensures forall gene :: gene in genes ==> NodeFor(gene) in Members(genes, GroupOf(gene.x))
  {
    if genes != [] {
      var init, last := genes[..|genes| - 1], genes[|genes| - 1];
      assert genes == init + [last];
      GeneInItsGroup(init);
      forall gene | gene in genes ensures NodeFor(gene) in Members(genes, GroupOf(gene.x)) {
        MembersSnoc(init, last, GroupOf(gene.x));
        if gene != last {
          assert gene in init;
        }
      }
    }
  }

  /** Each node lands in exactly the group its x names, so the group sizes add
      up to the number of nodes and every member satisfies its group's bound. */
  lemma Partition(genes: seq<NodeGene>)
    ensures |Members(genes, Input)| + |Members(genes, Output)| + |Members(genes, Hidden)| == |genes|
    ensures forall g, n :: n in Members(genes, g) ==> GroupOf(n.x) == g && n.output == 0.0
    ensures forall gene :: gene in genes ==> NodeFor(gene) in Members(genes, GroupOf(gene.x))
  {
    PartitionSizes(genes);
    MembersInGroup(genes, Input);
    MembersInGroup(genes, Output);
    MembersInGroup(genes, Hidden);
    GeneInItsGroup(genes);
  }

  /** The groups keep the genes' order: splitting the genes splits each group. */
  lemma {:induction false} MembersAppend(a: seq<NodeGene>, b: seq<NodeGene>, g: Group)
    ensures Members(a + b, g) == Members(a, g) + Members(b, g)
    decreases |b|
  {
    if b == [] {
      assert a + b == a;
    } else {
      var init, last := b[..|b| - 1], b[|b| - 1];
      assert (a + b)[..|a + b| - 1] == a + init;
      MembersAppend(a, init, g);
    }
  }

  /** A sorted sequence with the multiset of two nodes at different x is the
      two in ascending order. */
  lemma SortedPairIsOrdered(r: seq<CalcNode>, lo: CalcNode, hi: CalcNode)
    requires lo.x < hi.x
    requires SortedByX(r) && multiset(r) == multiset([hi, lo])
    ensures r == [lo, hi]
  {
    assert |r| == |multiset(r)| == 2;
    assert r == [r[0], r[1]];
    assert r[0].x <= r[1].x;
  }

  /** Genes that all fall in group g form group g in order, and the other
      groups are empty. */
  lemma {:induction false} MembersOfOneGroup(genes: seq<NodeGene>, g: Group)
    requires forall gene :: gene in genes ==> GroupOf(gene.x) == g
    ensures |Members(genes, g)| == |genes|
    ensures forall h :: h != g ==> Members(genes, h) == []
  {
    if genes != [] {
      assert genes[..|genes| - 1] <= genes;
      MembersOfOneGroup(genes[..|genes| - 1], g);
    }
  }

  /** A genome holding the registry's initial nodes splits into all its
      inputs, all its outputs and no hidden node, as the calculator test
      expects. */
  lemma InitialGroups(input: nat, output: nat)
    ensures var genes := InitialNodes(input, output);
      && |Members(genes, Input)| == input
      && |Members(genes, Output)| == output
      && Members(genes, Hidden) == []
  {
    var genes := InitialNodes(input, output);
    InitialNodesLayout(input, output);
    var ins, outs := genes[..input], genes[input..];
    assert genes == ins + outs;
    forall gene | gene in ins ensures GroupOf(gene.x) == Input {
      var k :| 0 <= k < |ins| && ins[k] == gene;
      assert genes[k] == gene;
    }
    forall gene | gene in outs ensures GroupOf(gene.x) == Output {
      var k :| 0 <= k < |outs| && outs[k] == gene;
      assert genes[input + k] == gene;
    }
    MembersOfOneGroup(ins, Input);
    MembersOfOneGroup(outs, Output);
    MembersAppend(ins, outs, Input);
    MembersAppend(ins, outs, Output);
    MembersAppend(ins, outs, Hidden);
  }

  /** Continuing the calculator test: to genes with no hidden node, a node at
      x = 0.5 adds the one hidden node, and a further node at x = 0.3 sorts
      before it. */
  lemma HiddenAdditions(genes: seq<NodeGene>, a: NodeGene, b: NodeGene)
    requires Members(genes, Hidden) == []
    requires a.x == 0.5 && b.x == 0.3
    ensures Members(genes + [a], Hidden) == [NodeFor(a)]
    ensures forall r ::
      SortedByX(r) && multiset(r) == multiset(Members(genes + [a, b], Hidden)) ==> r == [NodeFor(b), NodeFor(a)]
  {
    MembersAppend(genes, [a], Hidden);
    assert [a][..0] == [];
    MembersAppend(genes, [a, b], Hidden);
    assert [a, b][..1] == [a];
    assert Members(genes + [a, b], Hidden) == [NodeFor(a), NodeFor(b)];
    forall r | SortedByX(r) && multiset(r) == multiset(Members(genes + [a, b], Hidden))
      ensures r == [NodeFor(b), NodeFor(a)]
    {
      SortedPairIsOrdered(r, NodeFor(b), NodeFor(a));
    }
  }

  /** Inserting a node after every node with no larger x, and before the first
      with a larger one, keeps the sequence sorted and adds exactly that node. */
  lemma InsertKeepsSorted(s: seq<CalcNode>, p: nat, n: CalcNode)
    requires SortedByX(s) && p <= |s|
    requires forall i :: 0 <= i < p ==> s[i].x <= n.x
    requires p < |s| ==> n.x < s[p].x
    ensures SortedByX(s[..p] + [n] + s[p..])
  {
    var r := s[..p] + [n] + s[p..];
    assert |r| == |s| + 1;
    assert forall i :: 0 <= i < p ==> r[i] == s[i];
    assert r[p] == n;
    assert forall i :: p < i < |r| ==> r[i] == s[i - 1];
    forall i, j | 0 <= i < j < |r| ensures r[i].x <= r[j].x {
      if j <= p {
      } else if i < p {
        assert s[i].x <= s[j - 1].x;
      } else if i == p {
        assert s[p].x <= s[j - 1].x;
      } else {
        assert s[i - 1].x <= s[j - 1].x;
      }
    }
  }

  /** Inserting a node anywhere adds exactly that node. */
  lemma InsertAddsNode(s: seq<CalcNode>, p: nat, n: CalcNode)
    requires p <= |s|
    ensures multiset(s[..p] + [n] + s[p..]) == multiset(s) + multiset{n}
  {
    assert s == s[..p] + s[p..];
  }

  // ---------------------------------------------------------------------------
  // The evaluator as the source holds it

  class Calculator {
    var inputNodes: seq<CalcNode>
    var outputNodes: seq<CalcNode>
    var hiddenNodes: seq<CalcNode>

    constructor (inputNodes: seq<CalcNode>, outputNodes: seq<CalcNode>, hiddenNodes: seq<CalcNode>)
      ensures this.inputNodes == inputNodes && this.outputNodes == outputNodes
      ensures this.hiddenNodes == hiddenNodes
    {
      this.inputNodes := inputNodes;
      this.outputNodes := outputNodes;
      this.hiddenNodes := hiddenNodes;
    }

    /** `calculate`: an input vector of the wrong length is an error that
        touches nothing. Otherwise the inputs are loaded into the input nodes
        and every hidden node is calculated; the output loop then writes into
        an empty vector, which panics as soon as there is an output node. */
    method Calculate(inputs: seq<real>) returns (r: Outcome<Result<seq<real>>>)
      modifies this
      ensures r == Returned(Err("inputs is not the same length as the input nodes"))
          <==> |inputs| != |old(inputNodes)|
      ensures |inputs| != |old(inputNodes)| ==>
        inputNodes == old(inputNodes) && hiddenNodes == old(hiddenNodes) && outputNodes == old(outputNodes)
      ensures |inputs| == |old(inputNodes)| ==>
        && inputNodes == Loaded(old(inputNodes), inputs)
        && hiddenNodes == Activated(old(hiddenNodes))
        && (old(outputNodes) == [] ==> r == Returned(Ok([])) && outputNodes == [])
        && (old(outputNodes) != [] ==>
              r.Panicked? && outputNodes == old(outputNodes)[0 := old(outputNodes)[0].(output := SIGMOID_AT_ZERO)])
    {
      if |inputs| != |inputNodes| {
        return Returned(Err("inputs is not the same length as the input nodes"));
      }
      LoadInputs(inputs);
      ActivateHidden();
      var output: seq<real> := [];
      if 0 < |outputNodes| {
        outputNodes := outputNodes[0 := outputNodes[0].(output := SIGMOID_AT_ZERO)];
        return Panicked("index out of bounds: the len is 0 but the index is 0");
      }
      r := Returned(Ok(output));
    }

    /** The input loop of `calculate`: input node i takes inputs[i]. */
    method LoadInputs(inputs: seq<real>)
      requires |inputs| == |inputNodes|
      modifies this`inputNodes
      ensures inputNodes == Loaded(old(inputNodes), inputs)
    {
      var i := 0;
      while i < |inputNodes|
        invariant i <= |inputNodes| == |old(inputNodes)|
        invariant forall j :: 0 <= j < i ==> inputNodes[j] == old(inputNodes)[j].(output := inputs[j])
        invariant forall j :: i <= j < |inputNodes| ==> inputNodes[j] == old(inputNodes)[j]
      {
        inputNodes := inputNodes[i := inputNodes[i].(output := inputs[i])];
        i := i + 1;
      }
    }

    /** The hidden loop of `calculate`: each hidden node is calculated over its
        (absent) connections. */
    method ActivateHidden()
      modifies this`hiddenNodes
      ensures hiddenNodes == Activated(old(hiddenNodes))
    {
      var k := 0;
      while k < |hiddenNodes|
        invariant k <= |hiddenNodes| == |old(hiddenNodes)|
        invariant forall j :: 0 <= j < k ==> hiddenNodes[j] == old(hiddenNodes)[j].(output := SIGMOID_AT_ZERO)
        invariant forall j :: k <= j < |hiddenNodes| ==> hiddenNodes[j] == old(hiddenNodes)[j]
      {
        hiddenNodes := hiddenNodes[k := hiddenNodes[k].(output := SIGMOID_AT_ZERO)];
        k := k + 1;
      }
    }
  }

  /** `Calculator::new`: the genome's nodes split into the three groups, the
      hidden group sorted by x; a connection whose endpoint the genome does
      not hold panics. */
  method NewCalculator(genes: seq<NodeGene>, connections: seq<ConnectionGene>) returns (r: Outcome<Calculator>)
    ensures r.Panicked? <==> !EndpointsKnown(connections, genes)
    ensures r.Returned? ==>
      && fresh(r.value)
      && r.value.inputNodes == Members(genes, Input)
      && r.value.outputNodes == Members(genes, Output)
      && SortedByX(r.value.hiddenNodes)
      && multiset(r.value.hiddenNodes) == multiset(Members(genes, Hidden))
  {
    var inputNodes, outputNodes, hiddenNodes := [], [], [];
    var nodeMap: map<nat, CalcNode> := map[];
    var k := 0;
    while k < |genes|
      invariant k <= |genes|
      invariant inputNodes == Members(genes[..k], Input)
      invariant outputNodes == Members(genes[..k], Output)
      invariant hiddenNodes == Members(genes[..k], Hidden)
      invariant nodeMap.Keys == Numbers(genes[..k])
    {
      var gene := genes[k];
      assert genes[..k + 1][..k] == genes[..k];
      assert genes[..k + 1] == genes[..k] + [gene];
      var node := NodeFor(gene);
      nodeMap := nodeMap[gene.innovationNumber := node];
      if gene.x <= 0.1 {
        inputNodes := inputNodes + [node];
      } else if gene.x >= 0.9 {
        outputNodes := outputNodes + [node];
      } else {
        hiddenNodes := hiddenNodes + [node];
      }
      k := k + 1;
    }
    assert genes[..k] == genes;
    var members := hiddenNodes;
    hiddenNodes := SortByX(hiddenNodes);
    var c := 0;
    while c < |connections|
      invariant c <= |connections|
      invariant EndpointsKnown(connections[..c], genes)
    {
      var connection := connections[c];
      if connection.from.innovationNumber !in nodeMap || connection.to.innovationNumber !in nodeMap {
        assert connection in connections;
        return Panicked("Node in connection but not in hashmap");
      }
      assert connections[..c + 1] == connections[..c] + [connection];
      c := c + 1;
    }
    assert connections[..c] == connections;
    var calculator := new Calculator(inputNodes, outputNodes, hiddenNodes);
    r := Returned(calculator);
  }

  /** The sort of the hidden group: each node inserted after every node with
      an x no larger than its own. */
  method SortByX(nodes: seq<CalcNode>) returns (sorted: seq<CalcNode>)
    ensures SortedByX(sorted)
    ensures multiset(sorted) == multiset(nodes)
  {
    sorted := [];
    var k := 0;
    while k < |nodes|
      invariant k <= |nodes|
      invariant SortedByX(sorted)
      invariant multiset(sorted) == multiset(nodes[..k])
    {
      var node := nodes[k];
      var p := SlotFor(sorted, node.x);
      InsertKeepsSorted(sorted, p, node);
      InsertAddsNode(sorted, p, node);
      assert nodes[..k + 1] == nodes[..k] + [node];
      sorted := sorted[..p] + [node] + sorted[p..];
      k := k + 1;
    }
    assert nodes[..k] == nodes;
  }

  /** Where `SortByX` inserts a node at x: past every node with no larger x. */
  method SlotFor(sorted: seq<CalcNode>, x: real) returns (p: nat)
    ensures p <= |sorted|
    ensures forall i :: 0 <= i < p ==> sorted[i].x <= x
    ensures p < |sorted| ==> x < sorted[p].x
  {
    p := 0;
    while p < |sorted| && sorted[p].x <= x
      invariant p <= |sorted|
      invariant forall i :: 0 <= i < p ==> sorted[i].x <= x
    {
      p := p + 1;
    }
  }
}

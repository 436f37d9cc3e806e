/** The genome: a connection collection and a node collection, changed in
    place by the mutation operators and read by `distance` and `crossover`.
    Every method here is proved equal to the function of the `Alignment` or
    `Mutations` module that specifies it; the properties of those functions
    are proved there. */
module Genomes {
  import opened Wrappers
  import opened NodeGenes
  import opened ConnectionGenes
  import opened RandomHashSets
  import opened Registry
  import opened Alignment
  import opened Mutations

  class Genome {
    const connections: RandomHashSet<ConnectionGene>
    const nodes: RandomHashSet<NodeGene>

    /** What every operation keeps: the connection collection agrees in size
        (so `len` is the vector's length) and the node collection is
        consistent. */
    ghost predicate Valid()
      reads this, connections, nodes
    {
      connections.State().SizesAgree() && nodes.State().Consistent()
    }

    /** The genome together with a registry, as the mutation functions see it. */
    function WorldWith(neat: Neat): World
      reads this, connections, nodes, neat
    {
      World(connections.State(), nodes.State(), neat.allNodes, neat.allConnections)
    }

    /** `Genome::new`: both collections empty. */
    constructor ()
      ensures Valid()
      ensures connections.State() == Empty() && nodes.State() == Empty()
      ensures fresh(connections) && fresh(nodes)
    {
      connections := new RandomHashSet();
      nodes := new RandomHashSet();
      new;
      ClearIsConsistent<NodeGene>();
    }

    /** `highest_innov_num` reads the element at position `len`, one past the
        last whenever the collection agrees in size; so it is 0 then. */
    function HighestInnovNum(): (r: nat)
      reads this, connections
      ensures connections.State().SizesAgree() ==> r == 0
      ensures r != 0 ==> |connections.members| < |connections.data|
    {
      if |connections.members| < |connections.data| then connections.data[|connections.members|].innovationNumber
      else 0
    }

    /** `order_genomes`: the pair reordered so the first has the higher
        innovation number, ties keeping the given order. */
    static function OrderGenomes(g1: Genome, g2: Genome): (r: (Genome, Genome))
      reads g1, g1.connections, g2, g2.connections
      ensures r == (g1, g2) || r == (g2, g1)
      ensures r.0.HighestInnovNum() >= r.1.HighestInnovNum()
      ensures g1.HighestInnovNum() == g2.HighestInnovNum() ==> r == (g1, g2)
    {
      if g1.HighestInnovNum() < g2.HighestInnovNum() then (g2, g1) else (g1, g2)
    }

    /** `add_connection`: the nodes at the two positions are looked up in the
        registry and the gene added; a position past the node vector panics
        before the registry is consulted. */
    method AddConnection(neat: Neat, index1: nat, index2: nat) returns (r: Outcome<()>)
      requires Valid()
      modifies connections, neat`allConnections
      ensures Valid()
      ensures old(neat.Valid()) ==> neat.Valid()
      ensures r.Panicked? <==> index1 >= |nodes.data| || index2 >= |nodes.data|
      ensures r.Panicked? ==>
        connections.State() == old(connections.State()) && neat.allConnections == old(neat.allConnections)
      ensures r.Returned? ==>
        var (g, cat) := Lookup(old(neat.allConnections), nodes.data[index1], nodes.data[index2]);
        connections.State() == WithAdded(old(connections.State()), g) && neat.allConnections == cat
    {
      var n1 := nodes.Get(index1);
      if n1.None? {
        return Panicked("Failed to find node in genome with index1");
      }
      var n2 := nodes.Get(index2);
      if n2.None? {
        return Panicked("Failed to find node in genome with index2");
      }
      var g := neat.GetConnection(n1.value, n2.value);
      connections.Add(g);
      AddPreservesSizesAgree(old(connections.State()), g);
      r := Returned(());
    }

    /** `distance`: the two connection lists walked side by side, the first
        genome taken as the one `order_genomes` puts first. */
    static method Distance(input1: Genome, input2: Genome, c1: real, c2: real, c3: real) returns (d: real)
      requires input1.Valid() && input2.Valid()
      ensures d == DistanceOf(input1.connections.data, input2.connections.data, c1, c2, c3)
    {
      var e1 := input1.connections.IsEmpty();
      var e2 := input2.connections.IsEmpty();
      if e1 && e2 {
        return 0.0;
      }
      var (genome1, genome2) := OrderGenomes(input1, input2);
      var s1, s2 := genome1.connections.data, genome2.connections.data;
      var len1 := genome1.connections.Len();
      var len2 := genome2.connections.Len();
      var index1, index2 := 0, 0;
      var disjoint, similar := 0, 0;
      var totalDiff := 0.0;
      while index1 < len1 && index2 < len2
        invariant index1 <= |s1| && index2 <= |s2|
        invariant var w := WalkFrom(s1, s2, index1, index2);
          WalkFrom(s1, s2, 0, 0)
            == Walk(w.end1, w.end2, disjoint + w.disjoint, similar + w.matching, totalDiff + w.weightDiff)
        decreases |s1| - index1 + |s2| - index2
      {
        var o1 := genome1.connections.Get(index1);
        var o2 := genome2.connections.Get(index2);
        var in1, in2 := o1.value.innovationNumber, o2.value.innovationNumber;
        if in1 == in2 {
          totalDiff := totalDiff + Abs(o1.value.weight - o2.value.weight);
          similar := similar + 1;
          index1, index2 := index1 + 1, index2 + 1;
        } else if in1 > in2 {
          index2 := index2 + 1;
          disjoint := disjoint + 1;
        } else {
          index1 := index1 + 1;
          disjoint := disjoint + 1;
        }
      }
      var average := if similar == 0 then 0.0 else totalDiff / similar as real;
      var excess := len1 - index1;
      var totalGenes := (if len1 >= len2 then len1 else len2) as real;
      if totalGenes < 20.0 {
        totalGenes := 1.0;
      }
      d := Formula(disjoint, excess, totalGenes, average, c1, c2, c3);
      ghost var w := WalkFrom(s1, s2, 0, 0);
      assert w == Walk(index1, index2, disjoint, similar, totalDiff);
      assert totalGenes == Normaliser(|s1|, |s2|) && average == AverageDiff(w) && excess == |s1| - w.end1;
    }

    /** `crossover`: the child starts as the registry's empty genome, inherits
        matching genes from the parent the coin names (`pickFirst` at the first
        parent's position), the first parent's disjoint and excess genes, and
        then every endpoint of its connections as a node. */
    static method Crossover(neat: Neat, input1: Genome, input2: Genome, pickFirst: nat -> bool)
      returns (child: Genome)
      requires neat.Valid() && input1.Valid() && input2.Valid()
      modifies neat`allNodes
      ensures neat.allNodes == old(neat.allNodes) && neat.Valid()
      ensures fresh(child) && fresh(child.connections) && fresh(child.nodes)
      ensures child.Valid()
      ensures child.connections.State()
           == AddAll(Empty(), InheritedFrom(input1.connections.data, input2.connections.data, 0, 0, pickFirst))
      ensures child.nodes.State()
           == AddAll(AddAll(Empty(), neat.allNodes[..neat.inputSize + neat.outputSize]),
                     Endpoints(child.connections.data))
    {
      var (genome1, genome2) := OrderGenomes(input1, input2);
      child := EmptyGenome(neat);
      InheritConnections(child, genome1, genome2, pickFirst);
      AddAllPreservesSizesAgree(Empty<ConnectionGene>(),
        InheritedFrom(genome1.connections.data, genome2.connections.data, 0, 0, pickFirst));
      AddEndpointNodes(child);
    }

    /** The two connection loops of `crossover`. */
    static method InheritConnections(child: Genome, genome1: Genome, genome2: Genome, pickFirst: nat -> bool)
      requires genome1.Valid() && genome2.Valid()
      requires child.connections.State() == Empty()
      requires child.connections != genome1.connections && child.connections != genome2.connections
      modifies child.connections
      ensures child.connections.State()
           == AddAll(Empty(), InheritedFrom(genome1.connections.data, genome2.connections.data, 0, 0, pickFirst))
    {
      var s1, s2 := genome1.connections.data, genome2.connections.data;
      var index1, index2, produced := InheritAligned(child.connections, s1, s2, pickFirst);
      InheritExcess(child.connections, s1, index1, produced, InheritedFrom(s1, s2, 0, 0, pickFirst));
    }

    /** The node loop of `crossover`: both endpoints of every connection, in
        order, are added to the nodes. */
    static method AddEndpointNodes(child: Genome)
      requires child.nodes.State().Consistent()
      modifies child.nodes
      ensures child.nodes.State() == AddAll(old(child.nodes.State()), Endpoints(child.connections.data))
      ensures child.nodes.State().Consistent()
    {
      ghost var base := child.nodes.State();
      var cs := child.connections.data;
      var k := 0;
      while k < |cs|
        invariant k <= |cs|
        invariant child.nodes.State() == AddAll(base, Endpoints(cs[..k]))
      {
        var c := cs[k];
        assert cs[..k + 1] == cs[..k] + [c];
        child.nodes.Add(c.from);
        child.nodes.Add(c.to);
        AddEndpoints(base, cs[..k], c);
        k := k + 1;
      }
      assert cs[..k] == cs;
      AddAllConsistent(base, Endpoints(cs));
    }

    /** `mutate_link`: up to 100 attempts, each drawing two nodes; the first
        pair at different x whose probe gene is not in the collection is looked
        up in the registry and inserted in innovation order with weight
        `weight`. */
    method MutateLink(neat: Neat, draws: seq<(nat, nat)>, weight: real)
      requires Valid() && |draws| == 100
      modifies connections, neat`allConnections
      ensures Valid()
      ensures old(neat.Valid()) ==> neat.Valid()
      ensures WorldWith(neat) == LinkMutation(old(WorldWith(neat)), draws, weight)
    {
      var n := nodes.Len();
      if n <= 1 {
        return;
      }
      ghost var w := WorldWith(neat);
      ConsistentSizesAgree(nodes.State());
      var attempt := 0;
      while attempt < 100
        invariant attempt <= 100
        invariant WorldWith(neat) == w
        invariant FirstCandidate(nodes.data, connections.members, draws)
               == FirstCandidate(nodes.data, connections.members, draws[attempt..])
      {
        assert draws[attempt..][1..] == draws[attempt + 1..];
        var p1 := nodes.RandomElement(draws[attempt].0);
        var p2 := nodes.RandomElement(draws[attempt].1);
        var node1, node2 := nodes.data[p1.value], nodes.data[p2.value];
        if node1.x == node2.x {
          attempt := attempt + 1;
          continue;
        }
        var probe := if node1.x < node2.x then ConnectionGenes.New(node1, node2) else ConnectionGenes.New(node2, node1);
        var present := connections.Contains(probe);
        if present {
          attempt := attempt + 1;
          continue;
        }
        var g := neat.GetConnection(probe.from, probe.to);
        g := g.(weight := weight);
        connections.AddSorted(g, Innovation);
        AddSortedPreservesSizesAgree(w.connections, g, Innovation);
        return;
      }
    }

    /** `mutate_node`: the drawn connection is replaced by two through a new
        node halfway along it, its y moved by `jitter`. */
    method MutateNode(neat: Neat, pick: nat, jitter: real)
      requires Valid()
      modifies connections, nodes, neat`allNodes, neat`allConnections
      ensures Valid()
      ensures old(neat.Valid()) ==> neat.Valid()
      ensures WorldWith(neat) == NodeMutation(old(WorldWith(neat)), pick, jitter)
    {
      ghost var w := WorldWith(neat);
      var drawn := connections.RandomElement(pick);
      if drawn.Some? {
        var c := connections.data[drawn.value];
        var from, to := c.from, c.to;
        var x := (from.x + to.x) / 2.0;
        var y := (from.y + to.y) / 2.0 + jitter;
        var middle := neat.CreateNode(x, y);
        assert middle == Middle(w, c, jitter);
        var c1 := neat.GetConnection(from, middle);
        var c2 := neat.GetConnection(middle, to);
        c1 := c1.(weight := 1.0);
        c2 := c2.(weight := c.weight, enabled := c.enabled);
        assert SplitGenes(w, c, middle) == (c1, c2, neat.allConnections);
        var removed := connections.RemoveValue(c);
        ghost var rest := connections.State();
        assert rest == WithoutValue(w.connections, c).value.1;
        RemoveValuePreservesSizesAgree(w.connections, c);
        connections.Add(c1);
        connections.Add(c2);
        AddPreservesSizesAgree(rest, c1);
        AddPreservesSizesAgree(WithAdded(rest, c1), c2);
        nodes.Add(middle);
        AddPreservesConsistent(w.nodes, middle);
        assert NodeMutation(w, pick, jitter)
            == World(WithAdded(WithAdded(rest, c1), c2), WithAdded(w.nodes, middle), w.allNodes + [middle],
                     neat.allConnections);
      }
    }

    /** `mutate_weight_shift`: the drawn gene's weight moves by `shift`. */
    method MutateWeightShift(shift: real, pick: nat)
      requires Valid()
      modifies connections
      ensures Valid()
      ensures connections.State() == WithWeightShift(old(connections.State()), pick, shift)
    {
      var drawn := connections.RandomElement(pick);
      if drawn.Some? {
        var c := connections.data[drawn.value];
        connections.WriteElement(drawn.value, c.(weight := c.weight + shift));
      }
    }

    /** `mutate_weight_random`: the drawn gene's weight becomes `value`. */
    method MutateWeightRandom(value: real, pick: nat)
      requires Valid()
      modifies connections
      ensures Valid()
      ensures connections.State() == WithWeightRandom(old(connections.State()), pick, value)
    {
      var drawn := connections.RandomElement(pick);
      if drawn.Some? {
        var c := connections.data[drawn.value];
        connections.WriteElement(drawn.value, c.(weight := value));
      }
    }

    /** `mutate_link_toggle`: the drawn gene's enabled flag flips. */
    method MutateLinkToggle(pick: nat)
      requires Valid()
      modifies connections
      ensures Valid()
      ensures connections.State() == WithLinkToggle(old(connections.State()), pick)
    {
      var drawn := connections.RandomElement(pick);
      if drawn.Some? {
        var c := connections.data[drawn.value];
        connections.WriteElement(drawn.value, c.(enabled := !c.enabled));
      }
    }

    /** `mutate`: each operator runs when its probability exceeds its roll. */
    method Mutate(neat: Neat, d: MutationDraws)
      requires Valid() && |d.linkPairs| == 100
      modifies connections, nodes, neat`allNodes, neat`allConnections
      ensures Valid()
      ensures old(neat.Valid()) ==> neat.Valid()
      ensures WorldWith(neat) == Mutated(old(WorldWith(neat)), d)
    {
      ghost var w := WorldWith(neat);
      if PROB_MUTATE_LINK > d.linkRoll {
        MutateLink(neat, d.linkPairs, d.linkWeight);
      }
      assert WorldWith(neat) == MaybeLink(w, d);
      if PROB_MUTATE_NODE > d.nodeRoll {
        MutateNode(neat, d.nodePick, d.jitter);
      }
      assert WorldWith(neat) == MaybeNode(MaybeLink(w, d), d);
      if PROB_MUTATE_WEIGHT_SHIFT > d.shiftRoll {
        MutateWeightShift(d.shift, d.shiftPick);
      }
      assert WorldWith(neat) == MaybeShift(MaybeNode(MaybeLink(w, d), d), d);
      if PROB_MUTATE_WEIGHT_RANDOM > d.randomRoll {
        MutateWeightRandom(d.randomWeight, d.randomPick);
      }
      assert WorldWith(neat) == MaybeRandom(MaybeShift(MaybeNode(MaybeLink(w, d), d), d), d);
      if PROB_MUTATE_TOGGLE_LINK > d.toggleRoll {
        MutateLinkToggle(d.togglePick);
      }
    }
  }

  /** When the first parent's innovation numbers strictly ascend, the child
      holds exactly the inherited genes, in order, each once: `add` never
      skips one, and the child's innovation numbers are the first parent's. */
  lemma CrossoverChildConnections(s1: seq<ConnectionGene>, s2: seq<ConnectionGene>, pickFirst: nat -> bool)
    requires StrictlySorted(s1)
    ensures var inherited := InheritedFrom(s1, s2, 0, 0, pickFirst);
      && AddAll(Empty(), inherited).data == inherited
      && AddAll(Empty(), inherited).Consistent()
      && InnovationSequence(AddAll(Empty(), inherited).data) == InnovationSequence(s1)
      && StrictlySorted(AddAll(Empty(), inherited).data)
  {
    var inherited := InheritedFrom(s1, s2, 0, 0, pickFirst);
    CrossoverInnovations(s1, s2, pickFirst);
    assert NoDuplicates(inherited) by {
      forall i, j | 0 <= i < j < |inherited| ensures inherited[i] != inherited[j] {
        assert inherited[i].innovationNumber < inherited[j].innovationNumber;
      }
    }
    AddAllFresh(Empty(), inherited);
    AddAllConsistent(Empty(), inherited);
  }

  /** The child's nodes: each once, and exactly the registry's first nodes
      together with the endpoints of the child's connections. */
  lemma CrossoverChildNodes(base: seq<NodeGene>, cs: seq<ConnectionGene>)
    ensures var r := AddAll(AddAll(Empty(), base), Endpoints(cs));
      && r.Consistent()
      && forall n :: n in r.data <==> n in base || exists c :: c in cs && (n == c.from || n == c.to)
  {
    ClearIsConsistent<NodeGene>();
    AddAllConsistent(Empty(), base);
    AddAllConsistent(AddAll(Empty(), base), Endpoints(cs));
    EndpointsOfGenes(cs);
    var r := AddAll(AddAll(Empty(), base), Endpoints(cs));
    forall n ensures n in r.data <==> n in base || n in Endpoints(cs) {
      assert n in r.data <==> n in Elements(r.data);
      assert n in base <==> n in Elements(base);
      assert n in Endpoints(cs) <==> n in Elements(Endpoints(cs));
    }
  }

  /** The first connection loop of `crossover`, up to the end of either
      parent's list; `produced` is what it has added. */
  method InheritAligned(target: RandomHashSet<ConnectionGene>, s1: seq<ConnectionGene>, s2: seq<ConnectionGene>,
                        pickFirst: nat -> bool)
    returns (index1: nat, index2: nat, ghost produced: seq<ConnectionGene>)
    requires target.State() == Empty()
    modifies target
    ensures index1 <= |s1| && index2 <= |s2| && (index1 == |s1| || index2 == |s2|)
    ensures target.State() == AddAll(Empty(), produced)
    ensures produced + s1[index1..] == InheritedFrom(s1, s2, 0, 0, pickFirst)
  {
    ghost var all := InheritedFrom(s1, s2, 0, 0, pickFirst);
    produced := [];
    index1, index2 := 0, 0;
    while index1 < |s1| && index2 < |s2|
      invariant index1 <= |s1| && index2 <= |s2|
      invariant target.State() == AddAll(Empty(), produced)
      invariant produced + InheritedFrom(s1, s2, index1, index2, pickFirst) == all
      decreases |s1| - index1 + |s2| - index2
    {
      var connection1, connection2 := s1[index1], s2[index2];
      var in1, in2 := connection1.innovationNumber, connection2.innovationNumber;
      if in1 == in2 {
        var inherited := if pickFirst(index1) then connection1 else connection2;
        InheritStep(s1, s2, index1, index2, pickFirst, produced);
        target.Add(inherited);
        AddOneMore(produced, inherited);
        produced := produced + [inherited];
        index1, index2 := index1 + 1, index2 + 1;
      } else if in1 > in2 {
        index2 := index2 + 1;
      } else {
        InheritStep(s1, s2, index1, index2, pickFirst, produced);
        target.Add(connection1);
        AddOneMore(produced, connection1);
        produced := produced + [connection1];
        index1 := index1 + 1;
      }
    }
  }

  /** One step of the first loop of `crossover`, seen from what has been
      produced so far. */
  lemma InheritStep(s1: seq<ConnectionGene>, s2: seq<ConnectionGene>, i1: nat, i2: nat,
                    pickFirst: nat -> bool, produced: seq<ConnectionGene>)
    requires i1 < |s1| && i2 < |s2|
    ensures s1[i1].innovationNumber == s2[i2].innovationNumber ==>
      produced + InheritedFrom(s1, s2, i1, i2, pickFirst)
      == (produced + [if pickFirst(i1) then s1[i1] else s2[i2]]) + InheritedFrom(s1, s2, i1 + 1, i2 + 1, pickFirst)
    ensures s1[i1].innovationNumber < s2[i2].innovationNumber ==>
      produced + InheritedFrom(s1, s2, i1, i2, pickFirst)
      == (produced + [s1[i1]]) + InheritedFrom(s1, s2, i1 + 1, i2, pickFirst)
  {
  }

  /** The second connection loop of `crossover`: the first parent's excess. */
  method InheritExcess(target: RandomHashSet<ConnectionGene>, s1: seq<ConnectionGene>, from: nat,
                       ghost produced: seq<ConnectionGene>, ghost all: seq<ConnectionGene>)
    requires from <= |s1|
    requires target.State() == AddAll(Empty(), produced)
    requires produced + s1[from..] == all
    modifies target
    ensures target.State() == AddAll(Empty(), all)
  {
    var index1 := from;
    ghost var done := produced;
    while index1 < |s1|
      invariant index1 <= |s1|
      invariant target.State() == AddAll(Empty(), done)
      invariant done + s1[index1..] == all
    {
      var connection1 := s1[index1];
      assert s1[index1..] == [connection1] + s1[index1 + 1..];
      target.Add(connection1);
      AddOneMore(done, connection1);
      done := done + [connection1];
      index1 := index1 + 1;
    }
    assert done == all;
  }

  /** Adding one more value extends `AddAll` by one `add`. */
  lemma AddOneMore<T>(xs: seq<T>, v: T)
    ensures AddAll(Empty(), xs + [v]) == WithAdded(AddAll(Empty(), xs), v)
  {
    assert (xs + [v])[..|xs|] == xs;
  }

  /** Adding a gene's two endpoints extends `AddAll` over `Endpoints`. */
  lemma AddEndpoints(base: SetState<NodeGene>, cs: seq<ConnectionGene>, c: ConnectionGene)
    ensures AddAll(base, Endpoints(cs + [c])) == WithAdded(WithAdded(AddAll(base, Endpoints(cs)), c.from), c.to)
  {
    var e := Endpoints(cs);
    assert (cs + [c])[..|cs|] == cs;
    assert Endpoints(cs + [c]) == e + [c.from, c.to];
    assert (e + [c.from, c.to])[..|e| + 1] == e + [c.from];
    assert (e + [c.from])[..|e|] == e;
  }

  /** `empty_genome`: a genome holding the registry's first
      `input_size + output_size` nodes and no connections. */
  method EmptyGenome(neat: Neat) returns (genome: Genome)
    requires neat.Valid()
    modifies neat`allNodes
    ensures neat.allNodes == old(neat.allNodes) && neat.Valid()
    ensures fresh(genome) && fresh(genome.connections) && fresh(genome.nodes)
    ensures genome.Valid()
    ensures genome.connections.State() == Empty()
    ensures genome.nodes.State() == AddAll(Empty(), neat.allNodes[..neat.inputSize + neat.outputSize])
  {
    genome := new Genome();
    ghost var connections := genome.connections.State();
    AddRegistryNodes(genome.nodes, neat, neat.inputSize + neat.outputSize);
    assert genome.connections.State() == connections == Empty();
    AddAllConsistent(Empty<NodeGene>(), neat.allNodes[..neat.inputSize + neat.outputSize]);
  }

  /** The loop of `empty_genome`: the registry's nodes 0..n-1, each fetched
      with `get_node`, are added in order. */
  method AddRegistryNodes(target: RandomHashSet<NodeGene>, neat: Neat, n: nat)
    requires n <= |neat.allNodes|
    modifies target, neat`allNodes
    ensures neat.allNodes == old(neat.allNodes)
    ensures target.State() == AddAll(old(target.State()), neat.allNodes[..n])
  {
    ghost var base := target.State();
    var index := 0;
    while index < n
      invariant index <= n
      invariant neat.allNodes == old(neat.allNodes)
      invariant target.State() == AddAll(base, neat.allNodes[..index])
    {
      ghost var before := neat.allNodes;
      var node := neat.GetNode(index);
      assert node == Returned(before[index]) && neat.allNodes == before by {
        assert index < |before|;
      }
      AddAllSnoc(base, before, index);
      target.Add(node.value);
      index := index + 1;
    }
  }

  /** What `EmptyGenome` builds is a starting point for the mutation lemmas:
      no connections and the registry's first n nodes form a coherent world
      with any coherent registry. */
  lemma {:induction false} EmptyGenomeCoherent(allNodes: seq<NodeGene>, cat: Catalogue, n: nat)
    requires RegistryCoherent(allNodes, cat) && n <= |allNodes|
    ensures Coherent(World(Empty(), AddAll(Empty(), allNodes[..n]), allNodes, cat))
  {
    ClearIsConsistent<NodeGene>();
    AddAllConsistent(Empty(), allNodes[..n]);
    var nodes := AddAll(Empty<NodeGene>(), allNodes[..n]);
    forall v | v in nodes.members ensures 1 <= v.innovationNumber <= |allNodes| {
      assert v in Elements(allNodes[..n]);
      var i :| 0 <= i < n && allNodes[..n][i] == v;
      assert allNodes[i] == v;
    }
  }
}

/** The mutation operators of a genome as functions of a `World`: the genome's
    two collections together with the registry it draws node and connection
    genes from. Random draws are parameters. The `Genomes` module proves its
    in-place methods equal to these functions; here they are shown to keep the
    genome and registry coherent, in particular the connection list ordered by
    innovation number. */
module Mutations {
  import opened Wrappers
  import opened NodeGenes
  import opened ConnectionGenes
  import opened RandomHashSets
  import opened Registry
  import opened Alignment

  /** A genome and its registry. */
  datatype World = World(
    connections: SetState<ConnectionGene>,
    nodes: SetState<NodeGene>,
    allNodes: seq<NodeGene>,
    catalogue: Catalogue)

  /** Both endpoints are among the first n registry nodes. */
  predicate EndpointsWithin(c: ConnectionGene, n: nat)
  {
    c.from.innovationNumber <= n && c.to.innovationNumber <= n
  }

  /** The registry's own invariant, plus: every catalogued gene joins two of
      its nodes. */
  predicate RegistryCoherent(allNodes: seq<NodeGene>, cat: Catalogue)
  {
    && NodesNumbered(allNodes)
    && CatalogueNumbered(cat)
    && (forall k :: k in cat ==> EndpointsWithin(cat[k], |allNodes|))
  }

  /** Every gene in the collection joins two of the first n registry nodes
      (as far as the vector goes) and carries an innovation number up to m. */
  predicate GenesWithin(conns: SetState<ConnectionGene>, n: nat, m: nat)
  {
    && (forall c :: c in conns.data ==> EndpointsWithin(c, n) && c.innovationNumber <= m)
    && (forall c :: c in conns.members ==> c.innovationNumber <= m)
  }

  /** The node collection is consistent and holds registry nodes only. */
  predicate NodesWithin(nodes: SetState<NodeGene>, n: nat)
  {
    && nodes.Consistent()
    && (forall v :: v in nodes.members ==> 1 <= v.innovationNumber <= n)
  }

  /** What holds of a genome built only by the registry's operations: the
      registry is numbered, every gene the genome refers to was handed out by
      the registry, the connection collection agrees in size, and the
      connection list ascends by innovation number. */
  predicate Coherent(w: World)
  {
    && RegistryCoherent(w.allNodes, w.catalogue)
    && w.connections.SizesAgree()
    && GenesWithin(w.connections, |w.allNodes|, |w.catalogue|)
    && NodesWithin(w.nodes, |w.allNodes|)
    && SortedBy(w.connections.data, Innovation)
  }

  /** Looking up two registry nodes keeps the registry coherent and returns a
      gene between them numbered within the grown catalogue. */
  lemma LookupCoherent(allNodes: seq<NodeGene>, cat: Catalogue, from: NodeGene, to: NodeGene)
    requires RegistryCoherent(allNodes, cat)
    requires from.innovationNumber <= |allNodes| && to.innovationNumber <= |allNodes|
    ensures var (g, c') := Lookup(cat, from, to);
      && RegistryCoherent(allNodes, c')
      && EndpointsWithin(g, |allNodes|) && g.innovationNumber <= |c'|
      && |c'| >= |cat|
  {
    var (g, c') := Lookup(cat, from, to);
    LookupExtends(cat, from, to);
    LookupPreservesNumbering(cat, from, to);
    assert g.innovationNumber in UpTo(|c'|);
    forall k | k in c' ensures EndpointsWithin(c'[k], |allNodes|) {
      if k !in cat {
        assert c'[k] == g;
      }
    }
  }

  lemma GenesWithinWeaken(conns: SetState<ConnectionGene>, n: nat, m: nat, n': nat, m': nat)
    requires GenesWithin(conns, n, m) && n <= n' && m <= m'
    ensures GenesWithin(conns, n', m')
  {
  }

  lemma SortedAddGenesWithin(conns: SetState<ConnectionGene>, g: ConnectionGene, n: nat, m: nat)
    requires GenesWithin(conns, n, m) && EndpointsWithin(g, n) && g.innovationNumber <= m
    ensures GenesWithin(WithSortedAdded(conns, g, Innovation), n, m)
  {
    AddSortedElements(conns, g, Innovation);
  }

  lemma AddGenesWithin(conns: SetState<ConnectionGene>, g: ConnectionGene, n: nat, m: nat)
    requires GenesWithin(conns, n, m) && EndpointsWithin(g, n) && g.innovationNumber <= m
    ensures GenesWithin(WithAdded(conns, g), n, m)
  {
  }

  // ---------------------------------------------------------------------------
  // mutate_link

  /** The first of the drawn node pairs that `mutate_link` accepts: the two
      nodes lie at different x, and the probe gene from the lower to the higher
      x is not itself in the connection set. */
  function FirstCandidate(nodes: seq<NodeGene>, present: set<ConnectionGene>, draws: seq<(nat, nat)>)
    : (r: Option<ConnectionGene>)
    requires |nodes| > 0
    ensures r.Some? ==>
      && r.value.from in nodes && r.value.to in nodes
      && r.value.from.x < r.value.to.x
      && r.value == ConnectionGenes.New(r.value.from, r.value.to)
      && r.value !in present
  {
    if draws == [] then None
    else
      var a, b := nodes[draws[0].0 % |nodes|], nodes[draws[0].1 % |nodes|];
      if a.x == b.x then FirstCandidate(nodes, present, draws[1..])
      else
        var probe := if a.x < b.x then ConnectionGenes.New(a, b) else ConnectionGenes.New(b, a);
        if probe in present then FirstCandidate(nodes, present, draws[1..]) else Some(probe)
  }

  /** `mutate_link`: nothing with at most one node; otherwise the first
      accepted pair is looked up in the registry and inserted in innovation
      order with the drawn weight; nothing when all draws are refused. */
  function LinkMutation(w: World, draws: seq<(nat, nat)>, weight: real): World
    requires w.nodes.Consistent()
  {
    if |w.nodes.members| <= 1 then w
    else
      ConsistentSizesAgree(w.nodes);
      match FirstCandidate(w.nodes.data, w.connections.members, draws)
      case None => w
      case Some(p) =>
        var (g, cat) := Lookup(w.catalogue, p.from, p.to);
        w.(connections := WithSortedAdded(w.connections, g.(weight := weight), Innovation), catalogue := cat)
  }

  // ---------------------------------------------------------------------------
  // mutate_node

  /** The node `mutate_node` creates halfway along connection c. */
  function Middle(w: World, c: ConnectionGene, jitter: real): NodeGene
  {
    CreatedNode(w.allNodes, (c.from.x + c.to.x) / 2.0, (c.from.y + c.to.y) / 2.0 + jitter)
  }

  /** The two genes that replace connection c: from -> middle with weight 1.0,
      then middle -> to with c's weight and enabled flag, and the catalogue
      after both lookups. */
  function SplitGenes(w: World, c: ConnectionGene, middle: NodeGene): (ConnectionGene, ConnectionGene, Catalogue)
  {
    var (g1, cat1) := Lookup(w.catalogue, c.from, middle);
    var (g2, cat2) := Lookup(cat1, middle, c.to);
    (g1.(weight := 1.0), g2.(weight := c.weight, enabled := c.enabled), cat2)
  }

  /** `mutate_node`: nothing without connections; otherwise the drawn gene is
      removed, the two genes through a new middle node are added, and the
      middle node joins the genome and the registry. */
  function NodeMutation(w: World, pick: nat, jitter: real): World
  {
    match RandomIndex(w.connections, pick)
    case None => w
    case Some(i) =>
      var c := w.connections.data[i];
      var middle := Middle(w, c, jitter);
      var (g1, g2, cat) := SplitGenes(w, c, middle);
      var removed := WithoutValue(w.connections, c).value.1;
      World(WithAdded(WithAdded(removed, g1), g2), WithAdded(w.nodes, middle), w.allNodes + [middle], cat)
  }

  // ---------------------------------------------------------------------------
  // The three operators that write through `random_element`.

  /** `mutate_weight_shift` on the connection collection: the drawn gene's
      weight moves by `shift`. */
  function WithWeightShift(s: SetState<ConnectionGene>, pick: nat, shift: real): SetState<ConnectionGene>
  {
    match RandomIndex(s, pick)
    case None => s
    case Some(i) => WithWrite(s, i, s.data[i].(weight := s.data[i].weight + shift))
  }

  /** `mutate_weight_random`: the drawn gene's weight becomes `value`. */
  function WithWeightRandom(s: SetState<ConnectionGene>, pick: nat, value: real): SetState<ConnectionGene>
  {
    match RandomIndex(s, pick)
    case None => s
    case Some(i) => WithWrite(s, i, s.data[i].(weight := value))
  }

  /** `mutate_link_toggle`: the drawn gene's enabled flag flips. */
  function WithLinkToggle(s: SetState<ConnectionGene>, pick: nat): SetState<ConnectionGene>
  {
    match RandomIndex(s, pick)
    case None => s
    case Some(i) => WithWrite(s, i, s.data[i].(enabled := !s.data[i].enabled))
  }

  function WeightShift(w: World, pick: nat, shift: real): World
  {
    w.(connections := WithWeightShift(w.connections, pick, shift))
  }

  function WeightRandom(w: World, pick: nat, value: real): World
  {
    w.(connections := WithWeightRandom(w.connections, pick, value))
  }

  function LinkToggle(w: World, pick: nat): World
  {
    w.(connections := WithLinkToggle(w.connections, pick))
  }

  // ---------------------------------------------------------------------------
  // mutate

  /** The random values one call of `mutate` consumes: five rolls compared
      with the mutation probabilities, then what each operator draws. */
  datatype MutationDraws = MutationDraws(
    linkRoll: real, nodeRoll: real, shiftRoll: real, randomRoll: real, toggleRoll: real,
    linkPairs: seq<(nat, nat)>, linkWeight: real,
    nodePick: nat, jitter: real,
    shiftPick: nat, shift: real,
    randomPick: nat, randomWeight: real,
    togglePick: nat)

  /** `mutate`: each operator in turn, when its probability exceeds its roll. */
  function Mutated(w: World, d: MutationDraws): World
    requires w.nodes.Consistent()
  {
    MaybeToggle(MaybeRandom(MaybeShift(MaybeNode(MaybeLink(w, d), d), d), d), d)
  }

  function MaybeLink(w: World, d: MutationDraws): World
    requires w.nodes.Consistent()
  {
    if PROB_MUTATE_LINK > d.linkRoll then LinkMutation(w, d.linkPairs, d.linkWeight) else w
  }

  function MaybeNode(w: World, d: MutationDraws): World
  {
    if PROB_MUTATE_NODE > d.nodeRoll then NodeMutation(w, d.nodePick, d.jitter) else w
  }

  function MaybeShift(w: World, d: MutationDraws): World
  {
    if PROB_MUTATE_WEIGHT_SHIFT > d.shiftRoll then WeightShift(w, d.shiftPick, d.shift) else w
  }

  function MaybeRandom(w: World, d: MutationDraws): World
  {
    if PROB_MUTATE_WEIGHT_RANDOM > d.randomRoll then WeightRandom(w, d.randomPick, d.randomWeight) else w
  }

  function MaybeToggle(w: World, d: MutationDraws): World
  {
    if PROB_MUTATE_TOGGLE_LINK > d.toggleRoll then LinkToggle(w, d.togglePick) else w
  }

  // ---------------------------------------------------------------------------
  // Lemmas: mutate_link

  /** `mutate_link` leaves the nodes and the registry's node list alone, does
      nothing with at most one node, and otherwise inserts at most one gene,
      in innovation order, running from a lower to a higher x between two of
      the genome's nodes and carrying the drawn weight. */
  lemma LinkMutationBehaviour(w: World, draws: seq<(nat, nat)>, weight: real)
    requires w.nodes.Consistent()
    ensures var r := LinkMutation(w, draws, weight);
      && r.nodes == w.nodes && r.allNodes == w.allNodes
      && (|w.nodes.members| <= 1 ==> r == w)
      && (r.connections == w.connections
          || exists g :: r.connections == WithSortedAdded(w.connections, g, Innovation)
                && g.from in w.nodes.data && g.to in w.nodes.data
                && g.from.x < g.to.x && g.weight == weight && g.enabled)
      && |r.connections.data| <= |w.connections.data| + 1
  {
    if |w.nodes.members| > 1 {
      ConsistentSizesAgree(w.nodes);
      var cand := FirstCandidate(w.nodes.data, w.connections.members, draws);
      if cand.Some? {
        var p := cand.value;
        LookupExtends(w.catalogue, p.from, p.to);
        var g := Lookup(w.catalogue, p.from, p.to).0.(weight := weight);
        assert LinkMutation(w, draws, weight).connections == WithSortedAdded(w.connections, g, Innovation);
      }
    }
  }

  /** `mutate_link` keeps the genome and registry coherent. */
  lemma LinkMutationCoherent(w: World, draws: seq<(nat, nat)>, weight: real)
    requires Coherent(w)
    ensures Coherent(LinkMutation(w, draws, weight))
  {
    var n := |w.allNodes|;
    if |w.nodes.members| > 1 {
      ConsistentSizesAgree(w.nodes);
      var cand := FirstCandidate(w.nodes.data, w.connections.members, draws);
      if cand.Some? {
        var p := cand.value;
        var (g0, cat) := Lookup(w.catalogue, p.from, p.to);
        var g := g0.(weight := weight);
        var conns := WithSortedAdded(w.connections, g, Innovation);
        assert LinkMutation(w, draws, weight) == w.(connections := conns, catalogue := cat);
        assert p.from in w.nodes.members && p.to in w.nodes.members;
        LookupCoherent(w.allNodes, w.catalogue, p.from, p.to);
        GenesWithinWeaken(w.connections, n, |w.catalogue|, n, |cat|);
        SortedAddGenesWithin(w.connections, g, n, |cat|);
        AddSortedKeepsSorted(w.connections, g, Innovation);
        AddSortedPreservesSizesAgree(w.connections, g, Innovation);
      }
    }
  }

  /** The contains-check of `mutate_link` never refuses a pair in a coherent
      genome whose catalogue is below 2^20 entries: the probe carries the pair
      hash, at least 2^20, as its innovation number, which no gene of the
      genome has. */
  lemma {:induction false} ProbeNeverPresent(w: World, draws: seq<(nat, nat)>)
    requires Coherent(w) && |w.nodes.data| > 0
    requires |w.catalogue| < MAX_NODES
    ensures FirstCandidate(w.nodes.data, w.connections.members, draws) == FirstCandidate(w.nodes.data, {}, draws)
  {
    if draws != [] {
      var nodes := w.nodes.data;
      var a, b := nodes[draws[0].0 % |nodes|], nodes[draws[0].1 % |nodes|];
      if a.x != b.x {
        var probe := if a.x < b.x then ConnectionGenes.New(a, b) else ConnectionGenes.New(b, a);
        assert a in w.nodes.members && b in w.nodes.members;
        assert probe.innovationNumber >= MAX_NODES;
        assert probe !in w.connections.members;
      }
      ProbeNeverPresent(w, draws[1..]);
    }
  }

  /** Two genes share an edge when they join the same pair of nodes. */
  predicate UniqueEdges(s: seq<ConnectionGene>)
  {
    forall i, j :: 0 <= i < j < |s| ==> ConnectionGenes.HashCode(s[i]) != ConnectionGenes.HashCode(s[j])
  }

  /** A genome with one gene, 1, from node 1 (x = 0.1) to node 2 (x = 0.9). */
  function OneEdgeWorld(): World
  {
    var a, b := NodeGene(1, 0.1, 0.5), NodeGene(2, 0.9, 0.5);
    var g := ConnectionGene(1, a, b, 1.0, true);
    World(SetState({g}, [g]), SetState({a, b}, [a, b]), [a, b], map[CalculateHashCode(a, b) := g])
  }

  lemma OneEdgeWorldCoherent()
    ensures Coherent(OneEdgeWorld())
  {
    var w := OneEdgeWorld();
    var a, b := NodeGene(1, 0.1, 0.5), NodeGene(2, 0.9, 0.5);
    var g := ConnectionGene(1, a, b, 1.0, true);
    var h := CalculateHashCode(a, b);
    assert w.catalogue == map[h := g];
    assert Innovations(w.catalogue) == {1} by {
      assert w.catalogue[h].innovationNumber == 1;
    }
    assert UpTo(1) == {1};
    assert CatalogueNumbered(w.catalogue);
    assert Elements([a, b]) == {a, b};
    assert w.nodes.Consistent();
  }

  /** Drawing (node 1, node 2) in the one-edge genome yields the probe gene,
      which the hash set does not hold. */
  lemma OneEdgeDrawFindsProbe()
    ensures var w := OneEdgeWorld();
      && w.nodes.Consistent() && |w.nodes.members| == 2
      && FirstCandidate(w.nodes.data, w.connections.members, [(0, 1)])
         == Some(ConnectionGenes.New(NodeGene(1, 0.1, 0.5), NodeGene(2, 0.9, 0.5)))
  {
    var w := OneEdgeWorld();
    var a, b := NodeGene(1, 0.1, 0.5), NodeGene(2, 0.9, 0.5);
    var g := ConnectionGene(1, a, b, 1.0, true);
    assert w.connections == SetState({g}, [g]);
    assert w.nodes == SetState({a, b}, [a, b]);
    assert Elements([a, b]) == {a, b};
    assert |w.nodes.members| == 2;
    var probe := ConnectionGenes.New(a, b);
    assert probe !in w.connections.members;
    var draws := [(0, 1)];
    assert draws[0].0 % |w.nodes.data| == 0 && draws[0].1 % |w.nodes.data| == 1;
    assert w.nodes.data[0] == a && w.nodes.data[1] == b && a.x < b.x;
  }

  /** As written, `mutate_link` can add an edge the genome already has:
      drawing the pair (node 1, node 2) again inserts a second gene 1 between
      them, with the drawn weight. */
  lemma LinkMutationDuplicatesEdge()
    ensures var w := OneEdgeWorld();
      var g := ConnectionGene(1, NodeGene(1, 0.1, 0.5), NodeGene(2, 0.9, 0.5), 1.0, true);
      && w.connections.data == [g]
      && Coherent(w)
      && UniqueEdges(w.connections.data)
      && LinkMutation(w, [(0, 1)], 0.5).connections.data == [g, g.(weight := 0.5)]
      && !UniqueEdges(LinkMutation(w, [(0, 1)], 0.5).connections.data)
  {
    OneEdgeWorldCoherent();
    var w := OneEdgeWorld();
    var a, b := NodeGene(1, 0.1, 0.5), NodeGene(2, 0.9, 0.5);
    var g := ConnectionGene(1, a, b, 1.0, true);
    OneEdgeDrawFindsProbe();
    assert Lookup(w.catalogue, a, b) == (g, w.catalogue);
    var r := LinkMutation(w, [(0, 1)], 0.5);
    assert r.connections == WithSortedAdded(w.connections, g.(weight := 0.5), Innovation);
    assert InsertPosition([g], Innovation, 1) == 1;
    assert r.connections.data == [g, g.(weight := 0.5)];
    assert ConnectionGenes.HashCode(r.connections.data[0]) == ConnectionGenes.HashCode(r.connections.data[1]);
    assert UniqueEdges(w.connections.data);
  }

  /** The first drawn pair whose edge the genome does not already have. */
  function FirstNewEdge(nodes: seq<NodeGene>, data: seq<ConnectionGene>, draws: seq<(nat, nat)>)
    : (r: Option<ConnectionGene>)
    requires |nodes| > 0
    ensures r.Some? ==>
      && r.value.from in nodes && r.value.to in nodes
      && r.value.from.x < r.value.to.x
      && forall k :: 0 <= k < |data| ==>
           ConnectionGenes.HashCode(data[k]) != ConnectionGenes.HashCode(r.value)
  {
    if draws == [] then None
    else
      var a, b := nodes[draws[0].0 % |nodes|], nodes[draws[0].1 % |nodes|];
      if a.x == b.x then FirstNewEdge(nodes, data, draws[1..])
      else
        var probe := if a.x < b.x then ConnectionGenes.New(a, b) else ConnectionGenes.New(b, a);
        if exists k :: 0 <= k < |data| && ConnectionGenes.HashCode(data[k]) == ConnectionGenes.HashCode(probe)
        then FirstNewEdge(nodes, data, draws[1..])
        else Some(probe)
  }

  /** `mutate_link` with the duplicate check made by endpoints. */
  function LinkMutationIntended(w: World, draws: seq<(nat, nat)>, weight: real): World
    requires w.nodes.Consistent()
  {
    if |w.nodes.members| <= 1 then w
    else
      ConsistentSizesAgree(w.nodes);
      match FirstNewEdge(w.nodes.data, w.connections.data, draws)
      case None => w
      case Some(p) =>
        var (g, cat) := Lookup(w.catalogue, p.from, p.to);
        w.(connections := WithSortedAdded(w.connections, g.(weight := weight), Innovation), catalogue := cat)
  }

  /** With the check by endpoints, a genome without duplicate edges never gets one. */
  lemma LinkMutationIntendedKeepsEdgesUnique(w: World, draws: seq<(nat, nat)>, weight: real)
    requires w.nodes.Consistent()
    requires UniqueEdges(w.connections.data)
    ensures UniqueEdges(LinkMutationIntended(w, draws, weight).connections.data)
  {
    if |w.nodes.members| > 1 {
      ConsistentSizesAgree(w.nodes);
      var cand := FirstNewEdge(w.nodes.data, w.connections.data, draws);
      if cand.Some? {
        var p := cand.value;
        LookupExtends(w.catalogue, p.from, p.to);
        var g := Lookup(w.catalogue, p.from, p.to).0.(weight := weight);
        AddSortedKeepsTagsDistinct(w.connections, g, Innovation, ConnectionGenes.HashCode);
      }
    }
  }

  // ---------------------------------------------------------------------------
  // Lemmas: mutate_node

  /** Splitting a registry gene while the registry has room for one more node
      below 2^20: the middle node is numbered one past the registry, and both
      lookups are new pairs, so the two genes get the next two innovation
      numbers. */
  lemma SplitGenesFresh(w: World, c: ConnectionGene, jitter: real)
    requires RegistryCoherent(w.allNodes, w.catalogue)
    requires EndpointsWithin(c, |w.allNodes|) && |w.allNodes| + 1 < MAX_NODES
    ensures var middle := Middle(w, c, jitter);
      var (g1, g2, cat) := SplitGenes(w, c, middle);
      && middle.innovationNumber == |w.allNodes| + 1
      && g1 == ConnectionGene(|w.catalogue| + 1, c.from, middle, 1.0, true)
      && g2 == ConnectionGene(|w.catalogue| + 2, middle, c.to, c.weight, c.enabled)
      && |cat| == |w.catalogue| + 2
      && RegistryCoherent(w.allNodes + [middle], cat)
  {
    var middle := Middle(w, c, jitter);
    var nodes' := w.allNodes + [middle];
    FirstSplitLookup(w, c, jitter);
    var (g1, cat1) := Lookup(w.catalogue, c.from, middle);
    MintStep(nodes', cat1, middle, c.to);
    var (g2, cat2) := Lookup(cat1, middle, c.to);
    assert SplitGenes(w, c, middle) == (g1.(weight := 1.0), g2.(weight := c.weight, enabled := c.enabled), cat2);
  }

  /** The first lookup of the split: a fresh gene into the new middle node,
      after which no catalogued gene leaves the middle node for c's target. */
  lemma FirstSplitLookup(w: World, c: ConnectionGene, jitter: real)
    requires RegistryCoherent(w.allNodes, w.catalogue)
    requires EndpointsWithin(c, |w.allNodes|) && |w.allNodes| + 1 < MAX_NODES
    ensures var middle := Middle(w, c, jitter);
      var (g1, cat1) := Lookup(w.catalogue, c.from, middle);
      && middle.innovationNumber == |w.allNodes| + 1
      && g1 == ConnectionGene(|w.catalogue| + 1, c.from, middle, 1.0, true)
      && |cat1| == |w.catalogue| + 1
      && RegistryCoherent(w.allNodes + [middle], cat1)
      && forall k :: k in cat1 ==>
           cat1[k].from.innovationNumber != middle.innovationNumber
           || cat1[k].to.innovationNumber != c.to.innovationNumber
  {
    var cat := w.catalogue;
    var middle := Middle(w, c, jitter);
    CreatedNodeIsFresh(w.allNodes, middle.x, middle.y);
    var nodes' := w.allNodes + [middle];
    assert RegistryCoherent(nodes', cat);
    MintStep(nodes', cat, c.from, middle);
    var (g1, cat1) := Lookup(cat, c.from, middle);
    forall k | k in cat1
      ensures cat1[k].from.innovationNumber != middle.innovationNumber
           || cat1[k].to.innovationNumber != c.to.innovationNumber
    {
      if k !in cat {
        assert cat1[k] == g1;
      }
    }
  }

  /** Looking up a pair no catalogued gene joins mints the next number and
      records just that gene. */
  lemma MintStep(nodes: seq<NodeGene>, cat: Catalogue, from: NodeGene, to: NodeGene)
    requires RegistryCoherent(nodes, cat) && |nodes| < MAX_NODES
    requires from.innovationNumber <= |nodes| && to.innovationNumber <= |nodes|
    requires forall k :: k in cat ==>
      cat[k].from.innovationNumber != from.innovationNumber || cat[k].to.innovationNumber != to.innovationNumber
    ensures Lookup(cat, from, to).0 == ConnectionGene(|cat| + 1, from, to, 1.0, true)
    ensures |Lookup(cat, from, to).1| == |cat| + 1
    ensures RegistryCoherent(nodes, Lookup(cat, from, to).1)
    ensures forall k :: k in Lookup(cat, from, to).1 ==> k in cat || Lookup(cat, from, to).1[k] == Lookup(cat, from, to).0
  {
    FreshPair(nodes, cat, from, to);
    LookupMints(cat, from, to);
    LookupCoherent(nodes, cat, from, to);
    LookupExtends(cat, from, to);
  }

  /** A pair no catalogued gene joins, with both numbers below 2^20, has a
      pair hash the catalogue does not hold. */
  lemma FreshPair(nodes: seq<NodeGene>, cat: Catalogue, from: NodeGene, to: NodeGene)
    requires RegistryCoherent(nodes, cat) && |nodes| < MAX_NODES
    requires to.innovationNumber <= |nodes|
    requires forall k :: k in cat ==>
      cat[k].from.innovationNumber != from.innovationNumber || cat[k].to.innovationNumber != to.innovationNumber
    ensures CalculateHashCode(from, to) !in cat
  {
    var h := CalculateHashCode(from, to);
    if h in cat {
      var e := cat[h];
      assert h == ConnectionGenes.HashCode(e);
      assert EndpointsWithin(e, |nodes|);
      HashCodeInjective(from, to, e.from, e.to);
      assert false;
    }
  }

  /** `mutate_node` on a coherent genome with room for one more node: with no
      connection it does nothing; otherwise it removes the drawn gene c, adds
      exactly one new node halfway along c, and appends from -> middle (weight
      1.0, enabled) and middle -> to (c's weight and flag), numbered with the
      two largest innovation numbers so far. The connection count grows by one,
      or by two when the hash set no longer recognises c after a write. */
  lemma NodeMutationShape(w: World, pick: nat, jitter: real)
    requires Coherent(w) && |w.allNodes| + 1 < MAX_NODES
    ensures |w.connections.data| == 0 ==> NodeMutation(w, pick, jitter) == w
    ensures |w.connections.data| > 0 ==>
      var c := w.connections.data[pick % |w.connections.data|];
      var middle := Middle(w, c, jitter);
      var r := NodeMutation(w, pick, jitter);
      var removed := WithoutValue(w.connections, c).value.1;
      var g1 := ConnectionGene(|w.catalogue| + 1, c.from, middle, 1.0, true);
      var g2 := ConnectionGene(|w.catalogue| + 2, middle, c.to, c.weight, c.enabled);
      && r.allNodes == w.allNodes + [middle]
      && middle.innovationNumber == |w.allNodes| + 1
      && middle.x == (c.from.x + c.to.x) / 2.0
      && r.nodes == SetState(w.nodes.members + {middle}, w.nodes.data + [middle])
      && r.connections == SetState(removed.members + {g1, g2}, removed.data + [g1, g2])
      && |r.catalogue| == |w.catalogue| + 2
      && (c in w.connections.members ==> |r.connections.data| == |w.connections.data| + 1)
      && (c !in w.connections.members ==> r.connections.data == w.connections.data + [g1, g2])
  {
    if |w.connections.data| > 0 {
      var c := w.connections.data[pick % |w.connections.data|];
      assert EndpointsWithin(c, |w.allNodes|);
      var middle := Middle(w, c, jitter);
      SplitGenesFresh(w, c, jitter);
      var (g1, g2, cat) := SplitGenes(w, c, middle);
      var removed := WithoutValue(w.connections, c).value.1;
      assert NodeMutation(w, pick, jitter)
          == World(WithAdded(WithAdded(removed, g1), g2), WithAdded(w.nodes, middle), w.allNodes + [middle], cat);
      assert middle !in w.nodes.members;
      AppendSplit(w, c, g1, g2);
      if c in w.connections.members {
        RemovedOccurrence(w.connections, c);
      }
    }
  }

  /** The two new genes are numbered past every gene of the genome, so adding
      them after removing c appends both. */
  lemma AppendSplit(w: World, c: ConnectionGene, g1: ConnectionGene, g2: ConnectionGene)
    requires Coherent(w) && WithoutValue(w.connections, c).Returned?
    requires g1.innovationNumber == |w.catalogue| + 1 && g2.innovationNumber == |w.catalogue| + 2
    ensures var removed := WithoutValue(w.connections, c).value.1;
      WithAdded(WithAdded(removed, g1), g2) == SetState(removed.members + {g1, g2}, removed.data + [g1, g2])
  {
    var removed := WithoutValue(w.connections, c).value.1;
    RemoveValueShrinks(w.connections, c);
    assert g1 !in removed.members;
    assert g2 !in removed.members + {g1};
    var s1 := WithAdded(removed, g1);
    assert s1 == SetState(removed.members + {g1}, removed.data + [g1]);
    assert removed.members + {g1} + {g2} == removed.members + {g1, g2};
    assert removed.data + [g1] + [g2] == removed.data + [g1, g2];
  }

  /** Removing a value both fields hold takes one element out of the vector. */
  lemma RemovedOccurrence(s: SetState<ConnectionGene>, c: ConnectionGene)
    requires c in s.members && c in s.data
    ensures WithoutValue(s, c).Returned?
    ensures |WithoutValue(s, c).value.1.data| == |s.data| - 1
  {
  }

  /** `mutate_node` keeps the genome and registry coherent (in particular the
      connection list sorted) as long as node numbers stay below 2^20. */
  lemma NodeMutationCoherent(w: World, pick: nat, jitter: real)
    requires Coherent(w) && |w.allNodes| + 1 < MAX_NODES
    ensures Coherent(NodeMutation(w, pick, jitter))
  {
    NodeMutationShape(w, pick, jitter);
    if |w.connections.data| > 0 {
      var n, m := |w.allNodes|, |w.catalogue|;
      var c := w.connections.data[pick % |w.connections.data|];
      var middle := Middle(w, c, jitter);
      var removed := WithoutValue(w.connections, c).value.1;
      var g1 := ConnectionGene(m + 1, c.from, middle, 1.0, true);
      var g2 := ConnectionGene(m + 2, middle, c.to, c.weight, c.enabled);
      var cat := SplitGenes(w, c, middle).2;
      assert NodeMutation(w, pick, jitter) == World(
        SetState(removed.members + {g1, g2}, removed.data + [g1, g2]),
        SetState(w.nodes.members + {middle}, w.nodes.data + [middle]),
        w.allNodes + [middle], cat);
      assert EndpointsWithin(c, n);
      SplitGenesFresh(w, c, jitter);
      RemoveValueShrinks(w.connections, c);
      RemoveValuePreservesSizesAgree(w.connections, c);
      RemoveValueKeepsSorted(w.connections, c, Innovation);
      assert GenesWithin(removed, n, m);
      SplitWorldCoherent(w, removed, g1, g2, middle, cat);
    }
  }

  /** The world `mutate_node` produces is coherent, given what the split
      lemmas establish about its parts. */
  lemma SplitWorldCoherent(w: World, removed: SetState<ConnectionGene>, g1: ConnectionGene, g2: ConnectionGene,
                           middle: NodeGene, cat: Catalogue)
    requires NodesWithin(w.nodes, |w.allNodes|)
    requires RegistryCoherent(w.allNodes + [middle], cat) && |cat| == |w.catalogue| + 2
    requires middle.innovationNumber == |w.allNodes| + 1
    requires removed.SizesAgree() && GenesWithin(removed, |w.allNodes|, |w.catalogue|)
    requires SortedBy(removed.data, Innovation)
    requires g1.innovationNumber == |w.catalogue| + 1 && g2.innovationNumber == |w.catalogue| + 2
    requires EndpointsWithin(g1, |w.allNodes| + 1) && EndpointsWithin(g2, |w.allNodes| + 1)
    ensures Coherent(World(
      SetState(removed.members + {g1, g2}, removed.data + [g1, g2]),
      SetState(w.nodes.members + {middle}, w.nodes.data + [middle]),
      w.allNodes + [middle], cat))
  {
    AppendSplitGenes(removed, g1, g2, |w.allNodes|, |w.catalogue|);
    assert middle !in w.nodes.members;
    AddPreservesConsistent(w.nodes, middle);
  }

  /** Appending the two split genes to what remained after removing the split
      gene: sizes still agree, every gene stays within the grown registry, and
      the list stays sorted, the new numbers being the largest. */
  lemma AppendSplitGenes(removed: SetState<ConnectionGene>, g1: ConnectionGene, g2: ConnectionGene, n: nat, m: nat)
    requires removed.SizesAgree() && GenesWithin(removed, n, m) && SortedBy(removed.data, Innovation)
    requires g1.innovationNumber == m + 1 && g2.innovationNumber == m + 2
    requires EndpointsWithin(g1, n + 1) && EndpointsWithin(g2, n + 1)
    ensures var r := SetState(removed.members + {g1, g2}, removed.data + [g1, g2]);
      && r.SizesAgree()
      && GenesWithin(r, n + 1, m + 2)
      && SortedBy(r.data, Innovation)
  {
    assert g1 !in removed.members && g2 !in removed.members && g1 != g2;
    assert |removed.members + {g1, g2}| == |removed.members| + 2;
    var d := removed.data + [g1, g2];
    forall i, j | 0 <= i < j < |d| ensures Innovation(d[i]) <= Innovation(d[j]) {
      if j < |removed.data| {
        assert d[i] == removed.data[i] && d[j] == removed.data[j];
      } else if i < |removed.data| {
        assert d[i] == removed.data[i] && d[i] in removed.data;
      }
    }
  }

  /** After a toggle, the hash set no longer recognises the toggled gene, so a
      following `mutate_node` on it keeps it: in the one-gene genome, toggling
      and then splitting the gene leaves three genes, the first of them the
      toggled gene that was meant to be removed. */
  lemma SplitAfterToggleKeepsGene()
    ensures var w := LinkToggle(OneEdgeWorld(), 0);
      var g := OneEdgeWorld().connections.data[0];
      && w.connections.data == [g.(enabled := false)]
      && WithoutValue(w.connections, w.connections.data[0]) == Returned((false, w.connections))
      && |NodeMutation(w, 0, 0.0).connections.data| == 3
      && NodeMutation(w, 0, 0.0).connections.data[0] == g.(enabled := false)
  {
    OneEdgeWorldCoherent();
    var w0 := OneEdgeWorld();
    var g := w0.connections.data[0];
    assert w0.connections == SetState({g}, [g]);
    var w := LinkToggle(w0, 0);
    assert w.connections == SetState({g}, [g.(enabled := false)]);
    assert g.(enabled := false) != g;
    WriteOperatorsCoherent(w0, 0, 0.0, 0.0);
    NodeMutationShape(w, 0, 0.0);
  }

  // ---------------------------------------------------------------------------
  // Lemmas: the write operators

  /** Replacing a gene by one with the same innovation number and endpoints
      keeps the genome coherent. */
  lemma WriteCoherent(w: World, i: nat, c': ConnectionGene)
    requires Coherent(w) && i < |w.connections.data|
    requires c'.innovationNumber == w.connections.data[i].innovationNumber
    requires c'.from == w.connections.data[i].from && c'.to == w.connections.data[i].to
    ensures Coherent(w.(connections := WithWrite(w.connections, i, c')))
  {
    var d, d' := w.connections.data, w.connections.data[i := c'];
    assert forall k :: 0 <= k < |d| ==> Innovation(d'[k]) == Innovation(d[k]);
    forall c | c in d' ensures EndpointsWithin(c, |w.allNodes|) && c.innovationNumber <= |w.catalogue| {
      var k :| 0 <= k < |d'| && d'[k] == c;
      if k != i {
        assert d[k] == c;
      } else {
        assert d[i] in d;
      }
    }
  }

  /** The three write operators keep the genome coherent. */
  lemma WriteOperatorsCoherent(w: World, pick: nat, shift: real, value: real)
    requires Coherent(w)
    ensures Coherent(WeightShift(w, pick, shift))
    ensures Coherent(WeightRandom(w, pick, value))
    ensures Coherent(LinkToggle(w, pick))
    ensures WeightShift(w, pick, shift).allNodes == w.allNodes
    ensures WeightRandom(w, pick, value).allNodes == w.allNodes
    ensures LinkToggle(w, pick).allNodes == w.allNodes
  {
    if |w.connections.data| > 0 {
      var i := pick % |w.connections.data|;
      var c := w.connections.data[i];
      WriteCoherent(w, i, c.(weight := c.weight + shift));
      WriteCoherent(w, i, c.(weight := value));
      WriteCoherent(w, i, c.(enabled := !c.enabled));
    }
  }

  /** The three write operators change only the drawn gene, and only its
      weight or its enabled flag; the hash set, the nodes and the registry stay
      as they were. Without connections they do nothing. */
  lemma WriteOperatorsTouchOnlyDrawnGene(w: World, pick: nat, shift: real, value: real)
    ensures |w.connections.data| == 0 ==>
      WeightShift(w, pick, shift) == w && WeightRandom(w, pick, value) == w && LinkToggle(w, pick) == w
    ensures |w.connections.data| > 0 ==>
      var i := pick % |w.connections.data|;
      var c := w.connections.data[i];
      && (forall j :: 0 <= j < |w.connections.data| && j != i ==>
            && WeightShift(w, pick, shift).connections.data[j] == w.connections.data[j]
            && WeightRandom(w, pick, value).connections.data[j] == w.connections.data[j]
            && LinkToggle(w, pick).connections.data[j] == w.connections.data[j])
      && WeightShift(w, pick, shift) == w.(connections := SetState(w.connections.members,
           w.connections.data[i := c.(weight := c.weight + shift)]))
      && WeightRandom(w, pick, value) == w.(connections := SetState(w.connections.members,
           w.connections.data[i := c.(weight := value)]))
      && LinkToggle(w, pick) == w.(connections := SetState(w.connections.members,
           w.connections.data[i := c.(enabled := !c.enabled)]))
  {
  }

  /** Toggling the same drawn gene twice restores the genome. */
  lemma DoubleToggleRestores(w: World, pick: nat)
    ensures LinkToggle(LinkToggle(w, pick), pick) == w
  {
    if |w.connections.data| > 0 {
      var i := pick % |w.connections.data|;
      var c := w.connections.data[i];
      assert c.(enabled := !c.enabled).(enabled := !!c.enabled) == c;
      assert w.connections.data[i := c.(enabled := !c.enabled)][i := c] == w.connections.data;
    }
  }

  // ---------------------------------------------------------------------------
  // Lemmas: mutate

  /** `mutate_node` appends at most one node to the registry. */
  lemma NodeMutationGrowsRegistryByOne(w: World, pick: nat, jitter: real)
    ensures var r := NodeMutation(w, pick, jitter);
      |w.allNodes| <= |r.allNodes| <= |w.allNodes| + 1 && r.allNodes[..|w.allNodes|] == w.allNodes
  {
    var r := NodeMutation(w, pick, jitter);
    assert r.allNodes == w.allNodes || exists v :: r.allNodes == w.allNodes + [v];
  }

  lemma MaybeLinkCoherent(w: World, d: MutationDraws)
    requires Coherent(w)
    ensures Coherent(MaybeLink(w, d)) && MaybeLink(w, d).allNodes == w.allNodes
  {
    LinkMutationCoherent(w, d.linkPairs, d.linkWeight);
  }

  lemma MaybeNodeCoherent(w: World, d: MutationDraws)
    requires Coherent(w) && |w.allNodes| + 1 < MAX_NODES
    ensures Coherent(MaybeNode(w, d))
    ensures |w.allNodes| <= |MaybeNode(w, d).allNodes| <= |w.allNodes| + 1
    ensures MaybeNode(w, d).allNodes[..|w.allNodes|] == w.allNodes
  {
    NodeMutationCoherent(w, d.nodePick, d.jitter);
    NodeMutationGrowsRegistryByOne(w, d.nodePick, d.jitter);
  }

  lemma MaybeWritesCoherent(w: World, d: MutationDraws)
    requires Coherent(w)
    ensures Coherent(MaybeToggle(MaybeRandom(MaybeShift(w, d), d), d))
    ensures MaybeToggle(MaybeRandom(MaybeShift(w, d), d), d).allNodes == w.allNodes
  {
    var w3 := MaybeShift(w, d);
    WriteOperatorsCoherent(w, d.shiftPick, d.shift, d.randomWeight);
    var w4 := MaybeRandom(w3, d);
    WriteOperatorsCoherent(w3, d.randomPick, d.shift, d.randomWeight);
    WriteOperatorsCoherent(w4, d.togglePick, d.shift, d.randomWeight);
  }

  /** `mutate` keeps the genome and registry coherent, in particular the
      connection list sorted by innovation number, while node numbers stay
      below 2^20; it adds at most one registry node and keeps the ones there. */
  lemma MutatedCoherent(w: World, d: MutationDraws)
    requires Coherent(w) && |w.allNodes| + 1 < MAX_NODES
    ensures Coherent(Mutated(w, d))
    ensures |w.allNodes| <= |Mutated(w, d).allNodes| <= |w.allNodes| + 1
    ensures Mutated(w, d).allNodes[..|w.allNodes|] == w.allNodes
  {
    MaybeLinkCoherent(w, d);
    MaybeNodeCoherent(MaybeLink(w, d), d);
    MaybeWritesCoherent(MaybeNode(MaybeLink(w, d), d), d);
  }
}

# profqu_neat — a verified model of the gene-level machinery

This project models the gene-level core of the `profqu_neat` crate, a NEAT (NeuroEvolution of Augmenting Topologies) library. NEAT evolves neural networks by growing genomes of node genes and connection genes. The model covers these parts:

- **Genes.** Node genes and connection genes (`NodeGenes`, `ConnectionGenes`). A connection's innovation number is the pair hash `from·2^20 + to`.
- **`RandomHashSet`** (`RandomHashSets`). This is the order-preserving unique collection that holds a genome's genes. Each method is specified by a function on a value `SetState` (the hash set and the vector).
- **Registry** (`Registry`, class `Neat`). It holds the global node list and the catalogue of connections keyed by endpoint pair. It mints fresh innovation numbers.
- **Genome.** The `Genome` class is in `Genomes`. Its two-cursor merge walks `distance` and `crossover` are specified by `Alignment`. Its mutation operators are specified by `Mutations` as functions on a `World`. A `World` is the genome's two collections together with the registry.
- **Evaluator.** The evaluator's construction and its input check (`Calculators`).
- **Configuration.** The configuration value object and the line/key dispatch of its loader (`Configs`).
- **Small state holders.** The client's lazy evaluator cache (`Clients`) and the older network node with its two-slot history (`Nodes`).

Randomness becomes explicit parameters:
- a `pick` index, which is reduced modulo the collection length;
- a `pickFirst` coin per matching gene;
- `(nat, nat)` draws for the 100 link attempts;
- real rolls and jitters.

The model makes some further modelling choices:
- `f32` weights and coordinates are `real`.
- `u32` innovation numbers are `nat`. Lemmas state where the pair hash overflows.
- A Rust panic is the `Panicked` case of `Outcome`.
- A Rust `Result` is `Result`.

## Model

| member | source | states |
|---|---|---|
| NodeGenes.New | src/genome/node_gene.rs:13-19 | a new node gene has the given innovation number and x = y = 0 |
| NodeGenes.HashCode | src/genome/node_gene.rs:22-24 | the hash code of a node gene is its innovation number |
| NodeGenes.NewIsInjective | src/genome/node_gene.rs:4-19 | `new(a) == new(b)` exactly when a = b |
| NodeGenes.EqualityIsStructural | src/genome/node_gene.rs:4 | derived equality also compares x, so a moved copy is unequal while keeping its hash code |
| ConnectionGenes.New | src/genome/connection_gene.rs:19-27 | a new connection has weight 1.0, is enabled, and has the pair hash as its innovation number |
| ConnectionGenes.HashCode | src/genome/connection_gene.rs:30-32 | the hash code is the pair hash of the endpoints |
| ConnectionGenes.CalculateHashCode | src/genome/connection_gene.rs:35-37 | the pair hash from·MAX_NODES + to over the endpoints' innovation numbers, unbounded; its injectivity, direction, collision and u32 range are the `HashCode*` lemmas |
| ConnectionGenes.HashCodeIgnoresAttributes | src/genome/connection_gene.rs:30-32 | the hash code does not depend on the innovation number, weight or enabled flag |
| ConnectionGenes.HashCodeInjective | src/genome/connection_gene.rs:35-37 | while the target is below MAX_NODES, equal hashes ⇔ equal endpoint numbers |
| ConnectionGenes.HashCodeDirectional | src/genome/connection_gene.rs:35-37 | (a,b) and (b,a) with a ≠ b hash differently |
| ConnectionGenes.HashCodeCollidesPastMaxNodes | src/genome/connection_gene.rs:35-37 | a target numbered MAX_NODES collides with another pair |
| ConnectionGenes.HashCodeFitsU32 | src/genome/connection_gene.rs:35-37 | the hash fits in u32 when from < 4096 and to < 2^20 |
| ConnectionGenes.HashCodeOverflowsU32 | src/genome/connection_gene.rs:35-37 | from ≥ 4096 overflows u32 |
| ConnectionGenes.SameEdgeDifferentWeightUnequal | src/genome/connection_gene.rs:8 | the same edge with another weight is a different value with the same hash code |
| RandomHashSets.IndexOf | src/data_structures/random_hash_set.rs:271-284 | the first position holding the value |
| RandomHashSets.WithAdded | src/data_structures/random_hash_set.rs:173-178 | `add` on the two fields: unchanged when the set holds the value, otherwise the value joins the set and is pushed on the vector |
| RandomHashSets.WithSortedAdded | src/data_structures/random_hash_set_test.rs:95-118 | `add_sorted`: unchanged when present, otherwise the value joins the set and is inserted at `InsertPosition`, after every element with a key no greater |
| RandomHashSets.WithoutIndex | src/data_structures/random_hash_set.rs:235-244 | `remove_index`: false and unchanged out of range, otherwise the element leaves the set and its position in the vector |
| RandomHashSets.WithoutValue | src/data_structures/random_hash_set.rs:271-284 | `remove_value`: false when the set lacks the value; otherwise it leaves the set and its first vector position, with a panic when the vector lacks it |
| RandomHashSets.RandomIndex | src/data_structures/random_hash_set.rs:110-112 | the position `random_element` draws: None when empty, otherwise the pick modulo the length |
| RandomHashSets.WithWrite | src/data_structures/random_hash_set.rs:110-112 | a write through the reference `random_element` hands out: one vector entry replaced, the set left as it was |
| RandomHashSets.AddAll | src/data_structures/random_hash_set.rs:173-178 | `add` applied to each element of a list in order |
| RandomHashSets.InsertPosition | src/data_structures/random_hash_set_test.rs:95-118 | the insertion slot lies within the vector |
| RandomHashSets.NoDuplicatesCardinality | src/data_structures/random_hash_set.rs:135-137 | a duplicate-free vector has as many distinct elements as entries |
| RandomHashSets.ConsistentSizesAgree | src/data_structures/random_hash_set.rs:135-137 | when set and vector hold the same elements without repeats, `len` is the vector length |
| RandomHashSets.ContainsMeansInData | src/data_structures/random_hash_set.rs:58-60 | when set and vector agree, `contains(v)` ⇔ v is in the vector |
| RandomHashSets.AddAppendsIffAbsent | src/data_structures/random_hash_set.rs:173-178 | `add` appends exactly when the value is absent, and otherwise changes nothing |
| RandomHashSets.AddPreservesConsistent | src/data_structures/random_hash_set.rs:173-178 | `add` keeps set and vector in agreement without repeats |
| RandomHashSets.AddPreservesSizesAgree | src/data_structures/random_hash_set.rs:173-178 | `add` keeps the set size equal to the vector length |
| RandomHashSets.InsertPositionSplits | src/data_structures/random_hash_set_test.rs:95-118 | keys before the slot are ≤ the new key, and the key at the slot is larger |
| RandomHashSets.AddSortedKeepsSorted | src/data_structures/random_hash_set_test.rs:95-118 | `add_sorted` keeps the vector in ascending key order |
| RandomHashSets.AddSortedKeepsTagsDistinct | src/data_structures/random_hash_set_test.rs:95-118 | inserting a value with a new tag keeps all tags distinct |
| RandomHashSets.AddSortedElements | src/data_structures/random_hash_set_test.rs:95-118 | `add_sorted` adds nothing but the value |
| RandomHashSets.AddSortedAddsLikeAdd | src/data_structures/random_hash_set_test.rs:95-118 | `add_sorted` adds the same elements as `add`; only the position differs |
| RandomHashSets.AddSortedPreservesConsistent | src/data_structures/random_hash_set_test.rs:95-118 | `add_sorted` keeps set and vector in agreement |
| RandomHashSets.AddSortedPreservesSizesAgree | src/data_structures/random_hash_set_test.rs:95-118 | `add_sorted` keeps the set size equal to the vector length |
| RandomHashSets.RemoveAtElements | src/data_structures/random_hash_set.rs:235-244 | removing a position removes exactly that element and keeps the rest free of repeats |
| RandomHashSets.RemoveIndexBehaviour | src/data_structures/random_hash_set.rs:235-244 | `remove_index` is true iff the index is in range; out of range nothing changes; in range the length drops by one and the element leaves the set |
| RandomHashSets.RemoveValueBehaviour | src/data_structures/random_hash_set.rs:271-284 | on a consistent collection `remove_value` never panics, is true iff the value is present, and removes its one occurrence |
| RandomHashSets.RemoveValuePreservesSizesAgree | src/data_structures/random_hash_set.rs:271-284 | `remove_value` keeps the set size equal to the vector length |
| RandomHashSets.RemoveValueShrinks | src/data_structures/random_hash_set.rs:271-284 | `remove_value` adds no element |
| RandomHashSets.RemoveValueKeepsSorted | src/data_structures/random_hash_set.rs:271-284 | `remove_value` keeps a sorted vector sorted |
| RandomHashSets.RandomIndexBehaviour | src/data_structures/random_hash_set.rs:110-112 | `random_element` is None iff the vector is empty, and otherwise a position in it |
| RandomHashSets.WriteDesynchronises | src/data_structures/random_hash_set.rs:110-112 | a write through `random_element` leaves the set stale, so a later `remove_value` of the new value returns false |
| RandomHashSets.AddAllAppend | src/data_structures/random_hash_set.rs:173-178 | adding two lists one after the other is adding their concatenation |
| RandomHashSets.AddAllConsistent | src/data_structures/random_hash_set.rs:173-178 | repeated `add` keeps agreement and yields the union of elements |
| RandomHashSets.AddAllFresh | src/data_structures/random_hash_set.rs:173-178 | adding distinct absent values appends them all in order |
| RandomHashSets.AddAllPreservesSizesAgree | src/data_structures/random_hash_set.rs:173-178 | repeated `add` keeps the set size equal to the vector length |
| RandomHashSets.ClearIsConsistent | src/data_structures/random_hash_set.rs:205-208 | the cleared collection is empty and consistent |
| RandomHashSets.RandomHashSet.constructor | src/data_structures/random_hash_set.rs:36-41 | the new collection is empty |
| RandomHashSets.RandomHashSet.Contains | src/data_structures/random_hash_set.rs:58-60 | membership is asked of the set; on a consistent collection this is membership in the vector |
| RandomHashSets.RandomHashSet.Get | src/data_structures/random_hash_set.rs:83-85 | `get(i)` is `data[i]` for i < len and None otherwise |
| RandomHashSets.RandomHashSet.Len | src/data_structures/random_hash_set.rs:135-137 | `len` is the set's size, which is the vector length on a consistent collection |
| RandomHashSets.RandomHashSet.IsEmpty | src/data_structures/random_hash_set.rs:154-156 | true iff the set is empty |
| RandomHashSets.RandomHashSet.Add | src/data_structures/random_hash_set.rs:173-178 | the new state is `WithAdded` of the old |
| RandomHashSets.RandomHashSet.AddSorted | src/data_structures/random_hash_set_test.rs:95-118 | the new state is `WithSortedAdded` of the old |
| RandomHashSets.RandomHashSet.Clear | src/data_structures/random_hash_set.rs:205-208 | both fields are emptied |
| RandomHashSets.RandomHashSet.RemoveIndex | src/data_structures/random_hash_set.rs:235-244 | the result and new state are `WithoutIndex` of the old |
| RandomHashSets.RandomHashSet.RemoveValue | src/data_structures/random_hash_set.rs:271-284 | the result and new state are `WithoutValue` of the old, panicking exactly when it does |
| RandomHashSets.RandomHashSet.RandomElement | src/data_structures/random_hash_set.rs:110-112 | the drawn position, None iff empty |
| RandomHashSets.RandomHashSet.WriteElement | src/data_structures/random_hash_set.rs:110-112 | the write through the returned reference replaces one vector entry and leaves the set as it was |
| Alignment.InnovationSequence | src/genome/genome.rs:173-211 | the innovation numbers of a gene list, position by position |
| Alignment.Abs | src/genome/genome.rs:112 | the absolute weight difference is non-negative and is ±r |
| Alignment.WalkFrom | src/genome/genome.rs:101-124 | the merge loop ends inside both lists |
| Alignment.DistanceOf | src/genome/genome.rs:81-141 | `distance` on two connection lists: c1·disjoint/N + c2·excess/N + c3·mean weight difference, with the walk's counts and N the normaliser; 0 when the first list is empty |
| Alignment.AverageDiff | src/genome/genome.rs:126-129 | the mean weight difference of the matching genes, 0 when none match |
| Alignment.Formula | src/genome/genome.rs:138-140 | the returned sum: c1 (`MULT_DISJOINT`) times disjoint/N, plus c2 (`MULT_EXCESS`) times excess/N, plus c3 (`MULT_WEIGHT_DIFF`) times the mean difference |
| Alignment.InheritedFrom | src/genome/genome.rs:173-211 | the genes the two crossover loops add: for equal numbers the coin's parent, for a smaller first number the first parent's gene, a larger one skipped, then the first parent's rest |
| Alignment.SymmetricDistance | src/genome/genome.rs:33-56 | `distance` with the genomes ordered by their last innovation number, as `highest_innov_num` evidently intends |
| Alignment.Normaliser | src/genome/genome.rs:133-136 | N is the larger length, or 1 when both are below 20 |
| Alignment.Endpoints | src/genome/genome.rs:213-216 | two endpoints per connection |
| Alignment.WalkAccounting | src/genome/genome.rs:101-124 | the walk exhausts one list, and index1+index2 = 2·matching + disjoint |
| Alignment.WalkSelf | src/genome/genome.rs:101-124 | a genome walked against itself matches every gene and has no disjoint genes |
| Alignment.WalkSwap | src/genome/genome.rs:101-124 | swapping the lists swaps the end positions and keeps the counts |
| Alignment.LastIsLargest | src/genome/genome.rs:33-38 | in a strictly sorted list the last gene has the largest innovation number |
| Alignment.WalkSameLast | src/genome/genome.rs:101-124 | lists with the same last innovation are both exhausted, so there is no excess |
| Alignment.DistanceToSelfIsZero | src/genome/genome.rs:81-141 | `distance(g, g) == 0` |
| Alignment.DistanceFromEmpty | src/genome/genome.rs:83-85 | the distance from a genome without connections is 0 |
| Alignment.DistanceToEmpty | src/genome/genome.rs:126-140 | the distance to an empty genome counts all genes as excess |
| Alignment.DistanceOfSameLastSymmetric | src/genome/genome.rs:81-141 | with equal last innovations, distance is symmetric |
| Alignment.SymmetricDistanceIsSymmetric | src/genome/genome.rs:51-56 | ordering by last innovation makes distance symmetric |
| Alignment.DistanceAsWrittenAsymmetric | src/genome/genome.rs:81-141 | as written, `distance([g], []) = c2` but `distance([], [g]) = 0` |
| Alignment.InheritedAligned | src/genome/genome.rs:173-211 | the child has one gene per first-parent gene with the same innovation, taken from either parent |
| Alignment.CrossoverInnovations | src/genome/genome.rs:173-211 | the child's innovation sequence is the first parent's, so a sorted first parent gives a sorted child |
| Alignment.CrossoverWithSelf | src/genome/genome.rs:173-211 | crossing a genome with itself gives its own genes |
| Alignment.CrossoverFirstParentOnly | src/genome/genome.rs:173-211 | when every coin favours the first parent, the child is the first parent |
| Alignment.EndpointsOfGenes | src/genome/genome.rs:213-216 | the endpoint list holds exactly the from and to nodes of the connections |
| Registry.UpTo | src/neat/neat.rs:153-154 | the set 1..n |
| Registry.CreatedNode | src/neat/neat.rs:120-130 | the node `create_node` appends: numbered list length + 1 at the given coordinates |
| Registry.GetNodeAsWritten | src/neat/neat.rs:133-141 | `get_node` with its `<=` guard: the stored node below len, a panic at len, a new node at the origin beyond |
| Registry.GetNodeIntended | src/neat/neat.rs:132-141 | `get_node` as its comment describes: the stored node below len, a new node at the origin from len on |
| Registry.Lookup | src/neat/neat.rs:144-158 | `get_connection`: a known pair keeps its stored number and the catalogue; an unseen pair gets catalogue size + 1 and is recorded under its hash |
| Registry.InitialNodes | src/neat/neat.rs:100-117 | the nodes `reset` creates: the input column at x = 0.1, then the output column at x = 0.9 |
| Registry.Column | src/neat/neat.rs:108-116 | one loop of `reset`: count nodes at one x, numbered on from the list, the k-th at y = (k + 1)/(count + 1) |
| Registry.InitialNodesLayout | src/neat/neat.rs:100-117 | `reset` creates input nodes at x = 0.1, then output nodes at x = 0.9, the i-th of n at y = (i+1)/(n+1), numbered 1.. |
| Registry.CreatedNodeIsFresh | src/neat/neat.rs:120-130 | a created node is numbered count+1, is new, and keeps the list numbered |
| Registry.GetNodePanicsAtLength | src/neat/neat.rs:133-141 | as written, `get_node` panics exactly at index == len, and returns the stored node below it |
| Registry.GetNodeIntendedAgrees | src/neat/neat.rs:133-141 | the corrected lookup returns the stored node or creates a fresh one, and agrees with the code everywhere except at len |
| Registry.LookupIdempotent | src/neat/neat.rs:144-158 | asking twice for the same ordered pair gives the same gene and catalogue |
| Registry.LookupKnown | src/neat/neat.rs:147-150 | a known pair reuses its innovation number and leaves the catalogue unchanged |
| Registry.InnovationsOfInsert | src/neat/neat.rs:153-154 | inserting a new key adds exactly its innovation number |
| Registry.LookupMints | src/neat/neat.rs:152-155 | an unseen pair gets catalogue size + 1, which is new, and the catalogue grows by one entry |
| Registry.LookupExtends | src/neat/neat.rs:144-158 | the returned gene has the given endpoints, weight 1 and enabled, and the catalogue only grows |
| Registry.LookupPreservesNumbering | src/neat/neat.rs:144-158 | the catalogue's innovation numbers stay exactly 1..n |
| Registry.LookupDirectional | src/neat/neat.rs:144-158 | (a,b) and (b,a) get different innovation numbers |
| Registry.Neat.constructor | src/neat/neat.rs:53-75 | `new` is a `reset` with empty catalogue and the initial nodes |
| Registry.Neat.Reset | src/neat/neat.rs:100-117 | both catalogues are cleared, the node list is exactly `InitialNodes`, the sizes are recorded, and the registry is valid |
| Registry.Neat.CreateColumn | src/neat/neat.rs:108-116 | one loop of `reset` appends exactly `Column` of the current length |
| Registry.Neat.CreateNode | src/neat/neat.rs:120-130 | the created node is appended to the node list; a valid registry stays valid (the new node is numbered list length + 1) |
| Registry.Neat.GetNode | src/neat/neat.rs:133-141 | the result and node list are `GetNodeAsWritten` of the old list; a valid registry stays valid |
| Registry.Neat.GetConnection | src/neat/neat.rs:144-158 | the result and catalogue are `Lookup` of the old catalogue; a valid registry stays valid (a new pair gets the next unused number) |
| Mutations.LookupCoherent | src/neat/neat.rs:144-158 | looking up known nodes keeps the registry coherent and yields a gene within it |
| Mutations.GenesWithinWeaken | src/genome/genome.rs:246-303 | genes within a registry stay within a larger one |
| Mutations.SortedAddGenesWithin | src/genome/genome.rs:274 | a sorted insert of a registered gene keeps all genes registered |
| Mutations.AddGenesWithin | src/genome/genome.rs:298-299 | an add of a registered gene keeps all genes registered |
| Mutations.FirstCandidate | src/genome/genome.rs:251-276 | the first acceptable draw is an edge between genome nodes from lower to higher x, not in the set |
| Mutations.LinkMutation | src/genome/genome.rs:246-277 | `mutate_link`: a no-op with at most one node or no candidate among the draws; otherwise the registry's gene for the first candidate, with the drawn weight, inserted in innovation order |
| Mutations.LinkMutationIntended | src/genome/genome.rs:246-277 | the same with the presence check by hash code, so an existing edge is never drawn again |
| Mutations.Middle | src/genome/genome.rs:285-288 | the node `mutate_node` creates: halfway along the connection in x, halfway in y plus the jitter |
| Mutations.SplitGenes | src/genome/genome.rs:290-295 | the two registry genes from → middle with weight 1, and middle → to with the old weight and flag, and the grown catalogue |
| Mutations.NodeMutation | src/genome/genome.rs:280-303 | `mutate_node`: a no-op without connections; otherwise the drawn gene removed, the two split genes added, the middle node added to genome and registry |
| Mutations.WeightShift | src/genome/genome.rs:311-316 | `mutate_weight_shift`: the drawn gene's weight moved by the shift, written through the vector |
| Mutations.WeightRandom | src/genome/genome.rs:319-324 | `mutate_weight_random`: the drawn gene's weight replaced, written through the vector |
| Mutations.LinkToggle | src/genome/genome.rs:327-331 | `mutate_link_toggle`: the drawn gene's enabled flag flipped, written through the vector |
| Mutations.WithWeightShift | src/genome/genome.rs:311-316 | the connection collection after `mutate_weight_shift`: unchanged when empty, otherwise the drawn entry's weight moved by the shift, the set left stale |
| Mutations.WithWeightRandom | src/genome/genome.rs:319-324 | the same for `mutate_weight_random`: the drawn entry's weight replaced |
| Mutations.WithLinkToggle | src/genome/genome.rs:327-331 | the same for `mutate_link_toggle`: the drawn entry's enabled flag flipped |
| Mutations.Mutated | src/genome/genome.rs:227-243 | `mutate`: the five operators in source order, each run when its probability exceeds its roll |
| Mutations.MaybeLink | src/genome/genome.rs:228-230 | the first step of `mutate`: `LinkMutation` when `PROB_MUTATE_LINK` exceeds the roll, otherwise nothing |
| Mutations.MaybeNode | src/genome/genome.rs:231-233 | the second step: `NodeMutation` when `PROB_MUTATE_NODE` exceeds the roll |
| Mutations.MaybeShift | src/genome/genome.rs:234-236 | the third step: `WeightShift` when `PROB_MUTATE_WEIGHT_SHIFT` exceeds the roll |
| Mutations.MaybeRandom | src/genome/genome.rs:237-239 | the fourth step: `WeightRandom` when `PROB_MUTATE_WEIGHT_RANDOM` exceeds the roll |
| Mutations.MaybeToggle | src/genome/genome.rs:240-242 | the fifth step: `LinkToggle` when `PROB_MUTATE_TOGGLE_LINK` exceeds the roll |
| Mutations.FirstNewEdge | src/genome/genome.rs:251-276 | the corrected search finds an edge whose hash differs from every existing gene's |
| Mutations.LinkMutationBehaviour | src/genome/genome.rs:246-277 | add-link changes only the connections; it is a no-op with ≤ 1 node, and otherwise adds at most one gene, directed from lower to higher x, with the drawn weight |
| Mutations.LinkMutationCoherent | src/genome/genome.rs:246-277 | add-link keeps genome and registry coherent |
| Mutations.ProbeNeverPresent | src/genome/genome.rs:259-268 | the duplicate check never fires, because the probe gene carries the hash as its innovation number |
| Mutations.OneEdgeWorldCoherent | src/genome/genome.rs:246-277 | the two-node, one-edge genome used below is coherent |
| Mutations.LinkMutationDuplicatesEdge | src/genome/genome.rs:259-275 | as written, add-link can add a second gene for an existing edge |
| Mutations.LinkMutationIntendedKeepsEdgesUnique | src/genome/genome.rs:246-277 | with the check by hash code, edges stay unique |
| Mutations.SplitGenesFresh | src/genome/genome.rs:285-296 | the middle node is numbered count+1, and the two new genes are from→mid (weight 1) and mid→to (weight and flag copied) with the next two innovation numbers |
| Mutations.NodeMutationShape | src/genome/genome.rs:280-303 | with no connections add-node is a no-op; otherwise it adds the midpoint node and replaces the chosen gene by the two new ones appended at the end |
| Mutations.RemovedOccurrence | src/genome/genome.rs:297 | removing a present gene shortens the list by one |
| Mutations.NodeMutationCoherent | src/genome/genome.rs:280-303 | add-node keeps genome and registry coherent, and the genes sorted |
| Mutations.SplitWorldCoherent | src/genome/genome.rs:280-303 | the split's pieces assemble into a coherent world |
| Mutations.AppendSplitGenes | src/genome/genome.rs:298-299 | appending the two newest genes keeps the list sorted and registered |
| Mutations.SplitAfterToggleKeepsGene | src/genome/genome.rs:297 | after a toggle, the split cannot remove the stale gene, so the genome keeps it beside the two new ones |
| Mutations.WriteCoherent | src/genome/genome.rs:311-331 | rewriting a gene's weight or flag keeps the world coherent |
| Mutations.WriteOperatorsCoherent | src/genome/genome.rs:311-331 | weight shift, weight random and toggle keep the world coherent and the registry unchanged |
| Mutations.WriteOperatorsTouchOnlyDrawnGene | src/genome/genome.rs:311-331 | each write operator changes only the drawn gene's weight or flag, and is a no-op on an empty genome |
| Mutations.DoubleToggleRestores | src/genome/genome.rs:327-331 | toggling the same gene twice restores the genome |
| Mutations.NodeMutationGrowsRegistryByOne | src/genome/genome.rs:280-303 | add-node extends the node list by at most one |
| Mutations.MaybeLinkCoherent | src/genome/genome.rs:228-230 | the add-link step of `mutate` keeps coherence and the node list |
| Mutations.MaybeNodeCoherent | src/genome/genome.rs:231-233 | the add-node step of `mutate` keeps coherence and grows the node list by at most one |
| Mutations.MaybeWritesCoherent | src/genome/genome.rs:234-242 | the three write steps of `mutate` keep coherence and the node list |
| Mutations.MutatedCoherent | src/genome/genome.rs:227-243 | `mutate` keeps coherence and grows the node list by at most one |
| Genomes.Genome.constructor | src/genome/genome.rs:25-30 | a new genome has two empty collections |
| Genomes.Genome.HighestInnovNum | src/genome/genome.rs:33-38 | reading position `len` yields 0 whenever the collection is in agreement |
| Genomes.Genome.OrderGenomes | src/genome/genome.rs:51-56 | the pair in either order, with the higher first, and argument order on ties (always, given the above) |
| Genomes.Genome.AddConnection | src/genome/genome.rs:41-48 | panics iff an index is out of range; otherwise adds the registry's gene for the two nodes; a valid registry stays valid |
| Genomes.Genome.Distance | src/genome/genome.rs:81-141 | the merge loops compute `DistanceOf` of the two connection lists |
| Genomes.Genome.Crossover | src/genome/genome.rs:163-219 | the child holds the inherited genes and the input/output nodes plus all endpoints; the registry is unchanged |
| Genomes.Genome.InheritConnections | src/genome/genome.rs:173-211 | both loops together add the inherited genes |
| Genomes.Genome.AddEndpointNodes | src/genome/genome.rs:213-216 | the final loop adds every connection's endpoints |
| Genomes.InheritAligned | src/genome/genome.rs:173-202 | the first loop ends with one list exhausted and has added the inherited prefix |
| Genomes.InheritExcess | src/genome/genome.rs:205-211 | the second loop adds the first parent's remaining genes |
| Genomes.CrossoverChildConnections | src/genome/genome.rs:173-211 | the child's connection vector is the inherited list, consistent, strictly sorted, with the first parent's innovation sequence |
| Genomes.CrossoverChildNodes | src/genome/genome.rs:167-216 | the child's nodes are exactly the registry's input/output nodes and the connections' endpoints |
| Genomes.EmptyGenome | src/neat/neat.rs:77-85 | an empty genome holds the input and output nodes and no connections, and the registry is unchanged |
| Genomes.AddRegistryNodes | src/neat/neat.rs:80-82 | the registry's nodes 0..n-1, each fetched with `get_node`, are added in order and the registry is unchanged |
| Genomes.EmptyGenomeCoherent | src/neat/neat.rs:77-85 | an empty genome with a coherent registry is a coherent world, so the mutation lemmas apply from the start |
| Genomes.Genome.MutateLink | src/genome/genome.rs:246-277 | the new world is `LinkMutation` of the old; a valid registry stays valid |
| Genomes.Genome.MutateNode | src/genome/genome.rs:280-303 | the new world is `NodeMutation` of the old; a valid registry stays valid |
| Genomes.Genome.MutateWeightShift | src/genome/genome.rs:311-316 | the connections are `WithWeightShift` of the old |
| Genomes.Genome.MutateWeightRandom | src/genome/genome.rs:319-324 | the connections are `WithWeightRandom` of the old |
| Genomes.Genome.MutateLinkToggle | src/genome/genome.rs:327-331 | the connections are `WithLinkToggle` of the old |
| Genomes.Genome.Mutate | src/genome/genome.rs:227-243 | the new world is `Mutated` of the old; a valid registry stays valid |
| Calculators.GroupOf | src/calculations/calculator.rs:31-39 | input iff x ≤ 0.1, output iff x > 0.1 and x ≥ 0.9, hidden otherwise |
| Calculators.NodeFor | src/calculations/calculator.rs:28 | an evaluator node keeps the gene's x and starts at output 0 |
| Calculators.Members | src/calculations/calculator.rs:27-40 | the evaluator nodes of the genes in one group, in genome order |
| Calculators.Loaded | src/calculations/calculator.rs:69-71 | input node i's output becomes inputs[i] |
| Calculators.Activated | src/calculations/calculator.rs:73-75 | each hidden node, having no incoming connections, outputs sigmoid(0) |
| Calculators.MembersSnoc | src/calculations/calculator.rs:30-39 | one more gene adds its node to its own group only |
| Calculators.PartitionSizes | src/calculations/calculator.rs:27-40 | the group sizes sum to the node count |
| Calculators.MembersInGroup | src/calculations/calculator.rs:27-40 | every member of a group satisfies that group's bound |
| Calculators.GeneInItsGroup | src/calculations/calculator.rs:27-40 | every gene's node lands in the group its x names |
| Calculators.Partition | src/calculations/calculator.rs:27-40 | the group sizes sum to the node count, and each node lands in its one group |
| Calculators.MembersAppend | src/calculations/calculator.rs:27-40 | grouping distributes over concatenation, so the genome's order is kept |
| Calculators.MembersOfOneGroup | src/calculations/calculator.rs:27-40 | nodes all of one group fill it and leave the others empty |
| Calculators.InitialGroups | src/calculations/calculator.rs:95-106 | the registry's initial nodes give input/output/hidden sizes of input, output and 0 |
| Calculators.HiddenAdditions | src/calculations/calculator.rs:108-122 | adding an x = 0.5 node gives one hidden node, and adding x = 0.3 then sorts it first |
| Calculators.SortedPairIsOrdered | src/calculations/calculator.rs:116-122 | a sorted permutation of two nodes puts the smaller x first |
| Calculators.InsertKeepsSorted | src/calculations/calculator.rs:42 | inserting at the slot keeps the list sorted |
| Calculators.InsertAddsNode | src/calculations/calculator.rs:42 | inserting adds exactly the node, so sorting stays a permutation |
| Calculators.Calculator.constructor | src/calculations/calculator.rs:60 | holds the three given groups |
| Calculators.Calculator.Calculate | src/calculations/calculator.rs:64-85 | Err iff the input length differs, touching nothing; otherwise the inputs are loaded, hidden nodes are set, and any output node panics |
| Calculators.Calculator.LoadInputs | src/calculations/calculator.rs:69-71 | input node i takes the i-th input as its output, every other field kept |
| Calculators.Calculator.ActivateHidden | src/calculations/calculator.rs:73-75 | every hidden node, having no incoming connections, takes the sigmoid of 0 as its output |
| Calculators.NewCalculator | src/calculations/calculator.rs:17-61 | panics iff a connection names an unknown node; otherwise the input/output groups in genome order and the hidden group sorted by x as a permutation |
| Calculators.SortByX | src/calculations/calculator.rs:42 | a sorted permutation of the hidden nodes |
| Calculators.SlotFor | src/calculations/calculator.rs:42 | the insertion slot after all nodes with x ≤ the new x |
| Configs.ActivationFrom | src/neat/config.rs:15-23 | Relu for exactly "relu", Sigmoid for exactly "sigmoid", a panic otherwise |
| Configs.Fields | src/neat/config.rs:27-59 | twelve numeric fields in declared order |
| Configs.WithFields | src/neat/config.rs:70-88 | builds the configuration whose fields are the vector |
| Configs.FromVec | src/neat/config.rs:67-90 | returns iff 12 values and a valid name, asserts otherwise, and assigns value k to field k |
| Configs.InitZero | src/neat/config.rs:207-228 | all twelve fields are 0 and the activation is Relu |
| Configs.Lower | src/neat/config.rs:106 | lowercasing keeps the length |
| Configs.Segments | src/neat/config.rs:103 | splitting yields at least one piece, no piece holds the separator, and a line not starting with the separator starts its first piece (with `Configs.SegmentsJoin`, this fixes the split) |
| Configs.KeyIndex | src/neat/config.rs:107-193 | a recognised key names its field, and an unrecognised one is none of the keys |
| Configs.WithField | src/neat/config.rs:107-193 | setting one field changes only that field |
| Configs.ApplySegments | src/neat/config.rs:105-200 | the dispatch over one line's pieces: "" skipped, a numeric key sets its field from the next piece, `activation` sets the activation, anything else panics, as do a missing or unparsable value |
| Configs.ApplyLines | src/neat/config.rs:102-201 | the lines applied in order, each split on ": ", stopping at the first panic |
| Configs.FromLines | src/neat/config.rs:97-204 | `from_file` on the file's lines, starting from `init_zero` |
| Configs.FromFile | src/neat/config.rs:97-204 | the loops over lines and segments compute `FromLines` |
| Configs.FromVecRoundTrip | src/neat/config.rs:67-90 | `from_vec` of a configuration's fields and activation name gives it back |
| Configs.SegmentsJoin | src/neat/config.rs:103 | joining the segments with ": " restores the line |
| Configs.SegmentsOfPlain | src/neat/config.rs:103 | text without the separator is a single piece |
| Configs.SegmentsOfPair | src/neat/config.rs:103 | a line `key: value` splits into exactly the key and the value |
| Configs.EmptySegmentSkipped | src/neat/config.rs:197 | an empty segment is skipped |
| Configs.UnknownKeyPanics | src/neat/config.rs:198 | an unrecognised key panics |
| Configs.KeyWithoutValuePanics | src/neat/config.rs:107-112 | a recognised key with no following segment panics |
| Configs.KeySetsField | src/neat/config.rs:107-193 | a numeric key followed by a value sets that field |
| Configs.LaterKeyOverwrites | src/neat/config.rs:105-193 | within one line, a repeated key overwrites the value its first occurrence set |
| Configs.ApplyLinesAppend | src/neat/config.rs:102-201 | reading pre + post is reading pre, then post from the config it left, unless pre panicked |
| Configs.KeyLineSetsField | src/neat/config.rs:102-193 | a line `key: value` for a numeric key sets that field and reading continues with the next line |
| Configs.LaterLineOverwrites | src/neat/config.rs:102-201 | a later line naming a key gives the same result as if the earlier line naming it were absent |
| Configs.LastNamingLineWins | src/neat/config.rs:102-201 | whatever lines come before, a field ends with the value on the last line that names it, if no panic occurs |
| Configs.UnnamedFieldKept | src/neat/config.rs:102-201 | a field whose key is absent from a line keeps its value |
| Configs.UnnamedFieldStaysZero | src/neat/config.rs:98-201 | a field no line names keeps the value it had before the lines |
| Configs.FromLinesUnnamedFieldIsZero | src/neat/config.rs:97-204 | reading a file from `init_zero`, a field no line names is 0 |
| Clients.Client.constructor | src/neat/client.rs:15-22 | no evaluator yet and fitness 0 |
| Clients.Client.GenerateCalculator | src/neat/client.rs:25-27 | installs a fresh evaluator built from the genome, or panics iff a connection names an unknown node |
| Clients.Client.Calculate | src/neat/client.rs:30-36 | an existing evaluator is reused; a missing one is built first; the outcome and the evaluator's new state are exactly one run of `calculate` on it (`Clients.Ran`): Err iff the input length differs, otherwise inputs loaded, hidden nodes set, and a panic iff there is an output node |
| Clients.Ran | src/calculations/calculator.rs:64-85 | one run of `calculate` on an evaluator, given its groups before the run: the result and the new groups |
| Nodes.Archived | src/node.rs:63-68 | the new sum goes first; with two or more old entries the oldest is dropped |
| Nodes.Node.constructor | src/node.rs:26-37 | a neuron numbered 0, not activated, with no activations, history or links |
| Nodes.Node.GetActiveSum | src/node.rs:40-45 | 0 before any activation, the active sum after |
| Nodes.Node.IsSensor | src/node.rs:48-50 | true iff the type is Sensor |
| Nodes.Node.IsNeuron | src/node.rs:53-55 | true iff the type is Neuron |
| Nodes.Node.SetType | src/node.rs:58-60 | only the type changes |
| Nodes.Node.ArchiveActiveSum | src/node.rs:63-68 | the history becomes `Archived` of the old |
| Nodes.SensorIffNotNeuron | src/node.rs:48-55 | a node is a sensor exactly when it is not a neuron |
| Nodes.ArchivedKeepsAtMostTwo | src/node.rs:63-68 | a history of at most two entries grows by one up to two |
| Nodes.ArchivedShiftsFront | src/node.rs:63-68 | the previous front becomes second |
| Nodes.HistoryScenario | tests/test_node.rs:14-23 | archiving 1, 17 and 7 gives lengths 1, 2, 2 and ends with [7, 17] |

## Left out

- Random number generation (`thread_rng`, `rand::random`, `choose_mut`): the draws are parameters. Their distributions are not modelled.
- Floating-point arithmetic: `f32` and `PseudoFloat` are `real`. There is no rounding and no NaN.
- Weighted sums and the sigmoid in `src/calculations/node.rs`: the model uses the value they have on a node without connections, sigmoid(0) = 0.5.
- Connections in the evaluator: `Calculator::new` attaches connections to copies held in a local map, so they never reach the returned groups. The model keeps only the panic for an unknown endpoint. This reading is taken from text that does not compile as shown: `Connection::new` is called with two nodes (src/calculations/calculator.rs:53) but declared with one shared node (src/calculations/connection.rs:192), and the crate root (src/lib.rs) declares no `calculations` module. The sigmoid(0) = 0.5 outputs stated by `Calculators.Calculator.Calculate` rest on it.
- `Rc<RefCell<Node>>` sharing in `src/calculations/connection.rs`: not modelled, for the same reason.
- The evaluator's output loop: it writes into an empty vector and panics on the first output node. `Calculators.Calculator.Calculate` states only that panic and the value written before it.
- `src/network.rs` (`activate` is unfinished) and `src/link.rs`:
  - `Nodes.Link` keeps only the weight.
  - A link's two nodes are not modelled, because a node holding links holding nodes has no finite value form.
- `NodePlace` in `src/node.rs` is never used.
- Species, population, speciation and breeding are not part of this model. The species field of a client is an empty struct and is dropped.
- Configuration input and output:
  - The file read is replaced by a given list of lines.
  - Float parsing is a parameter `parseFloat`.
  - The `OnceCell` global is not modelled.
- `Configs.Lower`: only ASCII letters are lowercased. Unicode case mapping is not modelled.
- `Calculators.SortByX`: the library `Vec::sort` is modelled by an insertion sort on a sequence, proved sorted and a permutation. Stability is not stated.
- `Genomes.Genome.Distance` and `Alignment.DistanceOf`:
  - The three multipliers are parameters; the tests assume they are 1.
  - The unreachable `else if` panic of `distance` (genome.rs:86-88) is not modelled.
- `Mutations.ProbeNeverPresent` and `Mutations.LinkMutationCoherent`: innovation numbers are unbounded. u32 overflow of the pair hash appears only in `ConnectionGenes.HashCodeOverflowsU32`.
- `Registry.Neat.CreateNode`: numbers nodes by list length + 1. The registry test expects numbers from a revision that adds a bias node.
- `Nodes.ArchivedKeepsAtMostTwo` assumes the history started with at most two entries. The field is public, so a longer history is possible; it keeps its length, because each call adds the new sum at the front and drops the last entry (`Nodes.Archived` states this).
- `Alignment.SymmetricDistanceIsSymmetric`: stated for connection lists in strictly increasing innovation order, that is, genomes without two genes of one innovation number. The as-written `mutate_link` can add such a duplicate (see `Mutations.LinkMutationDuplicatesEdge`); the lemma says nothing about those genomes.
- `Genomes.CrossoverChildConnections`: stated for a first parent whose connections are strictly increasing in innovation number, for the same reason; a parent with a duplicated edge is not covered.
- `RandomHashSets.RandomHashSet.AddSorted`: the body of `add_sorted` is not part of this model; only its call (genome.rs:274) and its test are. That a value already present is skipped is assumed by analogy with `add` (random_hash_set.rs:173-178). `RandomHashSets.AddSortedPreservesConsistent`, `RandomHashSets.AddSortedPreservesSizesAgree` and, through them, the genome's consistency after `Genomes.Genome.MutateLink` rest on that assumption.
- `Genomes.Genome.HighestInnovNum`: it states the value only when the connection collection is in agreement. Otherwise the read past `len` may hit a stale vector entry.
- The population size and `Neat::new`'s client list are kept as numbers only.

## Findings

| source | as written | input that shows it | evidently intended | confidence | as-written member | corrected member |
|---|---|---|---|---|---|---|
| src/genome/genome.rs:33-38 | `highest_innov_num` reads position `len`, which is past the end, so it is 0 and `order_genomes` never swaps; `distance` is then not symmetric | g1 with one connection, g2 empty: `distance(g1, g2) = c2`, `distance(g2, g1) = 0` | read the last connection, so the genome with the larger last innovation is first and the distance is symmetric | not executed | Alignment.DistanceAsWrittenAsymmetric | Alignment.SymmetricDistanceIsSymmetric |
| src/neat/neat.rs:133-141 | `get_node` tests `index <= len` and then indexes, so index == len panics | a registry of n nodes asked for node n | create a fresh node for every index ≥ len | not executed | Registry.GetNodePanicsAtLength | Registry.GetNodeIntendedAgrees |
| src/genome/genome.rs:259-275 | `mutate_link` tests `contains` on a probe gene whose innovation number is the pair hash, which no stored gene has, so the check never fires | two nodes at x = 0.1 and 0.9 joined by gene 1; draw the same pair again | reject a pair whose edge is already present (compare hash codes) | not executed | Mutations.LinkMutationDuplicatesEdge | Mutations.LinkMutationIntendedKeepsEdgesUnique |

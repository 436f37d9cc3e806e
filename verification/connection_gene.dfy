/** Connection genes: directed, weighted edges between two node genes. */
module ConnectionGenes {
  import opened NodeGenes

  /** `MAX_NODES`, 2^20: the multiplier of the pair hash. */
  const MAX_NODES: nat := 0x10_0000

  /** One more than the largest u32 value. */
  const U32_LIMIT: nat := 0x1_0000_0000

  /** A connection gene. Equality is structural over every field. */
  datatype ConnectionGene = ConnectionGene(
    innovationNumber: nat,
    from: NodeGene,
    to: NodeGene,
    weight: real,
    enabled: bool)

  /** `calculate_hash_code`: `from * 2^20 + to` over the endpoints' innovation numbers
      (unbounded here; see the u32 lemmas below). */
  function CalculateHashCode(from: NodeGene, to: NodeGene): nat
  {
    from.innovationNumber * MAX_NODES + to.innovationNumber
  }

  /** `ConnectionGene::new`: weight 1.0, enabled, and the pair hash standing in
      for the innovation number until the registry assigns one. */
  function New(from: NodeGene, to: NodeGene): (c: ConnectionGene)
    ensures c.from == from && c.to == to
    ensures c.weight == 1.0 && c.enabled
    ensures c.innovationNumber == CalculateHashCode(from, to)
  {
    ConnectionGene(CalculateHashCode(from, to), from, to, 1.0, true)
  }

  /** `hash_code`: the hash of the endpoints only. */
  function HashCode(c: ConnectionGene): (h: nat)
    ensures h == CalculateHashCode(c.from, c.to)
  {
    CalculateHashCode(c.from, c.to)
  }

  /** The hash ignores weight, enabled flag and innovation number. */
  lemma HashCodeIgnoresAttributes(c: ConnectionGene, n: nat, w: real, e: bool)
    ensures HashCode(c.(innovationNumber := n, weight := w, enabled := e)) == HashCode(c)
  {
  }

  /** While the `to` endpoint stays below 2^20, the hash determines the pair of
      endpoint innovation numbers. */
  lemma HashCodeInjective(a: NodeGene, b: NodeGene, c: NodeGene, d: NodeGene)
    requires b.innovationNumber < MAX_NODES && d.innovationNumber < MAX_NODES
    ensures CalculateHashCode(a, b) == CalculateHashCode(c, d)
        <==> a.innovationNumber == c.innovationNumber && b.innovationNumber == d.innovationNumber
  {
    var p, q := a.innovationNumber, c.innovationNumber;
    if p < q {
      assert p * MAX_NODES + MAX_NODES <= q * MAX_NODES;
    } else if q < p {
      assert q * MAX_NODES + MAX_NODES <= p * MAX_NODES;
    }
  }

  /** Hence (a, b) and (b, a) hash differently when a and b differ. */
  lemma HashCodeDirectional(a: NodeGene, b: NodeGene)
    requires a.innovationNumber < MAX_NODES && b.innovationNumber < MAX_NODES
    requires a.innovationNumber != b.innovationNumber
    ensures CalculateHashCode(a, b) != CalculateHashCode(b, a)
  {
    HashCodeInjective(a, b, b, a);
  }

  /** Without the bound on `to` the hash collides: (0, 2^20) and (1, 0). */
  lemma HashCodeCollidesPastMaxNodes()
    ensures CalculateHashCode(NodeGenes.New(0), NodeGenes.New(MAX_NODES))
         == CalculateHashCode(NodeGenes.New(1), NodeGenes.New(0))
  {
  }

  /** The u32 computation does not overflow for from < 4096 and to < 2^20 ... */
  lemma HashCodeFitsU32(from: NodeGene, to: NodeGene)
    requires from.innovationNumber < 4096 && to.innovationNumber < MAX_NODES
    ensures CalculateHashCode(from, to) < U32_LIMIT
  {
    assert from.innovationNumber * MAX_NODES <= 4095 * MAX_NODES;
  }

  /** ... and always overflows once from reaches 4096. */
  lemma HashCodeOverflowsU32(from: NodeGene, to: NodeGene)
    requires from.innovationNumber >= 4096
    ensures CalculateHashCode(from, to) >= U32_LIMIT
  {
    assert from.innovationNumber * MAX_NODES >= 4096 * MAX_NODES;
  }

  /** Genes with the same endpoints but different weights are unequal. */
  lemma SameEdgeDifferentWeightUnequal(c: ConnectionGene, w: real)
    requires w != c.weight
    ensures c.(weight := w) != c && HashCode(c.(weight := w)) == HashCode(c)
  {
  }
}

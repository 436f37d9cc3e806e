/** Node genes: the vertices of a genome, identified by an innovation number
    and placed at a coordinate (x decides input / hidden / output, y is layout). */
module NodeGenes {

  /** A node gene. Equality is structural: innovation number, x and y. */
  datatype NodeGene = NodeGene(innovationNumber: nat, x: real, y: real)

  /** `NodeGene::new`: a node with the given innovation number at the origin. */
  function New(innovationNumber: nat): (g: NodeGene)
    ensures g.innovationNumber == innovationNumber
    ensures g.x == 0.0 && g.y == 0.0
  {
    NodeGene(innovationNumber, 0.0, 0.0)
  }

  /** `hash_code`: a node hashes to its innovation number. */
  function HashCode(g: NodeGene): (h: nat)
    ensures h == g.innovationNumber
  {
    g.innovationNumber
  }

  /** Two fresh nodes are equal exactly when their innovation numbers are. */
  lemma NewIsInjective(a: nat, b: nat)
    ensures New(a) == New(b) <==> a == b
  {
  }

  /** Equality is over all three fields: the same innovation number at two
      positions gives two different genes, although both hash alike. */
  lemma EqualityIsStructural(g: NodeGene, x: real)
    requires x != g.x
    ensures g.(x := x) != g
    ensures HashCode(g.(x := x)) == HashCode(g)
  {
  }
}

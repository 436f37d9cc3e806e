/** The gene alignment shared by `distance` and `crossover`: two connection
    lists, each ordered by innovation number, are walked side by side; equal
    innovation numbers are matching genes, a smaller one on either side is a
    disjoint gene, and whatever remains of the first list once the second is
    exhausted is excess.

    Everything here is a function of the two lists; the methods of the
    `Genomes` module compute the same values with loops and are proved equal
    to them. */
module Alignment {
  import opened NodeGenes
  import opened ConnectionGenes

  function Innovation(c: ConnectionGene): nat
  {
    c.innovationNumber
  }

  /** The innovation numbers along a list of genes. */
  function InnovationSequence(s: seq<ConnectionGene>): (r: seq<nat>)
    ensures |r| == |s|
    ensures forall k :: 0 <= k < |s| ==> r[k] == s[k].innovationNumber
  {
    seq(|s|, k requires 0 <= k < |s| => s[k].innovationNumber)
  }

  /** Innovation numbers strictly ascend. */
  predicate StrictlySorted(s: seq<ConnectionGene>)
  {
    forall i, j :: 0 <= i < j < |s| ==> s[i].innovationNumber < s[j].innovationNumber
  }

  function Abs(r: real): (a: real)
    ensures a >= 0.0 && (a == r || a == -r)
  {
    if r < 0.0 then -r else r
  }

  /** What the walk counts, and where it stops. */
  datatype Walk = Walk(end1: nat, end2: nat, disjoint: nat, matching: nat, weightDiff: real)

  /** The walk from positions i1 and i2 to the end of either list. */
  function WalkFrom(s1: seq<ConnectionGene>, s2: seq<ConnectionGene>, i1: nat, i2: nat): (w: Walk)
    requires i1 <= |s1| && i2 <= |s2|
    ensures i1 <= w.end1 <= |s1| && i2 <= w.end2 <= |s2|
    decreases |s1| - i1 + |s2| - i2
  {
    if i1 < |s1| && i2 < |s2| then
      var in1, in2 := s1[i1].innovationNumber, s2[i2].innovationNumber;
      if in1 == in2 then
        var w := WalkFrom(s1, s2, i1 + 1, i2 + 1);
        w.(matching := w.matching + 1, weightDiff := Abs(s1[i1].weight - s2[i2].weight) + w.weightDiff)
      else if in1 > in2 then
        var w := WalkFrom(s1, s2, i1, i2 + 1);
        w.(disjoint := w.disjoint + 1)
      else
        var w := WalkFrom(s1, s2, i1 + 1, i2);
        w.(disjoint := w.disjoint + 1)
    else
      Walk(i1, i2, 0, 0, 0.0)
  }

  /** The divisor of `distance`: the larger list size, or 1 below 20 genes. */
  function Normaliser(n1: nat, n2: nat): (n: real)
    ensures n >= 1.0
    ensures n1 < 20 && n2 < 20 ==> n == 1.0
    ensures (n1 >= 20 || n2 >= 20) ==> n == (if n1 >= n2 then n1 else n2) as real
  {
    var m := if n1 >= n2 then n1 else n2;
    if (m as real) < 20.0 then 1.0 else m as real
  }

  /** Mean weight difference of the matching genes, 0 when there are none. */
  function AverageDiff(w: Walk): real
  {
    if w.matching == 0 then 0.0 else w.weightDiff / w.matching as real
  }

  /** `distance` of two connection lists, the first taken as the one with the
      higher innovation number: 0 when both are empty, otherwise
      c1 * disjoint / N + c2 * excess / N + c3 * mean weight difference. */
  function DistanceOf(s1: seq<ConnectionGene>, s2: seq<ConnectionGene>, c1: real, c2: real, c3: real): real
  {
    if |s1| == 0 && |s2| == 0 then 0.0
    else
      var w := WalkFrom(s1, s2, 0, 0);
      Formula(w.disjoint, |s1| - w.end1, Normaliser(|s1|, |s2|), AverageDiff(w), c1, c2, c3)
  }

  /** The weighted sum `distance` returns. */
  function Formula(disjoint: nat, excess: nat, n: real, average: real, c1: real, c2: real, c3: real): real
    requires n != 0.0
  {
    c1 * disjoint as real / n + c2 * excess as real / n + c3 * average
  }

  /** The genes `crossover` copies into the child, from positions i1 and i2 on:
      a matching gene from the parent `pickFirst` names at that position of the
      first list, a gene of the first list only, and the first list's excess;
      genes of the second list only are dropped. */
  function InheritedFrom(s1: seq<ConnectionGene>, s2: seq<ConnectionGene>, i1: nat, i2: nat,
                         pickFirst: nat -> bool): seq<ConnectionGene>
    requires i1 <= |s1| && i2 <= |s2|
    decreases |s1| - i1 + |s2| - i2
  {
    if i1 < |s1| && i2 < |s2| then
      var in1, in2 := s1[i1].innovationNumber, s2[i2].innovationNumber;
      if in1 == in2 then
        [if pickFirst(i1) then s1[i1] else s2[i2]] + InheritedFrom(s1, s2, i1 + 1, i2 + 1, pickFirst)
      else if in1 > in2 then
        InheritedFrom(s1, s2, i1, i2 + 1, pickFirst)
      else
        [s1[i1]] + InheritedFrom(s1, s2, i1 + 1, i2, pickFirst)
    else
      s1[i1..]
  }

  /** The endpoints of each gene in order, `from` before `to`: what `crossover`
      adds to the child's nodes. */
  function Endpoints(cs: seq<ConnectionGene>): (r: seq<NodeGene>)
    ensures |r| == 2 * |cs|
  {
    if cs == [] then []
    else Endpoints(cs[..|cs| - 1]) + [cs[|cs| - 1].from, cs[|cs| - 1].to]
  }

  // ---------------------------------------------------------------------------
  // The walk

  /** The walk stops where one list is exhausted, and every step it takes
      advances one index (a disjoint gene) or both (a matching pair). */
  lemma {:induction false} WalkAccounting(s1: seq<ConnectionGene>, s2: seq<ConnectionGene>, i1: nat, i2: nat)
    requires i1 <= |s1| && i2 <= |s2|
    ensures var w := WalkFrom(s1, s2, i1, i2);
      && (w.end1 == |s1| || w.end2 == |s2|)
      && w.end1 + w.end2 == i1 + i2 + 2 * w.matching + w.disjoint
      && w.matching <= w.end1 - i1
      && w.weightDiff >= 0.0
    decreases |s1| - i1 + |s2| - i2
  {
    if i1 < |s1| && i2 < |s2| {
      var in1, in2 := s1[i1].innovationNumber, s2[i2].innovationNumber;
      if in1 == in2 {
        WalkAccounting(s1, s2, i1 + 1, i2 + 1);
      } else if in1 > in2 {
        WalkAccounting(s1, s2, i1, i2 + 1);
      } else {
        WalkAccounting(s1, s2, i1 + 1, i2);
      }
    }
  }

  /** A list walked against itself matches every gene with weight difference 0. */
  lemma {:induction false} WalkSelf(s: seq<ConnectionGene>, i: nat)
    requires i <= |s|
    ensures WalkFrom(s, s, i, i) == Walk(|s|, |s|, 0, |s| - i, 0.0)
    decreases |s| - i
  {
    if i < |s| {
      WalkSelf(s, i + 1);
    }
  }

  /** Swapping the lists swaps the end positions and keeps every count. */
  lemma {:induction false} WalkSwap(s1: seq<ConnectionGene>, s2: seq<ConnectionGene>, i1: nat, i2: nat)
    requires i1 <= |s1| && i2 <= |s2|
    ensures var w := WalkFrom(s1, s2, i1, i2);
      WalkFrom(s2, s1, i2, i1) == Walk(w.end2, w.end1, w.disjoint, w.matching, w.weightDiff)
    decreases |s1| - i1 + |s2| - i2
  {
    if i1 < |s1| && i2 < |s2| {
      var in1, in2 := s1[i1].innovationNumber, s2[i2].innovationNumber;
      if in1 == in2 {
        WalkSwap(s1, s2, i1 + 1, i2 + 1);
        assert Abs(s1[i1].weight - s2[i2].weight) == Abs(s2[i2].weight - s1[i1].weight);
      } else if in1 > in2 {
        WalkSwap(s1, s2, i1, i2 + 1);
      } else {
        WalkSwap(s1, s2, i1 + 1, i2);
      }
    }
  }

  /** In a strictly sorted list every gene before the last has a smaller
      innovation number than the last. */
  lemma LastIsLargest(s: seq<ConnectionGene>, i: nat)
    requires StrictlySorted(s) && i < |s|
    ensures s[i].innovationNumber <= s[|s| - 1].innovationNumber
    ensures i < |s| - 1 ==> s[i].innovationNumber < s[|s| - 1].innovationNumber
  {
  }

  /** Two strictly sorted lists ending in the same innovation number are both
      walked to the end: neither has excess. */
  lemma {:induction false} WalkSameLast(s1: seq<ConnectionGene>, s2: seq<ConnectionGene>, i1: nat, i2: nat)
    requires StrictlySorted(s1) && StrictlySorted(s2)
    requires i1 < |s1| && i2 < |s2|
    requires s1[|s1| - 1].innovationNumber == s2[|s2| - 1].innovationNumber
    ensures WalkFrom(s1, s2, i1, i2).end1 == |s1| && WalkFrom(s1, s2, i1, i2).end2 == |s2|
    decreases |s1| - i1 + |s2| - i2
  {
    var in1, in2 := s1[i1].innovationNumber, s2[i2].innovationNumber;
    LastIsLargest(s1, i1);
    LastIsLargest(s2, i2);
    if in1 == in2 {
      if i1 + 1 < |s1| && i2 + 1 < |s2| {
        WalkSameLast(s1, s2, i1 + 1, i2 + 1);
      }
    } else if in1 > in2 {
      WalkSameLast(s1, s2, i1, i2 + 1);
    } else {
      WalkSameLast(s1, s2, i1 + 1, i2);
    }
  }

  // ---------------------------------------------------------------------------
  // Distance

  /** A genome is at distance 0 from itself. */
  lemma DistanceToSelfIsZero(s: seq<ConnectionGene>, c1: real, c2: real, c3: real)
    ensures DistanceOf(s, s, c1, c2, c3) == 0.0
  {
    WalkSelf(s, 0);
  }

  /** Measured from an empty first list the distance is always 0 ... */
  lemma DistanceFromEmpty(s: seq<ConnectionGene>, c1: real, c2: real, c3: real)
    ensures DistanceOf([], s, c1, c2, c3) == 0.0
  {
  }

  /** ... but towards an empty second list every gene is excess. */
  lemma DistanceToEmpty(s: seq<ConnectionGene>, c1: real, c2: real, c3: real)
    requires s != []
    ensures DistanceOf(s, [], c1, c2, c3) == Formula(0, |s|, Normaliser(|s|, 0), 0.0, c1, c2, c3)
  {
  }

  /** The highest innovation number of a list ordered by innovation number:
      that of its last gene, 0 for an empty list. */
  function LastInnovation(s: seq<ConnectionGene>): nat
  {
    if s == [] then 0 else s[|s| - 1].innovationNumber
  }

  /** `distance` with the heavier genome first, as the ordering step intends. */
  function SymmetricDistance(s1: seq<ConnectionGene>, s2: seq<ConnectionGene>, c1: real, c2: real, c3: real): real
  {
    if LastInnovation(s1) < LastInnovation(s2) then DistanceOf(s2, s1, c1, c2, c3)
    else DistanceOf(s1, s2, c1, c2, c3)
  }

  /** Two non-empty strictly sorted lists with the same last innovation number
      are at the same distance in either order. */
  lemma DistanceOfSameLastSymmetric(s1: seq<ConnectionGene>, s2: seq<ConnectionGene>, c1: real, c2: real, c3: real)
    requires StrictlySorted(s1) && StrictlySorted(s2) && s1 != [] && s2 != []
    requires LastInnovation(s1) == LastInnovation(s2)
    ensures DistanceOf(s1, s2, c1, c2, c3) == DistanceOf(s2, s1, c1, c2, c3)
  {
    var w1, w2 := WalkFrom(s1, s2, 0, 0), WalkFrom(s2, s1, 0, 0);
    WalkSwap(s1, s2, 0, 0);
    WalkSameLast(s1, s2, 0, 0);
    assert Normaliser(|s1|, |s2|) == Normaliser(|s2|, |s1|);
    assert w1.disjoint == w2.disjoint && AverageDiff(w1) == AverageDiff(w2);
    assert |s1| - w1.end1 == 0 == |s2| - w2.end1;
  }

  /** With the ordering by last innovation number, the distance is symmetric
      for lists strictly sorted by positive innovation numbers (what the
      registry hands out). */
  lemma SymmetricDistanceIsSymmetric(s1: seq<ConnectionGene>, s2: seq<ConnectionGene>, c1: real, c2: real, c3: real)
    requires StrictlySorted(s1) && StrictlySorted(s2)
    requires forall k :: 0 <= k < |s1| ==> s1[k].innovationNumber >= 1
    requires forall k :: 0 <= k < |s2| ==> s2[k].innovationNumber >= 1
    ensures SymmetricDistance(s1, s2, c1, c2, c3) == SymmetricDistance(s2, s1, c1, c2, c3)
  {
    if LastInnovation(s1) == LastInnovation(s2) && s1 != [] && s2 != [] {
      DistanceOfSameLastSymmetric(s1, s2, c1, c2, c3);
    }
  }

  /** `order_genomes` compares `highest_innov_num`, which is 0 for every
      genome, so the lists keep the given order; a single gene against
      nothing is excess one way and invisible the other way. */
  lemma DistanceAsWrittenAsymmetric(g: ConnectionGene, c1: real, c2: real, c3: real)
    requires c2 != 0.0
    ensures DistanceOf([g], [], c1, c2, c3) == c2
    ensures DistanceOf([], [g], c1, c2, c3) == 0.0
    ensures DistanceOf([g], [], c1, c2, c3) != DistanceOf([], [g], c1, c2, c3)
  {
    DistanceToEmpty([g], c1, c2, c3);
  }

  // ---------------------------------------------------------------------------
  // Crossover

  /** The child inherits one gene per gene of the first list, position by
      position with the same innovation number, each either that gene or a
      gene of the second list. */
  lemma {:induction false} InheritedAligned(s1: seq<ConnectionGene>, s2: seq<ConnectionGene>, i1: nat, i2: nat,
                                            pickFirst: nat -> bool)
    requires i1 <= |s1| && i2 <= |s2|
    ensures var r := InheritedFrom(s1, s2, i1, i2, pickFirst);
      && |r| == |s1| - i1
      && forall k :: 0 <= k < |r| ==>
           && r[k].innovationNumber == s1[i1 + k].innovationNumber
           && (r[k] == s1[i1 + k] || r[k] in s2)
    decreases |s1| - i1 + |s2| - i2
  {
    if i1 < |s1| && i2 < |s2| {
      var in1, in2 := s1[i1].innovationNumber, s2[i2].innovationNumber;
      if in1 == in2 {
        InheritedAligned(s1, s2, i1 + 1, i2 + 1, pickFirst);
      } else if in1 > in2 {
        InheritedAligned(s1, s2, i1, i2 + 1, pickFirst);
      } else {
        InheritedAligned(s1, s2, i1 + 1, i2, pickFirst);
      }
    }
  }

  /** Hence the child carries exactly the first parent's innovation numbers, in
      the same order, and is strictly sorted when the first parent is. */
  lemma CrossoverInnovations(s1: seq<ConnectionGene>, s2: seq<ConnectionGene>, pickFirst: nat -> bool)
    ensures InnovationSequence(InheritedFrom(s1, s2, 0, 0, pickFirst)) == InnovationSequence(s1)
    ensures StrictlySorted(s1) ==> StrictlySorted(InheritedFrom(s1, s2, 0, 0, pickFirst))
  {
    InheritedAligned(s1, s2, 0, 0, pickFirst);
  }

  /** Whatever the coin says, crossing a list with itself reproduces it. */
  lemma {:induction false} CrossoverWithSelf(s: seq<ConnectionGene>, i: nat, pickFirst: nat -> bool)
    requires i <= |s|
    ensures InheritedFrom(s, s, i, i, pickFirst) == s[i..]
    decreases |s| - i
  {
    if i < |s| {
      CrossoverWithSelf(s, i + 1, pickFirst);
      assert s[i..] == [s[i]] + s[i + 1..];
    }
  }

  /** A coin that always picks the first parent reproduces the first list. */
  lemma {:induction false} CrossoverFirstParentOnly(s1: seq<ConnectionGene>, s2: seq<ConnectionGene>, i1: nat, i2: nat)
    requires i1 <= |s1| && i2 <= |s2|
    ensures InheritedFrom(s1, s2, i1, i2, k => true) == s1[i1..]
    decreases |s1| - i1 + |s2| - i2
  {
    if i1 < |s1| && i2 < |s2| {
      assert s1[i1..] == [s1[i1]] + s1[i1 + 1..];
      var in1, in2 := s1[i1].innovationNumber, s2[i2].innovationNumber;
      if in1 == in2 {
        CrossoverFirstParentOnly(s1, s2, i1 + 1, i2 + 1);
      } else if in1 > in2 {
        CrossoverFirstParentOnly(s1, s2, i1, i2 + 1);
      } else {
        CrossoverFirstParentOnly(s1, s2, i1 + 1, i2);
      }
    }
  }

  /** Every endpoint listed belongs to one of the genes, and both endpoints of
      every gene are listed. */
  lemma {:induction false} EndpointsOfGenes(cs: seq<ConnectionGene>)
    ensures forall n :: n in Endpoints(cs) <==> exists c :: c in cs && (n == c.from || n == c.to)
  {
    if cs != [] {
      var init := cs[..|cs| - 1];
      EndpointsOfGenes(init);
      assert cs == init + [cs[|cs| - 1]];
      forall n ensures n in Endpoints(cs) <==> exists c :: c in cs && (n == c.from || n == c.to) {
        if n in Endpoints(init) {
          var c :| c in init && (n == c.from || n == c.to);
          assert c in cs;
        }
        if exists c :: c in cs && (n == c.from || n == c.to) {
          var c :| c in cs && (n == c.from || n == c.to);
          if c != cs[|cs| - 1] {
            assert c in init;
          }
        }
      }
    }
  }
}

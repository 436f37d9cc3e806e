/** A client owns one genome, its fitness and, once it has been asked to
    calculate, the evaluator built from that genome. */
module Clients {
  import opened Wrappers
  import opened Genomes
  import opened Calculators

  const LENGTH_ERROR := "inputs is not the same length as the input nodes"

  /** The layout `Calculator::new` gives an evaluator built from these genes. */
  ghost predicate BuiltFrom(evaluator: Calculator, genes: seq<NodeGenes.NodeGene>)
    reads evaluator
  {
    && evaluator.inputNodes == Members(genes, Input)
    && evaluator.outputNodes == Members(genes, Output)
    && SortedByX(evaluator.hiddenNodes)
    && multiset(evaluator.hiddenNodes) == multiset(Members(genes, Hidden))
  }

  /** One run of `Calculator::calculate` on an evaluator whose groups were
      `ins`, `hidden` and `outs`: a length mismatch changes nothing; otherwise
      the inputs are loaded, the hidden nodes are calculated, and the result
      is the empty vector when there is no output node and a panic at the
      first one otherwise. */
  ghost predicate Ran(evaluator: Calculator, ins: seq<CalcNode>, hidden: seq<CalcNode>, outs: seq<CalcNode>,
                      inputs: seq<real>, r: Outcome<Result<seq<real>>>)
    reads evaluator
  {
    if |inputs| != |ins| then
      && r == Returned(Err(LENGTH_ERROR))
      && evaluator.inputNodes == ins && evaluator.hiddenNodes == hidden && evaluator.outputNodes == outs
    else
      && evaluator.inputNodes == Loaded(ins, inputs)
      && evaluator.hiddenNodes == Activated(hidden)
      && (outs == [] ==> r == Returned(Ok([])) && evaluator.outputNodes == [])
      && (outs != [] ==> r.Panicked? && evaluator.outputNodes == outs[0 := outs[0].(output := SIGMOID_AT_ZERO)])
  }

  class Client {
    const genome: Genome
    var calculator: Option<Calculator>
    var fitness: real

    /** `Client::new`: no evaluator yet and fitness 0. */
    constructor (genome: Genome)
      ensures this.genome == genome && calculator == None && fitness == 0.0
    {
      this.genome := genome;
      calculator := None;
      fitness := 0.0;
    }

    /** `generate_calculator`: replaces any evaluator by a fresh one built
        from the genome; building panics when a connection names a node the
        genome does not hold, and then nothing is replaced. */
    method GenerateCalculator() returns (r: Outcome<()>)
      modifies this`calculator
      ensures r.Panicked? <==> !EndpointsKnown(genome.connections.data, genome.nodes.data)
      ensures r.Panicked? ==> calculator == old(calculator)
      ensures r.Returned? ==>
        calculator.Some? && fresh(calculator.value) && BuiltFrom(calculator.value, genome.nodes.data)
    {
      var built := NewCalculator(genome.nodes.data, genome.connections.data);
      match built
      case Panicked(message) =>
        return Panicked(message);
      case Returned(evaluator) =>
        calculator := Some(evaluator);
        return Returned(());
    }

    /** `calculate`: builds the evaluator only when there is none, then runs
        it. An existing evaluator is reused, so a later change to the genome
        is not seen. Whichever evaluator runs, the length check is against
        its input nodes, and a successful run yields the empty vector. */
    method Calculate(inputs: seq<real>) returns (r: Outcome<Result<seq<real>>>)
      modifies this`calculator, if calculator.Some? then {calculator.value} else {}
      ensures old(calculator).Some? ==> calculator == old(calculator)
      ensures old(calculator).Some? ==>
        (r == Returned(Err(LENGTH_ERROR)) <==> |inputs| != |old(calculator.value.inputNodes)|)
      ensures old(calculator).None? && !EndpointsKnown(genome.connections.data, genome.nodes.data) ==>
        r.Panicked? && calculator == None
      ensures old(calculator).None? && EndpointsKnown(genome.connections.data, genome.nodes.data) ==>
        && calculator.Some? && fresh(calculator.value)
        && (r == Returned(Err(LENGTH_ERROR)) <==> |inputs| != |Members(genome.nodes.data, Input)|)
        && (|inputs| == |Members(genome.nodes.data, Input)| ==>
              (r.Panicked? <==> Members(genome.nodes.data, Output) != []))
      ensures r.Returned? && r.value.Ok? ==> r.value.value == []
      ensures old(calculator).Some? ==>
        Ran(calculator.value, old(calculator.value.inputNodes), old(calculator.value.hiddenNodes),
            old(calculator.value.outputNodes), inputs, r)
      ensures old(calculator).None? && EndpointsKnown(genome.connections.data, genome.nodes.data) ==>
        exists hidden ::
          && SortedByX(hidden) && multiset(hidden) == multiset(Members(genome.nodes.data, Hidden))
          && Ran(calculator.value, Members(genome.nodes.data, Input), hidden,
                 Members(genome.nodes.data, Output), inputs, r)
    {
      if calculator.None? {
        var built := GenerateCalculator();
        if built.Panicked? {
          return Panicked(built.message);
        }
      }
      var evaluator := calculator.value;
      ghost var ins, hidden, outs := evaluator.inputNodes, evaluator.hiddenNodes, evaluator.outputNodes;
      r := evaluator.Calculate(inputs);
      assert Ran(evaluator, ins, hidden, outs, inputs, r);
    }
  }
}

/** The network node of the older network revision: a type flag, an
    activation count and sum, and a short history of past sums. */
module Nodes {

  /** `NodeType`. */
  datatype NodeType = Sensor | Neuron

  /** A link between two nodes; only its weight is kept here. */
  datatype Link = Link(weight: real)

  /** `archive_active_sum` on the history: the new sum goes to the front,
      and when that makes more than two entries the last one is dropped. */
  function Archived(history: seq<real>, sum: real): (r: seq<real>)
    ensures |r| >= 1 && r[0] == sum
    ensures r[1..] <= history
    ensures |history| <= 1 ==> r == [sum] + history
    ensures |history| >= 2 ==> |r| == |history| && r[1..] == history[..|history| - 1]
  {
    var inserted := [sum] + history;
    if |inserted| > 2 then inserted[..|inserted| - 1] else inserted
  }

  class Node {
    var nodeId: nat
    var nodeType: NodeType
    var activated: bool
    var activeSum: real
    var prevActiveSums: seq<real>
    var numActivations: nat
    var incoming: seq<Link>
    var outcoming: seq<Link>

    /** `Node::new`: a neuron numbered 0, not activated, with no activations,
        no history and no links. */
    constructor ()
      ensures nodeId == 0 && nodeType == Neuron && !activated
      ensures activeSum == 0.0 && prevActiveSums == [] && numActivations == 0
      ensures incoming == [] && outcoming == []
    {
      nodeId := 0;
      nodeType := Neuron;
      activated := false;
      activeSum := 0.0;
      prevActiveSums := [];
      numActivations := 0;
      incoming := [];
      outcoming := [];
    }

    /** `get_active_sum`: the sum once the node has been activated, 0 before. */
    function GetActiveSum(): (r: real)
      reads this
      ensures numActivations == 0 ==> r == 0.0
      ensures numActivations > 0 ==> r == activeSum
    {
      if numActivations > 0 then activeSum else 0.0
    }

    function IsSensor(): (b: bool)
      reads this
      ensures b <==> nodeType == Sensor
    {
      nodeType == Sensor
    }

    function IsNeuron(): (b: bool)
      reads this
      ensures b <==> nodeType == Neuron
    {
      nodeType == Neuron
    }

    /** `set_type` overwrites the type and nothing else. */
    method SetType(t: NodeType)
      modifies this`nodeType
      ensures nodeType == t
      ensures IsSensor() <==> t == Sensor
      ensures IsNeuron() <==> t == Neuron
    {
      nodeType := t;
    }

    /** `archive_active_sum`. */
    method ArchiveActiveSum(sum: real)
      modifies this`prevActiveSums
      ensures prevActiveSums == Archived(old(prevActiveSums), sum)
    {
      prevActiveSums := [sum] + prevActiveSums;
      if |prevActiveSums| > 2 {
        prevActiveSums := prevActiveSums[..|prevActiveSums| - 1];
      }
    }
  }

  // ---------------------------------------------------------------------------
  // Lemmas

  /** A node is a sensor exactly when it is not a neuron. */
  lemma SensorIffNotNeuron(n: Node)
    ensures n.IsSensor() <==> !n.IsNeuron()
  {
  }

  /** A history of at most two entries stays at most two; it grows by one
      until it has two. */
  lemma ArchivedKeepsAtMostTwo(history: seq<real>, sum: real)
    requires |history| <= 2
    ensures |Archived(history, sum)| == if |history| < 2 then |history| + 1 else 2
  {
  }

  /** After archiving, the previous front is second. */
  lemma ArchivedShiftsFront(history: seq<real>, sum: real)
    requires |history| > 0
    ensures Archived(history, sum)[1] == history[0]
  {
  }

  /** The history test: archiving 1, 17 and 7 into an empty history leaves
      lengths 1, 2 and 2, ending with 7 before 17. */
  lemma {:induction false} HistoryScenario()
    ensures |Archived([], 1.0)| == 1
    ensures Archived(Archived([], 1.0), 17.0) == [17.0, 1.0]
    ensures Archived(Archived(Archived([], 1.0), 17.0), 7.0) == [7.0, 17.0]
  {
    assert Archived([], 1.0) == [1.0];
    assert Archived([1.0], 17.0) == [17.0, 1.0];
    assert ([7.0] + [17.0, 1.0])[..2] == [7.0, 17.0];
  }
}

/** The configuration: twelve numeric options and an activation function,
    built from a vector of values or read from the lines of a file of
    `name: value` pairs. Reading the file and parsing a float are not part of
    this model: the lines are given, and float parsing is a parameter. */
module Configs {
  import opened Wrappers

  /** `ActivationFunction`. */
  datatype Activation = Sigmoid | Relu

  /** `Config`: the twelve numeric fields in declared order, then the activation. */
  datatype Config = Config(
    multDisjoint: real,
    multExcess: real,
    multWeightDiff: real,
    weightShiftStrength: real,
    weightRandomStrength: real,
    probMutateLink: real,
    probMutateNode: real,
    probMutateWeightShift: real,
    probMutateWeightRandom: real,
    probMutateToggleLink: real,
    speciesThreshold: real,
    killPercentage: real,
    activation: Activation)

  /** The file keys of the numeric fields, in declared order. */
  const NUMERIC_KEYS: seq<string> := [
    "mult_disjoint", "mult_excess", "mult_weight_diff",
    "weight_shift_strength", "weight_random_strength",
    "prob_mutate_link", "prob_mutate_node", "prob_mutate_weight_shift",
    "prob_mutate_weight_random", "prob_mutate_toggle_link",
    "species_threshold", "kill_percentage"]

  /** The file key of the activation. */
  const ACTIVATION_KEY: string := "activation"

  /** `ActivationFunction::from`: exactly "relu" or "sigmoid"; anything else panics. */
  function ActivationFrom(value: string): (r: Outcome<Activation>)
    ensures r == Returned(Relu) <==> value == "relu"
    ensures r == Returned(Sigmoid) <==> value == "sigmoid"
    ensures r.Panicked? <==> value != "relu" && value != "sigmoid"
  {
    match value
    case "relu" => Returned(Relu)
    case "sigmoid" => Returned(Sigmoid)
    case _ => Panicked("Wrong activation input")
  }

  /** The name `ActivationFrom` accepts for each activation. */
  function ActivationName(a: Activation): string
  {
    match a
    case Relu => "relu"
    case Sigmoid => "sigmoid"
  }

  /** The numeric fields, in declared order. */
  function Fields(c: Config): (r: seq<real>)
    ensures |r| == 12
  {
    [c.multDisjoint, c.multExcess, c.multWeightDiff,
     c.weightShiftStrength, c.weightRandomStrength,
     c.probMutateLink, c.probMutateNode, c.probMutateWeightShift,
     c.probMutateWeightRandom, c.probMutateToggleLink,
     c.speciesThreshold, c.killPercentage]
  }

  /** The config with the given numeric fields, in declared order. */
  function WithFields(v: seq<real>, activation: Activation): (c: Config)
    requires |v| == 12
    ensures Fields(c) == v && c.activation == activation
  {
    Config(v[0], v[1], v[2], v[3], v[4], v[5], v[6], v[7], v[8], v[9], v[10], v[11], activation)
  }

  /** `Config::from_vec`: exactly twelve values, assigned to the fields in
      declared order, and an activation name; the length is checked first. */
  function FromVec(variables: seq<real>, activation: string): (r: Outcome<Config>)
    ensures r.Returned? <==> |variables| == 12 && (activation == "relu" || activation == "sigmoid")
    ensures |variables| != 12 ==> r == Panicked("assertion failed: variables.len() == 12")
    ensures r.Returned? ==> Fields(r.value) == variables && Returned(r.value.activation) == ActivationFrom(activation)
  {
    if |variables| != 12 then Panicked("assertion failed: variables.len() == 12")
    else
      match ActivationFrom(activation)
      case Panicked(m) => Panicked(m)
      case Returned(a) => Returned(WithFields(variables, a))
  }

  /** `Config::init_zero`: every numeric field 0, activation Relu. */
  function InitZero(): (c: Config)
    ensures forall k :: 0 <= k < 12 ==> Fields(c)[k] == 0.0
    ensures c.activation == Relu
  {
    Config(0.0, 0.0, 0.0, 0.0, 0.0, 0.0, 0.0, 0.0, 0.0, 0.0, 0.0, 0.0, Relu)
  }

  // ---------------------------------------------------------------------------
  // from_file

  /** ASCII lower-casing, as `to_lowercase` does on ASCII text. */
  function Lower(s: string): (r: string)
    ensures |r| == |s|
  {
    seq(|s|, i requires 0 <= i < |s| => if 'A' <= s[i] <= 'Z' then (s[i] as int + 32) as char else s[i])
  }

  /** The separator ": " occurs nowhere in `s`. */
  predicate NoSeparator(s: string)
  {
    forall i :: 0 <= i < |s| - 1 ==> !(s[i] == ':' && s[i + 1] == ' ')
  }

  /** `split(": ")`: the pieces between the separators, left to right; a line
      without one is a single piece. No piece holds a separator, and a line
      that does not start with one starts its first piece. */
  function Segments(line: string): (r: seq<string>)
    ensures |r| >= 1
    ensures forall j :: 0 <= j < |r| ==> NoSeparator(r[j])
    ensures |line| > 0 && !(|line| >= 2 && line[0] == ':' && line[1] == ' ') ==>
      |r[0]| > 0 && r[0][0] == line[0]
    ensures |line| >= 2 && line[0] == ':' && line[1] == ' ' ==> r[0] == ""
    decreases |line|
  {
    if |line| < 2 then [line]
    else if line[0] == ':' && line[1] == ' ' then [""] + Segments(line[2..])
    else
      var rest := Segments(line[1..]);
      assert NoSeparator([line[0]] + rest[0]) by {
        var piece := [line[0]] + rest[0];
        assert NoSeparator(rest[0]);
        forall i | 0 <= i < |piece| - 1 ensures !(piece[i] == ':' && piece[i + 1] == ' ') {
          if i > 0 {
            assert piece[i] == rest[0][i - 1] && piece[i + 1] == rest[0][i];
          } else {
            assert |rest[0]| > 0;
            assert !(|line[1..]| >= 2 && line[1..][0] == ':' && line[1..][1] == ' ');
            assert piece[1] == rest[0][0] == line[1];
          }
        }
      }
      [[line[0]] + rest[0]] + rest[1..]
  }

  /** The pieces joined back with the separator. */
  function Join(pieces: seq<string>): string
    requires |pieces| >= 1
  {
    if |pieces| == 1 then pieces[0] else pieces[0] + ": " + Join(pieces[1..])
  }

  /** The index of a numeric key, if the lower-cased name is one. */
  function KeyIndex(name: string): (r: Option<nat>)
    ensures r.Some? ==> r.value < 12 && NUMERIC_KEYS[r.value] == name
    ensures r.None? ==> name !in NUMERIC_KEYS
  {
    if name == NUMERIC_KEYS[0] then Some(0)
    else if name == NUMERIC_KEYS[1] then Some(1)
    else if name == NUMERIC_KEYS[2] then Some(2)
    else if name == NUMERIC_KEYS[3] then Some(3)
    else if name == NUMERIC_KEYS[4] then Some(4)
    else if name == NUMERIC_KEYS[5] then Some(5)
    else if name == NUMERIC_KEYS[6] then Some(6)
    else if name == NUMERIC_KEYS[7] then Some(7)
    else if name == NUMERIC_KEYS[8] then Some(8)
    else if name == NUMERIC_KEYS[9] then Some(9)
    else if name == NUMERIC_KEYS[10] then Some(10)
    else if name == NUMERIC_KEYS[11] then Some(11)
    else None
  }

  /** One numeric field replaced. */
  function WithField(c: Config, k: nat, v: real): (r: Config)
    requires k < 12
    ensures Fields(r) == Fields(c)[k := v] && r.activation == c.activation
  {
    WithFields(Fields(c)[k := v], c.activation)
  }

  /** The dispatch over the pieces of one line, from the front: an empty
      piece is skipped; a numeric key takes the next piece as its value,
      parsed by `parseFloat`; the activation key takes the next piece as an
      activation name; the value is never lower-cased. A key with no next
      piece, a value that does not parse and any other name panic. */
  function ApplySegments(c: Config, segs: seq<string>, parseFloat: string -> Option<real>): Outcome<Config>
    decreases |segs|
  {
    if segs == [] then Returned(c)
    else
      var name := Lower(segs[0]);
      if name == "" then ApplySegments(c, segs[1..], parseFloat)
      else if KeyIndex(name).Some? then
        if |segs| < 2 then Panicked("No number after parameter")
        else
          match parseFloat(segs[1])
          case None => Panicked("No valid float supplied")
          case Some(v) => ApplySegments(WithField(c, KeyIndex(name).value, v), segs[2..], parseFloat)
      else if name == ACTIVATION_KEY then
        if |segs| < 2 then Panicked("No string after parameter")
        else
          match ActivationFrom(segs[1])
          case Panicked(m) => Panicked(m)
          case Returned(a) => ApplySegments(c.(activation := a), segs[2..], parseFloat)
      else Panicked("No recognized pattern")
  }

  /** The remaining lines applied to a config that is still being read. */
  function ApplyLines(c: Config, lines: seq<string>, parseFloat: string -> Option<real>): Outcome<Config>
    decreases |lines|, 1
  {
    if lines == [] then Returned(c)
    else ThenLines(ApplySegments(c, Segments(lines[0]), parseFloat), lines[1..], parseFloat)
  }

  /** Continue with the remaining lines unless the line panicked. */
  function ThenLines(o: Outcome<Config>, lines: seq<string>, parseFloat: string -> Option<real>): Outcome<Config>
    decreases |lines| + 1, 0
  {
    match o
    case Panicked(m) => Panicked(m)
    case Returned(c) => ApplyLines(c, lines, parseFloat)
  }

  /** `Config::from_file` over the file's lines. */
  function FromLines(lines: seq<string>, parseFloat: string -> Option<real>): Outcome<Config>
  {
    ApplyLines(InitZero(), lines, parseFloat)
  }

  /** The same, as the source computes it: a loop over the lines and, within
      each, over its pieces, assigning into a config that starts at zero. */
  method FromFile(lines: seq<string>, parseFloat: string -> Option<real>) returns (r: Outcome<Config>)
    ensures r == FromLines(lines, parseFloat)
  {
    var config := InitZero();
    var i := 0;
    while i < |lines|
      invariant i <= |lines|
      invariant FromLines(lines, parseFloat) == ApplyLines(config, lines[i..], parseFloat)
    {
      assert lines[i..][1..] == lines[i + 1..];
      var split := Segments(lines[i]);
      var j := 0;
      while j < |split|
        invariant j <= |split|
        invariant FromLines(lines, parseFloat)
               == ThenLines(ApplySegments(config, split[j..], parseFloat), lines[i + 1..], parseFloat)
      {
        assert split[j..][1..] == split[j + 1..];
        var name := Lower(split[j]);
        j := j + 1;
        var key := KeyIndex(name);
        if name == "" {
        } else if key.Some? {
          if j >= |split| {
            return Panicked("No number after parameter");
          }
          var parsed := parseFloat(split[j]);
          if parsed.None? {
            return Panicked("No valid float supplied");
          }
          assert split[j - 1..][2..] == split[j + 1..];
          config := WithField(config, key.value, parsed.value);
          j := j + 1;
        } else if name == ACTIVATION_KEY {
          if j >= |split| {
            return Panicked("No string after parameter");
          }
          var activation := ActivationFrom(split[j]);
          if activation.Panicked? {
            return Panicked(activation.message);
          }
          assert split[j - 1..][2..] == split[j + 1..];
          config := config.(activation := activation.value);
          j := j + 1;
        } else {
          return Panicked("No recognized pattern");
        }
      }
      i := i + 1;
    }
    r := Returned(config);
  }

  // ---------------------------------------------------------------------------
  // Lemmas

  /** `from_vec` inverts `Fields`: a config rebuilt from its own fields and
      its activation's name is the same config. */
  lemma FromVecRoundTrip(c: Config)
    ensures FromVec(Fields(c), ActivationName(c.activation)) == Returned(c)
  {
  }

  /** Splitting on the separator and joining back gives the line. */
  lemma {:induction false} SegmentsJoin(line: string)
    ensures Join(Segments(line)) == line
    decreases |line|
  {
    if |line| < 2 {
    } else if line[0] == ':' && line[1] == ' ' {
      SegmentsJoin(line[2..]);
      assert line == ": " + line[2..];
    } else {
      var rest := Segments(line[1..]);
      SegmentsJoin(line[1..]);
      JoinConsPiece(line[0], rest);
      assert line == [line[0]] + line[1..];
    }
  }

  /** Prefixing the first piece prefixes the joined line. */
  lemma JoinConsPiece(ch: char, pieces: seq<string>)
    requires |pieces| >= 1
    ensures Join([[ch] + pieces[0]] + pieces[1..]) == [ch] + Join(pieces)
  {
    var head := [ch] + pieces[0];
    var joined := [head] + pieces[1..];
    assert joined[0] == head && joined[1..] == pieces[1..];
    if |pieces| > 1 {
      var later := Join(pieces[1..]);
      var first := pieces[0] + ": ";
      assert Join(joined) == (head + ": ") + later;
      assert Join(pieces) == first + later;
      ConcatAssociates([ch], pieces[0], ": ");
      ConcatAssociates([ch], first, later);
    }
  }

  lemma ConcatAssociates<T>(a: seq<T>, b: seq<T>, c: seq<T>)
    ensures (a + b) + c == a + (b + c)
  {
  }

  /** An empty piece is skipped. */
  lemma EmptySegmentSkipped(c: Config, rest: seq<string>, parseFloat: string -> Option<real>)
    ensures ApplySegments(c, [""] + rest, parseFloat) == ApplySegments(c, rest, parseFloat)
  {
    assert ([""] + rest)[1..] == rest;
  }

  /** A name that is neither empty nor a key panics. */
  lemma UnknownKeyPanics(c: Config, segs: seq<string>, parseFloat: string -> Option<real>)
    requires |segs| > 0
    requires Lower(segs[0]) != "" && Lower(segs[0]) !in NUMERIC_KEYS && Lower(segs[0]) != ACTIVATION_KEY
    ensures ApplySegments(c, segs, parseFloat) == Panicked("No recognized pattern")
  {
  }

  /** A key that ends the line panics for want of a value. */
  lemma KeyWithoutValuePanics(c: Config, key: string, parseFloat: string -> Option<real>)
    requires Lower(key) in NUMERIC_KEYS || Lower(key) == ACTIVATION_KEY
    ensures ApplySegments(c, [key], parseFloat).Panicked?
  {
  }

  /** A numeric key with a parsable value sets exactly that field. */
  lemma KeySetsField(c: Config, key: string, value: string, rest: seq<string>,
                     parseFloat: string -> Option<real>, k: nat)
    requires k < 12 && Lower(key) == NUMERIC_KEYS[k] && parseFloat(value).Some?
    ensures ApplySegments(c, [key, value] + rest, parseFloat)
         == ApplySegments(WithField(c, k, parseFloat(value).value), rest, parseFloat)
  {
    assert ([key, value] + rest)[2..] == rest;
  }

  /** A later occurrence of a key overwrites an earlier one. */
  lemma LaterKeyOverwrites(c: Config, key: string, a: string, b: string, rest: seq<string>,
                           parseFloat: string -> Option<real>, k: nat)
    requires k < 12 && Lower(key) == NUMERIC_KEYS[k]
    requires parseFloat(a).Some? && parseFloat(b).Some?
    ensures ApplySegments(c, [key, a, key, b] + rest, parseFloat)
         == ApplySegments(c, [key, b] + rest, parseFloat)
  {
    KeySetsField(c, key, a, [key, b] + rest, parseFloat, k);
    assert [key, a, key, b] + rest == [key, a] + ([key, b] + rest);
    var c1 := WithField(c, k, parseFloat(a).value);
    KeySetsField(c1, key, b, rest, parseFloat, k);
    KeySetsField(c, key, b, rest, parseFloat, k);
    assert WithField(c1, k, parseFloat(b).value) == WithField(c, k, parseFloat(b).value) by {
      assert Fields(c1)[k := parseFloat(b).value] == Fields(c)[k := parseFloat(b).value];
    }
  }

  /** A piece without a separator is not split. */
  lemma {:induction false} SegmentsOfPlain(s: string)
    requires NoSeparator(s)
    ensures Segments(s) == [s]
    decreases |s|
  {
    if |s| >= 2 {
      SegmentsOfPlain(s[1..]);
      assert [s[0]] + s[1..] == s;
    }
  }

  /** A line `key: value` splits into the key and the value. */
  lemma {:induction false} SegmentsOfPair(key: string, value: string)
    requires NoSeparator(key) && NoSeparator(value)
    ensures Segments(key + ": " + value) == [key, value]
    decreases |key|
  {
    var line := key + ": " + value;
    if key == [] {
      assert line == ": " + value && line[2..] == value;
      SegmentsOfPlain(value);
    } else {
      SegmentsOfPair(key[1..], value);
      assert line[1..] == key[1..] + ": " + value;
      assert !(line[0] == ':' && line[1] == ' ') by {
        if |key| >= 2 {
          assert line[0] == key[0] && line[1] == key[1];
        } else {
          assert line[1] == ':';
        }
      }
      assert [key[0]] + key[1..] == key;
    }
  }

  /** Reading lines one after the other: the later lines continue from the
      config the earlier ones left, and a panic stops the reading. */
  lemma {:induction false} ApplyLinesAppend(c: Config, pre: seq<string>, post: seq<string>,
                                           parseFloat: string -> Option<real>)
    ensures ApplyLines(c, pre + post, parseFloat) == ThenLines(ApplyLines(c, pre, parseFloat), post, parseFloat)
    decreases |pre|
  {
    if pre == [] {
      assert pre + post == post;
    } else {
      assert (pre + post)[0] == pre[0] && (pre + post)[1..] == pre[1..] + post;
      var o := ApplySegments(c, Segments(pre[0]), parseFloat);
      if o.Returned? {
        ApplyLinesAppend(o.value, pre[1..], post, parseFloat);
      }
    }
  }

  /** A line `key: value` for a numeric key sets that field and reading
      goes on with the next line. */
  lemma KeyLineSetsField(c: Config, key: string, value: string, rest: seq<string>,
                         parseFloat: string -> Option<real>, k: nat)
    requires k < 12 && Lower(key) == NUMERIC_KEYS[k]
    requires NoSeparator(key) && NoSeparator(value) && parseFloat(value).Some?
    ensures ApplyLines(c, [key + ": " + value] + rest, parseFloat)
         == ApplyLines(WithField(c, k, parseFloat(value).value), rest, parseFloat)
  {
    var line := key + ": " + value;
    SegmentsOfPair(key, value);
    KeySetsField(c, key, value, [], parseFloat, k);
    assert [key, value] + [] == [key, value];
    assert ([line] + rest)[0] == line && ([line] + rest)[1..] == rest;
  }

  /** A later line naming a key overwrites the value an earlier line gave it. */
  lemma LaterLineOverwrites(c: Config, key: string, a: string, b: string, rest: seq<string>,
                            parseFloat: string -> Option<real>, k: nat)
    requires k < 12 && Lower(key) == NUMERIC_KEYS[k]
    requires NoSeparator(key) && NoSeparator(a) && NoSeparator(b)
    requires parseFloat(a).Some? && parseFloat(b).Some?
    ensures ApplyLines(c, [key + ": " + a, key + ": " + b] + rest, parseFloat)
         == ApplyLines(c, [key + ": " + b] + rest, parseFloat)
  {
    var la, lb := key + ": " + a, key + ": " + b;
    var c1 := WithField(c, k, parseFloat(a).value);
    assert [la, lb] + rest == [la] + ([lb] + rest);
    KeyLineSetsField(c, key, a, [lb] + rest, parseFloat, k);
    KeyLineSetsField(c1, key, b, rest, parseFloat, k);
    KeyLineSetsField(c, key, b, rest, parseFloat, k);
    assert WithField(c1, k, parseFloat(b).value) == WithField(c, k, parseFloat(b).value) by {
      assert Fields(c1)[k := parseFloat(b).value] == Fields(c)[k := parseFloat(b).value];
    }
  }

  /** Whatever came before, a numeric field ends with the value of the last
      line that names it, if the file is read without a panic. */
  lemma {:induction false} LastNamingLineWins(c: Config, pre: seq<string>, key: string, value: string,
                                             post: seq<string>, parseFloat: string -> Option<real>, k: nat)
    requires k < 12 && Lower(key) == NUMERIC_KEYS[k]
    requires NoSeparator(key) && NoSeparator(value) && parseFloat(value).Some?
    requires forall line, s :: line in post && s in Segments(line) ==> Lower(s) != NUMERIC_KEYS[k]
    ensures ApplyLines(c, pre + [key + ": " + value] + post, parseFloat).Returned? ==>
      Fields(ApplyLines(c, pre + [key + ": " + value] + post, parseFloat).value)[k] == parseFloat(value).value
  {
    var line := key + ": " + value;
    assert pre + [line] + post == pre + ([line] + post);
    ApplyLinesAppend(c, pre, [line] + post, parseFloat);
    var o := ApplyLines(c, pre, parseFloat);
    if o.Returned? {
      KeyLineSetsField(o.value, key, value, post, parseFloat, k);
      UnnamedFieldStaysZero(WithField(o.value, k, parseFloat(value).value), post, parseFloat, k);
    }
  }

  /** A numeric field whose key no piece names keeps its value. */
  lemma {:induction false} UnnamedFieldKept(c: Config, segs: seq<string>, parseFloat: string -> Option<real>, k: nat)
    requires k < 12
    requires forall s :: s in segs ==> Lower(s) != NUMERIC_KEYS[k]
    ensures ApplySegments(c, segs, parseFloat).Returned? ==>
      Fields(ApplySegments(c, segs, parseFloat).value)[k] == Fields(c)[k]
    decreases |segs|
  {
    if segs != [] {
      var name := Lower(segs[0]);
      if name == "" {
        UnnamedFieldKept(c, segs[1..], parseFloat, k);
      } else if KeyIndex(name).Some? && |segs| >= 2 && parseFloat(segs[1]).Some? {
        var c' := WithField(c, KeyIndex(name).value, parseFloat(segs[1]).value);
        UnnamedFieldKept(c', segs[2..], parseFloat, k);
      } else if name == ACTIVATION_KEY && |segs| >= 2 && ActivationFrom(segs[1]).Returned? {
        UnnamedFieldKept(c.(activation := ActivationFrom(segs[1]).value), segs[2..], parseFloat, k);
      }
    }
  }

  /** Hence a field no line names keeps the value it had before the lines. */
  lemma {:induction false} UnnamedFieldStaysZero(c: Config, lines: seq<string>, parseFloat: string -> Option<real>, k: nat)
    requires k < 12
    requires forall line, s :: line in lines && s in Segments(line) ==> Lower(s) != NUMERIC_KEYS[k]
    ensures ApplyLines(c, lines, parseFloat).Returned? ==>
      Fields(ApplyLines(c, lines, parseFloat).value)[k] == Fields(c)[k]
    decreases |lines|
  {
    if lines != [] {
      UnnamedFieldKept(c, Segments(lines[0]), parseFloat, k);
      var o := ApplySegments(c, Segments(lines[0]), parseFloat);
      if o.Returned? {
        UnnamedFieldStaysZero(o.value, lines[1..], parseFloat, k);
      }
    }
  }

  /** Reading a file from `init_zero`, a field no line names is 0. */
  lemma FromLinesUnnamedFieldIsZero(lines: seq<string>, parseFloat: string -> Option<real>, k: nat)
    requires k < 12
    requires forall line, s :: line in lines && s in Segments(line) ==> Lower(s) != NUMERIC_KEYS[k]
    ensures FromLines(lines, parseFloat).Returned? ==> Fields(FromLines(lines, parseFloat).value)[k] == 0.0
  {
    UnnamedFieldStaysZero(InitZero(), lines, parseFloat, k);
  }
}

/**
 * src/Calculator: the substitution of sensor values into a formula. The arithmetic on the substituted text is any
 * function from text to text.
 */
module Calculator {
  import opened Wrappers
  import opened Formula
  import opened Engine

  type Arithmetic = string -> string

  function ValueOf(values: map<string, string>, key: string): string {
    if key in values then values[key] else ""
  }

  /** The pieces of a formula with every placeholder replaced by its sensor's value. */
  function Interleave(pieces: seq<Piece>, tail: string, values: map<string, string>): string {
    if pieces == [] then tail
    else
      var key := Key(pieces[0].server, pieces[0].topic);
      pieces[0].gap + ((if key in values then values[key] else "") + Interleave(pieces[1..], tail, values))
  }

  /** The spans of the devices are consecutive stretches of the formula from start on. */
  ghost predicate Consecutive(formula: string, devices: seq<Device>, start: nat) {
    if devices == [] then start <= |formula|
    else start <= devices[0].start < devices[0].end < |formula| && Consecutive(formula, devices[1..], devices[0].end + 1)
  }

  /** formula.substr, empty where the span does not fit. */
  function Between(formula: string, start: nat, end: nat): string {
    if start <= end <= |formula| then formula[start..end] else ""
  }

  /** The text from start on with the spans of the devices replaced. */
  function Substituted(formula: string, devices: seq<Device>, start: nat, values: map<string, string>): string {
    if devices == [] then Between(formula, start, |formula|)
    else
      Between(formula, start, devices[0].start)
      + (ValueOf(values, KeyOf(devices[0])) + Substituted(formula, devices[1..], devices[0].end + 1, values))
  }

  lemma ConsecutiveFrom(formula: string, d: Device, rest: seq<Device>, start: nat)
    requires start <= d.start < d.end < |formula| && Consecutive(formula, rest, d.end + 1)
    ensures Consecutive(formula, [d] + rest, start)
  {
    assert ([d] + rest)[1..] == rest;
  }

  lemma {:induction false} LayoutIsConsecutive(pre: string, pieces: seq<Piece>, tail: string)
    ensures Consecutive(pre + Print(pieces, tail), Layout(pieces, |pre|), |pre|)
    decreases |pieces|
  {
    if pieces == [] {
    } else {
      var p, later := pieces[0], pieces[1..];
      var f, grown, ds := pre + Print(pieces, tail), pre + PieceThen(p, ""), Layout(later, PieceEnd(p, |pre|) + 1);
      PieceThenSplits(pre, p, Print(later, tail));
      LayoutIsConsecutive(grown, later, tail);
      assert Layout(pieces, |pre|) == [DeviceOf(p, |pre|)] + ds;
      assert |f| >= |grown| == PieceEnd(p, |pre|) + 1;
      ConsecutiveFrom(f, DeviceOf(p, |pre|), ds, |pre|);
    }
  }

  lemma ScanIsConsecutive(formula: string)
    requires Scan(formula, 0).Success?
    ensures Consecutive(formula, Scan(formula, 0).value, 0)
  {
    PrintInvertsScan(formula);
    var pieces := Recover(formula, Scan(formula, 0).value, 0);
    var tail := formula[LayoutEnd(pieces, 0)..];
    LayoutIsConsecutive("", pieces, tail);
    assert "" + Print(pieces, tail) == formula;
  }

  lemma GapAt(pre: string, p: Piece, rest: string)
    ensures Between(pre + PieceThen(p, rest), |pre|, |pre| + |p.gap|) == p.gap
  {
  }

  lemma TailAt(pre: string, tail: string, values: map<string, string>)
    ensures Substituted(pre + tail, [], |pre|, values) == tail
  {
  }

  lemma SubstitutedPrepend(formula: string, d: Device, rest: seq<Device>, start: nat, values: map<string, string>)
    ensures Substituted(formula, [d] + rest, start, values)
            == Between(formula, start, d.start)
               + (ValueOf(values, KeyOf(d)) + Substituted(formula, rest, d.end + 1, values))
  {
    assert ([d] + rest)[1..] == rest;
  }

  lemma SubstitutionOfPiece(pre: string, p: Piece, rest: string, ds: seq<Device>, values: map<string, string>)
    ensures var grown := pre + PieceThen(p, "");
            Substituted(pre + PieceThen(p, rest), [DeviceOf(p, |pre|)] + ds, |pre|, values)
            == p.gap + (ValueOf(values, Key(p.server, p.topic)) + Substituted(grown + rest, ds, |grown|, values))
  {
    PieceThenSplits(pre, p, rest);
    GapAt(pre, p, rest);
    hide Substituted, Between, PieceThen, Key, ValueOf;
    SubstitutedPrepend(pre + PieceThen(p, rest), DeviceOf(p, |pre|), ds, |pre|, values);
  }

  lemma {:induction false} SubstitutionAt(pre: string, pieces: seq<Piece>, tail: string, values: map<string, string>)
    ensures Substituted(pre + Print(pieces, tail), Layout(pieces, |pre|), |pre|, values) == Interleave(pieces, tail, values)
    decreases |pieces|
  {
    hide Substituted, Between, PieceThen, Key, KeyOf;
    if pieces == [] {
      TailAt(pre, tail, values);
    } else {
      var p, later := pieces[0], pieces[1..];
      PieceThenSplits(pre, p, "");
      SubstitutionOfPiece(pre, p, Print(later, tail), Layout(later, PieceEnd(p, |pre|) + 1), values);
      SubstitutionAt(pre + PieceThen(p, ""), later, tail, values);
    }
  }

  /** On an accepted formula the substitution replaces exactly the placeholders and keeps the text between them. */
  lemma SubstitutionOfPieces(formula: string, values: map<string, string>)
    requires Scan(formula, 0).Success?
    ensures var pieces := Recover(formula, Scan(formula, 0).value, 0);
            && LayoutEnd(pieces, 0) <= |formula|
            && Substituted(formula, Scan(formula, 0).value, 0, values)
               == Interleave(pieces, formula[LayoutEnd(pieces, 0)..], values)
  {
    PrintInvertsScan(formula);
    hide Scan, Recover;
    var pieces := Recover(formula, Scan(formula, 0).value, 0);
    var tail := formula[LayoutEnd(pieces, 0)..];
    SubstitutionAt("", pieces, tail, values);
    assert "" + Print(pieces, tail) == formula;
  }

  /** Substituting every placeholder by itself gives the formula back. */
  lemma {:induction false} SelfSubstitution(pieces: seq<Piece>, tail: string, values: map<string, string>)
    requires forall p :: p in pieces ==>
               Key(p.server, p.topic) in values
               && values[Key(p.server, p.topic)] == "{" + (Key(p.server, p.topic) + "}")
    ensures Interleave(pieces, tail, values) == Print(pieces, tail)
    decreases |pieces|
  {
    if pieces == [] {
    } else {
      var p := pieces[0];
      SelfSubstitution(pieces[1..], tail, values);
      var later := Print(pieces[1..], tail);
      assert ("{" + (Key(p.server, p.topic) + "}")) + later == "{" + (Key(p.server, p.topic) + ("}" + later));
    }
  }

  /** Where the loop of VariablesReplace stands: the values still to come complete oss to the substitution. */
  ghost predicate Progress(formula: string, devices: seq<Device>, values: map<string, string>,
                           k: nat, pos: nat, oss: string) {
    && k <= |devices|
    && Keys(devices[..k]) <= values.Keys
    && Consecutive(formula, devices[k..], pos)
    && oss + Substituted(formula, devices[k..], pos, values) == Substituted(formula, devices, 0, values)
  }

  lemma NoKeys()
    ensures Keys([]) == {}
  {
  }

  lemma ProgressStarts(formula: string, devices: seq<Device>, values: map<string, string>)
    requires Scan(formula, 0) == Success(devices)
    ensures Progress(formula, devices, values, 0, 0, "")
  {
    ScanIsConsecutive(formula);
    hide Scan, Substituted, Consecutive, Keys;
    NoKeys();
    var whole := Substituted(formula, devices, 0, values);
    assert devices[0..] == devices && "" + whole == whole;
  }

  lemma SubstituteTurn(formula: string, devices: seq<Device>, start: nat, values: map<string, string>, oss: string)
    requires devices != [] && Consecutive(formula, devices, start) && KeyOf(devices[0]) in values
    ensures var d := devices[0];
            && start <= d.start < d.end < |formula| && Consecutive(formula, devices[1..], d.end + 1)
            && oss + Between(formula, start, d.start) + values[KeyOf(d)] + Substituted(formula, devices[1..], d.end + 1, values)
               == oss + Substituted(formula, devices, start, values)
  {
    var d, rest := devices[0], Substituted(formula, devices[1..], devices[0].end + 1, values);
    Reassociate(oss, Between(formula, start, d.start), values[KeyOf(d)], rest);
  }

  lemma Reassociate(a: string, b: string, c: string, d: string)
    ensures a + (b + (c + d)) == a + b + c + d
  {
  }

  lemma ProgressContinues(formula: string, devices: seq<Device>, values: map<string, string>,
                          k: nat, pos: nat, oss: string)
    requires Progress(formula, devices, values, k, pos, oss)
    requires k < |devices| && KeyOf(devices[k]) in values
    ensures var d := devices[k];
            && pos <= d.start < d.end < |formula|
            && Progress(formula, devices, values, k + 1, d.end + 1, oss + Between(formula, pos, d.start) + values[KeyOf(d)])
  {
    hide Substituted, Consecutive, Keys, KeyOf;
    KeysSnoc(devices, k);
    SubstituteTurn(formula, devices[k..], pos, values, oss);
    assert devices[k..][1..] == devices[k + 1..];
  }

  lemma ProgressStops(devices: seq<Device>, values: map<string, string>, k: nat)
    requires k < |devices| && KeyOf(devices[k]) !in values
    ensures !(Keys(devices) <= values.Keys)
  {
    assert KeyOf(devices[k]) in Keys(devices);
  }

  lemma ProgressEnds(formula: string, devices: seq<Device>, values: map<string, string>, pos: nat, oss: string)
    requires Progress(formula, devices, values, |devices|, pos, oss)
    ensures pos <= |formula| && Keys(devices) <= values.Keys
    ensures oss + Between(formula, pos, |formula|) == Substituted(formula, devices, 0, values)
    ensures pos == |formula| ==> oss == Substituted(formula, devices, 0, values)
  {
    var k := |devices|;
    assert devices[..k] == devices && devices[k..] == [];
    assert pos == |formula| ==> oss + formula[pos..] == oss;
  }

  /** Calculator::VariablesReplace on a calculation's formula and devices: empty when a value is missing. */
  method VariablesReplace(formula: string, devices: seq<Device>, values: map<string, string>) returns (r: string)
    requires Scan(formula, 0) == Success(devices)
    ensures r == if Keys(devices) <= values.Keys then Substituted(formula, devices, 0, values) else ""
  {
    hide *;
    ProgressStarts(formula, devices, values);
    var oss, pos: nat, k := "", 0, 0;
    while k < |devices|
      invariant k <= |devices| && Progress(formula, devices, values, k, pos, oss)
    {
      var d := devices[k];
      if KeyOf(d) !in values {
        ProgressStops(devices, values, k);
        return "";
      }
      ProgressContinues(formula, devices, values, k, pos, oss);
      oss := oss + Between(formula, pos, d.start) + values[KeyOf(d)];
      pos := d.end + 1;
      k := k + 1;
    }
    ProgressEnds(formula, devices, values, pos, oss);
    if pos < |formula| {
      return oss + Between(formula, pos, |formula|);
    }
    return oss;
  }

  /** Calculator::Evaluate for devices that are those of the formula. */
  function Evaluate(arithmetic: Arithmetic, formula: string, devices: seq<Device>, values: map<string, string>): string {
    if Scan(formula, 0) != Success(devices) || !(Keys(devices) <= values.Keys) then ""
    else
      var text := Substituted(formula, devices, 0, values);
      if text == "" then "" else arithmetic(text)
  }

  /**
   * What evaluating a formula means, however it is read as pieces: the arithmetic of the pieces with the values of
   * their sensors, and nothing when a value is missing or nothing is left to calculate.
   */
  ghost predicate Evaluates(arithmetic: Arithmetic, formula: string, values: map<string, string>, r: string) {
    forall pieces, tail :: Generates(pieces, tail, formula) && Plain(tail) ==>
      var text := Interleave(pieces, tail, values);
      r == if AllKnown(pieces, values) && text != "" then arithmetic(text) else ""
  }

  ghost predicate AllKnown(pieces: seq<Piece>, values: map<string, string>) {
    forall p :: p in pieces ==> Key(p.server, p.topic) in values
  }

  lemma {:induction false} KeysOfLayout(pieces: seq<Piece>, base: nat, values: map<string, string>)
    ensures Keys(Layout(pieces, base)) <= values.Keys <==> AllKnown(pieces, values)
    decreases |pieces|
  {
    if pieces == [] {
    } else {
      var p, next := pieces[0], PieceEnd(pieces[0], base) + 1;
      KeysOfLayout(pieces[1..], next, values);
      assert Layout(pieces, base) == [DeviceOf(p, base)] + Layout(pieces[1..], next);
      KeysPrepend(DeviceOf(p, base), Layout(pieces[1..], next));
      assert AllKnown(pieces, values) <==> Key(p.server, p.topic) in values && AllKnown(pieces[1..], values) by {
        assert pieces == [p] + pieces[1..];
      }
    }
  }

  lemma KeysPrepend(d: Device, rest: seq<Device>)
    ensures Keys([d] + rest) == {KeyOf(d)} + Keys(rest)
  {
  }

  lemma EvaluateMeans(arithmetic: Arithmetic, formula: string, devices: seq<Device>, values: map<string, string>)
    requires Scan(formula, 0) == Success(devices)
    ensures Evaluates(arithmetic, formula, values, Evaluate(arithmetic, formula, devices, values))
  {
    hide Scan, Substituted, Interleave, Generates, Plain, AllKnown;
    forall pieces, tail | Generates(pieces, tail, formula) && Plain(tail)
      ensures devices == Layout(pieces, 0)
      ensures Substituted(formula, devices, 0, values) == Interleave(pieces, tail, values)
      ensures Keys(devices) <= values.Keys <==> AllKnown(pieces, values)
    {
      ReadAsPieces(formula, pieces, tail, values);
      KeysOfLayout(pieces, 0, values);
    }
  }

  lemma ReadAsPieces(formula: string, pieces: seq<Piece>, tail: string, values: map<string, string>)
    requires Generates(pieces, tail, formula) && Plain(tail)
    ensures Scan(formula, 0) == Success(Layout(pieces, 0))
    ensures Substituted(formula, Layout(pieces, 0), 0, values) == Interleave(pieces, tail, values)
  {
    ScanOutcome(pieces, tail, formula);
    SubstitutionAt("", pieces, tail, values);
    assert "" + Print(pieces, tail) == formula;
  }

  /** The evaluator of the engine. */
  function EvaluatorOf(arithmetic: Arithmetic): Evaluator {
    (formula, devices, values) => Evaluate(arithmetic, formula, devices, values)
  }

  method EvaluateCalcul(arithmetic: Arithmetic, formula: string, devices: seq<Device>, values: map<string, string>)
    returns (r: string)
    requires Scan(formula, 0) == Success(devices)
    ensures r == EvaluatorOf(arithmetic)(formula, devices, values)
    ensures Evaluates(arithmetic, formula, values, r)
  {
    EvaluateMeans(arithmetic, formula, devices, values);
    hide Evaluates;
    var text := VariablesReplace(formula, devices, values);
    if text == "" {
      return "";
    }
    return arithmetic(text);
  }
}

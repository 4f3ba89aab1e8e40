/** src/CalculData: one calculation, built from its configuration section, and its last value. */
module Calculations {
  import opened Wrappers
  import opened Text
  import opened StringTools
  import opened Numbers
  import opened Formula
  import opened Engine
  import opened History

  /** What the constructor throws. */
  datatype CalculError = InvalidCalculType | InvalidDevice(error: ScanError)

  function ToCalculType(typeName: string): Result<CalculType, CalculError> {
    if EqualIgnoringCase(typeName, "NUM") then Success(Num)
    else if EqualIgnoringCase(typeName, "SWITCH") then Success(Switch)
    else Failure(InvalidCalculType)
  }

  /** A new calculation, or the first thing wrong with its type and formula. */
  function Build(name: string, typeName: string, formula: string): Result<Calc, CalculError> {
    match ToCalculType(typeName)
    case Failure(e) => Failure(e)
    case Success(kind) =>
      match Scan(formula, 0)
      case Failure(e) => Failure(InvalidDevice(e))
      case Success(devices) => Success(Calc(name, kind, formula, devices, false, ""))
  }

  /** The word for a type, in any case, as far as the comparison sees it. */
  ghost predicate Names(typeName: string, kind: CalculType) {
    SameIgnoringCase(Seen(typeName), match kind case Num => "num" case Switch => "switch")
  }

  ghost predicate NamesType(typeName: string) {
    exists kind :: Names(typeName, kind)
  }

  lemma TypeNamed(typeName: string)
    ensures forall kind :: Names(typeName, kind) ==> ToCalculType(typeName) == Success(kind)
    ensures !NamesType(typeName) ==> ToCalculType(typeName) == Failure(InvalidCalculType)
  {
    ComparisonSees(typeName);
    assert SameIgnoringCase(Seen(typeName), "NUM") <==> Names(typeName, Num);
    assert SameIgnoringCase(Seen(typeName), "SWITCH") <==> Names(typeName, Switch);
    assert Names(typeName, Num) ==> !Names(typeName, Switch);
    forall kind | Names(typeName, kind)
      ensures ToCalculType(typeName) == Success(kind)
    {
      if kind == Num {
        assert Names(typeName, Num);
      } else {
        assert Names(typeName, Switch);
      }
    }
  }

  /**
   * What becomes of a section: a calculation of the type named, over the pieces its formula is printed from; or the
   * type error; or, for a good type, the error of a formula that runs into the corresponding defect.
   */
  lemma BuildExactly(name: string, typeName: string, formula: string)
    ensures forall kind, pieces, tail :: Names(typeName, kind) && Generates(pieces, tail, formula) && Plain(tail) ==>
              Build(name, typeName, formula) == Success(Calc(name, kind, formula, Layout(pieces, 0), false, ""))
    ensures !NamesType(typeName) ==> Build(name, typeName, formula) == Failure(InvalidCalculType)
    ensures NamesType(typeName) ==>
              && (Build(name, typeName, formula) == Failure(InvalidDevice(MissingEndMark))
                  <==> exists pieces, tail :: Generates(pieces, tail, formula) && Unclosed(tail))
              && (Build(name, typeName, formula) == Failure(InvalidDevice(MissingServer))
                  <==> exists pieces, tail :: Generates(pieces, tail, formula) && Serverless(tail))
    ensures Build(name, typeName, formula).Success? <==>
              NamesType(typeName) && exists pieces, tail :: Generates(pieces, tail, formula) && Plain(tail)
  {
    TypeNamed(typeName);
    ScanDecidesGrammar(formula);
    hide Scan, Generates, Plain, Unclosed, Serverless, Names, ToCalculType, Layout;
  }

  lemma BuildScans(name: string, typeName: string, formula: string)
    ensures var r := Build(name, typeName, formula);
            r.Success? ==> Scan(r.value.formula, 0) == Success(r.value.devices)
  {
  }

  /** Searching from a position is searching the rest. */
  lemma IndexFromRest(s: string, c: char, start: nat)
    requires start <= |s|
    ensures IndexFrom(s, c, start) == start + IndexOf(s[start..], c)
  {
    IndexIsFirst(s, c, start);
    IndexIsFirst(s[start..], c, 0);
    assert IsFirst(s, c, start, start + IndexOf(s[start..], c));
  }

  /** The scan of the rest in terms of positions in the whole formula: one turn of the loop. */
  lemma ScanTurn(f: string, start: nat)
    requires start <= |f|
    ensures var open := IndexFrom(f, '{', start);
            open == |f| ==> Scan(f[start..], start) == Success([])
    ensures var open := IndexFrom(f, '{', start);
            open < |f| ==> Scan(f[start..], start) == ScanGroup(f[open + 1..], open)
  {
    IndexFromRest(f, '{', start);
    var open := IndexFrom(f, '{', start);
    if open < |f| {
      assert f[start..][open - start + 1..] == f[open + 1..];
    }
  }

  lemma GroupTurn(f: string, open: nat)
    requires open < |f|
    ensures var end := IndexFrom(f, '}', open + 1);
            if end == |f| then ScanGroup(f[open + 1..], open) == Failure(MissingEndMark)
            else
              var device := f[open + 1..end];
              var colon := LastIndexOf(device, ':');
              if colon == |device| then ScanGroup(f[open + 1..], open) == Failure(MissingServer)
              else
                var d := Device(device[..colon], device[colon + 1..], open, end);
                ScanGroup(f[open + 1..], open) == Prepend(d, Scan(f[end..], end))
  {
    IndexFromRest(f, '}', open + 1);
    var end := IndexFrom(f, '}', open + 1);
    if end < |f| {
      assert f[open + 1..][..end - open - 1] == f[open + 1..end];
      assert f[open + 1..][end - open - 1..] == f[end..];
    }
  }

  /** CalculData::FindDevices: the scanning loop, with debDevice and finDevice as open and close. */
  method FindDevices(formula: string) returns (r: Result<seq<Device>, ScanError>)
    ensures r == Scan(formula, 0)
    ensures r.Success? ==> SpansFit(formula, 0, r.value)
  {
    hide Scan, ScanGroup, IndexFrom, LastIndexOf, SpansFit, PrependAll;
    var devices: seq<Device> := [];
    var close := 0;
    assert formula[0..] == formula;
    NothingPrepended(Scan(formula, 0));
    while true
      invariant close <= |formula|
      invariant Scan(formula, 0) == PrependAll(devices, Scan(formula[close..], close))
      decreases |formula| - close
    {
      var open := IndexFrom(formula, '{', close);
      ScanTurn(formula, close);
      if open == |formula| {
        PrependAllConcatenates(devices, []);
        assert devices + [] == devices;
        ScanSpans(formula);
        return Success(devices);
      }
      GroupTurn(formula, open);
      var end := IndexFrom(formula, '}', open + 1);
      if end == |formula| {
        PrependAllFails(devices, MissingEndMark);
        return Failure(MissingEndMark);
      }
      var device := formula[open + 1..end];
      var colon := LastIndexOf(device, ':');
      if colon == |device| {
        PrependAllFails(devices, MissingServer);
        return Failure(MissingServer);
      }
      var d := Device(device[..colon], device[colon + 1..], open, end);
      PrependAllAppends(devices, d, Scan(formula[end..], end));
      devices := devices + [d];
      close := end;
    }
  }

  lemma NothingPrepended(r: Result<seq<Device>, ScanError>)
    ensures PrependAll([], r) == r
  {
  }

  /** The members set by the constructor never change; IsNewValue moves the other two. */
  class CalculData {
    const name: string
    const kind: CalculType
    const formula: string
    const devices: seq<Device>
    var isSet: bool
    var value: string

    ghost function View(): Calc
      reads this
    {
      Calc(name, kind, formula, devices, isSet, value)
    }

    constructor (name: string, kind: CalculType, formula: string, devices: seq<Device>)
      ensures View() == Calc(name, kind, formula, devices, false, "")
    {
      this.name, this.kind, this.formula, this.devices := name, kind, formula, devices;
      isSet, value := false, "";
    }

    /** The constructor of the source, its exceptions as failures. */
    static method Create(name: string, typeName: string, formula: string) returns (r: Result<CalculData, CalculError>)
      ensures match Build(name, typeName, formula)
              case Failure(e) => r == Failure(e)
              case Success(c) => r.Success? && fresh(r.value) && r.value.View() == c
    {
      var isNum := IsEqualCaseInsensitive(typeName, "NUM");
      var isSwitch := IsEqualCaseInsensitive(typeName, "SWITCH");
      if !isNum && !isSwitch {
        return Failure(InvalidCalculType);
      }
      var found := FindDevices(formula);
      if found.Failure? {
        return Failure(InvalidDevice(found.error));
      }
      var c := new CalculData(name, if isNum then Num else Switch, formula, found.value);
      return Success(c);
    }

    /** Stores the value in the form of the calculation's type and tells whether it differs from the one before. */
    method IsNewValue(value: string) returns (isNew: bool)
      modifies this
      ensures View() == old(View()).(isSet := true, value := Normalise(kind, value))
      ensures StoredForm(kind, value, this.value)
      ensures isNew <==> Held(old(View())) != Held(View())
    {
      NormaliseMeans(kind, value);
      var correctValue := value;
      if kind == Switch {
        correctValue := if Atoi(value) > 0 then "ON" else "OFF";
      }
      isNew := !isSet || this.value != correctValue;
      isSet := true;
      this.value := correctValue;
    }
  }
}

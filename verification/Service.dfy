/** What the daemon does around its engine, on values: sections, commands and the turns of its loop. */
module Service {
  import opened Wrappers
  import opened Formula
  import opened Engine
  import opened EngineRuns
  import opened History
  import opened Calculations
  import opened Daemon
  import opened DaemonRuns
  import Config

  // ----- Configuration -----

  /** A section of the configuration file: its name, type and formula entries. */
  datatype Section = Section(name: string, typeName: string, formula: string)

  predicate IsCalculation(s: Section) {
    s.name != "mqtt" && s.name != "log" && Build(s.name, s.typeName, s.formula).Success?
  }

  /** The calculations of the sections that describe one, in the order of the sections. */
  function Calcs(sections: seq<Section>): seq<Calc> {
    if sections == [] then []
    else
      var s := sections[|sections| - 1];
      Calcs(sections[..|sections| - 1])
      + if IsCalculation(s) then [Build(s.name, s.typeName, s.formula).value] else []
  }

  ghost predicate DistinctSections(sections: seq<Section>) {
    forall i, j :: 0 <= i < j < |sections| ==> sections[i].name != sections[j].name
  }

  lemma {:induction false} CalcsComeFromSections(sections: seq<Section>, i: nat) returns (k: nat)
    requires i < |Calcs(sections)|
    ensures k < |sections| && IsCalculation(sections[k])
    ensures Calcs(sections)[i] == Build(sections[k].name, sections[k].typeName, sections[k].formula).value
    decreases |sections|
  {
    var front := sections[..|sections| - 1];
    if i < |Calcs(front)| {
      k := CalcsComeFromSections(front, i);
    } else {
      k := |sections| - 1;
    }
  }

  lemma {:induction false} CalcsAreConstructed(sections: seq<Section>)
    ensures Config.Constructed(Calcs(sections))
  {
    forall i | 0 <= i < |Calcs(sections)|
      ensures !Calcs(sections)[i].isSet
      ensures Scan(Calcs(sections)[i].formula, 0) == Success(Calcs(sections)[i].devices)
    {
      var k := CalcsComeFromSections(sections, i);
    }
  }

  lemma {:induction false} CalcsHaveDistinctNames(sections: seq<Section>)
    requires DistinctSections(sections)
    ensures DistinctNames(Calcs(sections))
    decreases |sections|
  {
    if sections == [] {
    } else {
      var front, s := sections[..|sections| - 1], sections[|sections| - 1];
      CalcsHaveDistinctNames(front);
      forall i | 0 <= i < |Calcs(front)|
        ensures Calcs(front)[i].name != s.name
      {
        var k := CalcsComeFromSections(front, i);
        assert front[k] == sections[k];
      }
    }
  }

  /** Whatever the network does, configuring distinct sections starts the daemon in a state its invariants hold of. */
  lemma {:induction false} ConfigurationIsFresh(sections: seq<Section>, outcomes: Config.Outcomes)
    requires DistinctSections(sections)
    ensures Fresh(Config.ConfiguredState(Calcs(sections), outcomes))
  {
    CalcsAreConstructed(sections);
    CalcsHaveDistinctNames(sections);
    Config.ConfigurationIsConfigured(Calcs(sections), outcomes);
  }

  ghost function Start(sections: seq<Section>, outcomes: Config.Outcomes): (s: State)
    ensures s.calcs == Calcs(sections)
  {
    Config.ConfiguredState(Calcs(sections), outcomes)
  }

  /** Every sensor call that was answered for some calculation was answered for calculation i. */
  ghost predicate Complete(sections: seq<Section>, outcomes: Config.Outcomes, i: nat) {
    i < |Calcs(sections)| && Config.CompletelyAccepted(Calcs(sections), outcomes, i)
  }

  lemma {:induction false} WiredExactly(sections: seq<Section>, outcomes: Config.Outcomes)
    ensures Configured(Start(sections, outcomes))
    ensures forall i: nat :: i < |Calcs(sections)| ==>
              (Wired(Start(sections, outcomes), i) <==> Complete(sections, outcomes, i))
  {
    CalcsAreConstructed(sections);
    Config.ConfigurationIsConfigured(Calcs(sections), outcomes);
    forall i: nat | i < |Calcs(sections)|
      ensures Wired(Start(sections, outcomes), i) <==> Complete(sections, outcomes, i)
    {
      Config.WiredExactly(Calcs(sections), outcomes, i);
    }
  }

  /** A section that describes this calculation: its name, the type it names, the pieces its formula is printed from. */
  ghost predicate Describes(s: Section, c: Calc) {
    && s.name != "mqtt" && s.name != "log" && Names(s.typeName, c.kind)
    && exists pieces, tail :: Generates(pieces, tail, s.formula) && Plain(tail)
         && c == Calc(s.name, c.kind, s.formula, Layout(pieces, 0), false, "")
  }

  lemma {:induction false} IsCalculationExactly(s: Section)
    ensures IsCalculation(s) <==> exists c :: Describes(s, c)
    ensures forall c :: Describes(s, c) ==> Build(s.name, s.typeName, s.formula) == Success(c)
    ensures IsCalculation(s) ==> Describes(s, Build(s.name, s.typeName, s.formula).value)
  {
    BuildExactly(s.name, s.typeName, s.formula);
    hide Names, Generates, Plain, Layout, Build;
    if IsCalculation(s) {
      var kind :| Names(s.typeName, kind);
      var pieces, tail :| Generates(pieces, tail, s.formula) && Plain(tail);
      assert Describes(s, Calc(s.name, kind, s.formula, Layout(pieces, 0), false, ""));
    }
  }

  /** The calculations are, in order, those that some sections describe; at[k] is the section of the k-th. */
  ghost predicate CalcsAt(sections: seq<Section>, calcs: seq<Calc>, at: seq<nat>) {
    && |at| == |calcs|
    && (forall j, k :: 0 <= j < k < |at| ==> at[j] < at[k])
    && (forall k :: 0 <= k < |at| ==> at[k] < |sections| && Describes(sections[at[k]], calcs[k]))
    && forall j: nat :: j < |sections| && (exists c :: Describes(sections[j], c)) ==> j in at
  }

  lemma {:induction false} CalcsOfNothing()
    ensures Calcs([]) == []
  {
  }

  lemma {:induction false} CalcsOfMore(front: seq<Section>, s: Section)
    ensures Calcs(front + [s])
         == Calcs(front) + if IsCalculation(s) then [Build(s.name, s.typeName, s.formula).value] else []
  {
    assert (front + [s])[..|front|] == front;
  }

  lemma {:induction false} DescribedLast(front: seq<Section>, s: Section, calcs: seq<Calc>, at: seq<nat>, c: Calc)
    requires CalcsAt(front, calcs, at) && Describes(s, c)
    ensures CalcsAt(front + [s], calcs + [c], at + [|front|])
  {
    hide Describes;
    var all, last := front + [s], at + [|front|];
    assert forall j :: j in at ==> j < |front|;
    RisingOneMore(at, |front|);
    forall k | 0 <= k < |last|
      ensures last[k] < |all| && Describes(all[last[k]], (calcs + [c])[k])
    {
      if k < |at| {
        assert last[k] == at[k] && all[last[k]] == front[at[k]];
      }
    }
    forall j: nat | j < |all| && exists x :: Describes(all[j], x)
      ensures j in last
    {
      if j < |front| {
        assert all[j] == front[j];
      }
    }
  }

  lemma {:induction false} UndescribedLast(front: seq<Section>, s: Section, calcs: seq<Calc>, at: seq<nat>)
    requires CalcsAt(front, calcs, at) && forall c :: !Describes(s, c)
    ensures CalcsAt(front + [s], calcs, at)
  {
    hide Describes;
    var all := front + [s];
    forall k | 0 <= k < |at|
      ensures at[k] < |all| && Describes(all[at[k]], calcs[k])
    {
      assert all[at[k]] == front[at[k]];
    }
    forall j: nat | j < |all| && exists x :: Describes(all[j], x)
      ensures j in at
    {
      if j < |front| {
        assert all[j] == front[j];
      }
    }
  }

  lemma {:induction false} CalcsExactly(sections: seq<Section>) returns (at: seq<nat>)
    ensures CalcsAt(sections, Calcs(sections), at)
    decreases |sections|
  {
    if sections == [] {
      at := [];
    } else {
      var front, s := sections[..|sections| - 1], sections[|sections| - 1];
      at := CalcsExactly(front);
      IsCalculationExactly(s);
      assert sections == front + [s];
      hide Describes, Build, CalcsAt, Calcs;
      if IsCalculation(s) {
        var c := Build(s.name, s.typeName, s.formula).value;
        assert Calcs(sections) == Calcs(front) + [c] by {
          CalcsOfMore(front, s);
        }
        DescribedLast(front, s, Calcs(front), at, c);
        at := at + [|front|];
      } else {
        assert Calcs(sections) == Calcs(front) by {
          CalcsOfMore(front, s);
        }
        UndescribedLast(front, s, Calcs(front), at);
      }
    }
  }

  /**
   * After any configuration, a calculation is in every run set exactly when all its sensors are read, and then holds
   * the value of its formula, if and only if its sensor calls were completely accepted.
   */
  lemma {:induction false} AgreementExactly(eval: Evaluator, sections: seq<Section>, outcomes: Config.Outcomes, i: nat)
    requires i < |Calcs(sections)| && Calcs(sections)[i].devices != []
    ensures var s := Start(sections, outcomes);
            (forall es :: |RunState(eval, s, es).calcs| == |s.calcs| && AgreesAt(eval, RunState(eval, s, es), i))
            <==> Complete(sections, outcomes, i)
  {
    WiredExactly(sections, outcomes);
    hide Start, Complete, Wired, Configured, RunState;
    AgreementExactlyWhenWired(eval, Start(sections, outcomes), i);
  }

  /**
   * After any configuration, every message of every run does what recomputing everything would do if and only if
   * the sensor calls of every calculation were completely accepted.
   */
  lemma {:induction false} RefinementExactly(eval: Evaluator, sections: seq<Section>, outcomes: Config.Outcomes)
    ensures var s := Start(sections, outcomes);
            (forall es, e :: OnCache(eval, RunState(eval, s, es), e) == FullRecompute(eval, RunState(eval, s, es), e))
            <==> forall i: nat :: i < |Calcs(sections)| ==> Complete(sections, outcomes, i)
  {
    WiredExactly(sections, outcomes);
    var s := Start(sections, outcomes);
    assert forall i: nat :: i < |s.calcs| && s.calcs[i].devices == [] ==> Wired(s, i);
    hide Start, Complete, Wired, Configured, RunState, OnCache, FullRecompute;
    RefinementExactlyWhenWired(eval, s);
  }

  /**
   * After any configuration, what a calculation with devices holds depends on the last value of each sensor alone
   * if and only if its sensor calls were completely accepted or none of them was.
   */
  lemma {:induction false} HistoryExactly(eval: Evaluator, sections: seq<Section>, outcomes: Config.Outcomes, i: nat)
    requires i < |Calcs(sections)| && Calcs(sections)[i].devices != []
    ensures var s := Start(sections, outcomes);
            (forall es, fs :: SameLastValues(s, es, fs) ==> SameAfter(eval, s, i, es, fs))
            <==> || Complete(sections, outcomes, i)
                 || forall d :: d in Calcs(sections)[i].devices ==>
                      !Config.AcceptedFor(Calcs(sections), outcomes, d, i)
  {
    WiredExactly(sections, outcomes);
    CalcsAreConstructed(sections);
    UnindexedExactly(Calcs(sections), outcomes, i);
    hide Complete, Wired, Configured, SameLastValues, SameAfter, Unindexed;
    HistoryIndependentExactly(eval, Start(sections, outcomes), i);
  }

  lemma {:induction false} UnindexedExactly(calcs: seq<Calc>, outcomes: Config.Outcomes, i: nat)
    requires Config.Constructed(calcs) && i < |calcs|
    ensures Unindexed(Config.ConfiguredState(calcs, outcomes), i)
            <==> forall d :: d in calcs[i].devices ==> !Config.AcceptedFor(calcs, outcomes, d, i)
  {
    var s, devices := Config.ConfiguredState(calcs, outcomes), calcs[i].devices;
    Config.CalcsOfConfiguration(calcs, outcomes);
    forall d | d in devices
      ensures KeyOf(d) in Keys(devices)
      ensures Config.AcceptedFor(calcs, outcomes, d, i) <==> KeyOf(d) in s.cache && i in s.cache[KeyOf(d)].calculs
    {
      Config.DeviceIndexed(calcs, outcomes, i, d);
    }
    hide Config.ConfiguredState, Config.AcceptedFor, Config.Constructed;
    forall k | k in Keys(devices)
      ensures exists d :: d in devices && KeyOf(d) == k
    {
    }
  }

  /** The section of a calculation that is one sensor. */
  function SensorSection(name: string, server: string, topic: string): Section {
    Section(name, "num", Print([Piece("", server, topic)], ""))
  }

  lemma {:induction false} SensorSectionBuilds(name: string, server: string, topic: string)
    requires WellFormed(Piece("", server, topic))
    ensures var s := SensorSection(name, server, topic);
            s.name == name && Build(s.name, s.typeName, s.formula) == Success(SensorCalc(name, server, topic))
  {
    var pieces := [Piece("", server, topic)];
    ScanPieces(pieces, "", 0);
    ScanPlain("", LayoutEnd(pieces, 0));
    assert Layout(pieces, 0) == [DeviceOf(pieces[0], 0)];
    assert ToCalculType("num") == Success(Num);
    hide Scan, Print, Layout, DeviceOf;
  }

  /** A calculation that is one sensor. */
  function SensorCalc(name: string, server: string, topic: string): Calc {
    var p := Piece("", server, topic);
    Calc(name, Num, Print([p], ""), [DeviceOf(p, 0)], false, "")
  }

  lemma {:induction false} SharedSensorCalcs(name0: string, name1: string, server: string, topic: string)
    requires {name0, name1} !! {"mqtt", "log"} && WellFormed(Piece("", server, topic))
    ensures Calcs([SensorSection(name0, server, topic), SensorSection(name1, server, topic)])
         == [SensorCalc(name0, server, topic), SensorCalc(name1, server, topic)]
  {
    var s0, s1 := SensorSection(name0, server, topic), SensorSection(name1, server, topic);
    SensorSectionBuilds(name0, server, topic);
    SensorSectionBuilds(name1, server, topic);
    hide Build, SensorCalc, WellFormed;
    assert [s0, s1][..1] == [s0] && [s0][..0] == [];
    assert Calcs([s0]) == [SensorCalc(name0, server, topic)];
  }

  /**
   * Two sections of different names that share a sensor, whose server is down for the first AddSensor call and up
   * for the second: the configuration the first one gets is incomplete, and some message shows it.
   */
  lemma {:induction false} RecoveringServerBreaksRefinement(eval: Evaluator, name0: string, name1: string,
                                                            server: string, topic: string)
    requires name0 != name1 && {name0, name1} !! {"mqtt", "log"} && WellFormed(Piece("", server, topic))
    ensures var sections := [SensorSection(name0, server, topic), SensorSection(name1, server, topic)];
            var outcomes: Config.Outcomes := (i, j) => i == 1;
            var s := Start(sections, outcomes);
            && DistinctSections(sections) && |s.calcs| == 2
            && !Wired(s, 0) && Wired(s, 1)
            && exists es, e :: OnCache(eval, RunState(eval, s, es), e) != FullRecompute(eval, RunState(eval, s, es), e)
  {
    var s0, s1 := SensorSection(name0, server, topic), SensorSection(name1, server, topic);
    var outcomes: Config.Outcomes := (i, j) => i == 1;
    var d := DeviceOf(Piece("", server, topic), 0);
    SharedSensorCalcs(name0, name1, server, topic);
    Config.RecoveringServerLeavesGap(SensorCalc(name0, server, topic), SensorCalc(name1, server, topic), d, d, outcomes);
    assert Start([s0, s1], outcomes)
        == Config.ConfiguredState([SensorCalc(name0, server, topic), SensorCalc(name1, server, topic)], outcomes);
    WiredExactly([s0, s1], outcomes);
    hide *;
    var es, e := UnwiredDiffers(eval, Start([s0, s1], outcomes), 0);
  }

  /**
   * The state of a configuration file whose servers are each up or down throughout configuration: at every message
   * of every run, incremental evaluation does what recomputing everything would do, and two runs with the same last
   * values end alike.
   */
  lemma {:induction false} StableConfigurationIsExact(eval: Evaluator, sections: seq<Section>, outcomes: Config.Outcomes,
                                                      up: set<string>, es: seq<Event>, fs: seq<Event>, e: Event)
    requires var calcs := Calcs(sections);
             Config.FixedOutcome(Config.Requests(calcs, outcomes, |calcs|), up)
    ensures var s := Start(sections, outcomes);
            && OnCache(eval, RunState(eval, s, es), e) == FullRecompute(eval, RunState(eval, s, es), e)
            && AllAgree(eval, RunState(eval, s, es))
            && (SameLastValues(s, es, fs) ==> RunState(eval, s, es) == RunState(eval, s, fs))
  {
    var s := Start(sections, outcomes);
    CalcsAreConstructed(sections);
    Config.ConfigurationIsConfigured(Calcs(sections), outcomes);
    Config.StableNetworkWires(Calcs(sections), outcomes, up);
    ConfiguredAgrees(eval, s);
    ReachableInvariants(eval, s, es);
    IncrementalIsFull(eval, RunState(eval, s, es), e);
    hide OnCache, FullRecompute, RunState, AllWired, AllAgree;
    if SameLastValues(s, es, fs) {
      StateHistoryIndependence(eval, s, es, fs);
    }
  }

  /**
   * The daemon of such a file, in any interleaving of its threads: between callbacks, the next message does to its
   * own state what recomputing everything would do, and two daemons past their initial passes that accepted
   * messages with the same last values have the same cache and the same calculations.
   */
  lemma {:induction false} StableDaemonIsExact(eval: Evaluator, sections: seq<Section>, outcomes: Config.Outcomes,
                                               up: set<string>, d: Daemon, other: Daemon, e: Event)
    requires DistinctSections(sections)
    requires var calcs := Calcs(sections);
             Config.FixedOutcome(Config.Requests(calcs, outcomes, |calcs|), up)
    requires var s := Start(sections, outcomes);
             && Reachable(eval, s, d) && Reachable(eval, s, other)
             && d.callback == Idle && other.callback == Idle
    ensures var t := State(d.calcs, d.cache); OnCache(eval, t, e) == FullRecompute(eval, t, e)
    ensures PassOver(d) && PassOver(other) && SameLastValues(Start(sections, outcomes), d.arrived, other.arrived) ==>
              d.cache == other.cache && d.calcs == other.calcs
  {
    var s := Start(sections, outcomes);
    ConfigurationIsFresh(sections, outcomes);
    CalcsAreConstructed(sections);
    Config.StableNetworkWires(Calcs(sections), outcomes, up);
    assert forall i: nat :: i < |s.calcs| ==> Wired(s, i);
    hide OnCache, FullRecompute, Start, Fresh, Wired, Reachable, SameLastValues;
    RefinementUnderInterleaving(eval, s, d, e);
    if PassOver(d) && PassOver(other) && SameLastValues(s, d.arrived, other.arrived) {
      HistoryUnderInterleaving(eval, s, d, other);
    }
  }

  // ----- Commands -----

  /** What a service-wide REQUEST enqueues for the first n calculations. */
  function Answers(calcs: seq<Calc>, n: nat): seq<Message>
    requires n <= |calcs|
  {
    if n == 0 then []
    else Answers(calcs, n - 1) + DeviceAnswer(calcs[n - 1])
  }

  function DeviceAnswer(c: Calc): seq<Message> {
    if c.isSet then [Message(c.name, c.value)] else []
  }

  /** The replay shows the first n calculations and knows nothing else. */
  ghost predicate TellsFirst(replay: map<string, string>, calcs: seq<Calc>, n: nat) {
    && (forall i: nat :: i < n && i < |calcs| ==> Shows(replay, calcs[i]))
    && (forall i: nat :: n <= i < |calcs| ==> calcs[i].name !in replay)
    && KnownNames(replay, calcs)
  }

  lemma {:induction false} TellsOneMore(replay: map<string, string>, calcs: seq<Calc>, n: nat)
    requires n < |calcs| && DistinctNames(calcs) && TellsFirst(replay, calcs, n)
    ensures var c := calcs[n];
            TellsFirst(if c.isSet then replay[c.name := c.value] else replay, calcs, n + 1)
  {
  }

  lemma {:induction false} NothingToTell(calcs: seq<Calc>)
    ensures TellsFirst(Replay(Answers(calcs, 0)), calcs, 0)
  {
  }

  lemma {:induction false} AnswersTell(calcs: seq<Calc>, n: nat)
    requires n <= |calcs| && DistinctNames(calcs)
    ensures TellsFirst(Replay(Answers(calcs, n)), calcs, n)
  {
    hide TellsFirst, Replay;
    if n == 0 {
      NothingToTell(calcs);
    } else {
      var c := calcs[n - 1];
      AnswersTell(calcs, n - 1);
      TellsOneMore(Replay(Answers(calcs, n - 1)), calcs, n - 1);
      if c.isSet {
        ReplaySnoc(Answers(calcs, n - 1), Message(c.name, c.value));
      } else {
        assert Answers(calcs, n) == Answers(calcs, n - 1);
      }
    }
  }

  /** Replaying the answer to one REQUEST gives the value of every calculation. */
  lemma {:induction false} AnswersTellEverything(calcs: seq<Calc>, n: nat)
    requires n <= |calcs| && DistinctNames(calcs)
    ensures forall i: nat :: i < n ==> Shows(Replay(Answers(calcs, n)), calcs[i])
    ensures forall i: nat :: n <= i < |calcs| ==> calcs[i].name !in Replay(Answers(calcs, n))
    ensures KnownNames(Replay(Answers(calcs, n)), calcs)
  {
    AnswersTell(calcs, n);
  }

  /** The actions lead from d to t. */
  ghost predicate Leads(eval: Evaluator, d: Daemon, actions: seq<Action>, t: Daemon) {
    Executes(eval, d, actions) && Final(eval, d, actions) == t
  }

  lemma {:induction false} LeadsNowhere(eval: Evaluator, d: Daemon)
    ensures Leads(eval, d, [], d)
  {
  }

  lemma {:induction false} LeadsFrom(eval: Evaluator, d: Daemon, a: Action, actions: seq<Action>, t: Daemon)
    requires Enabled(d, a) && Leads(eval, Apply(eval, d, a), actions, t)
    ensures Leads(eval, d, [a] + actions, t)
  {
    assert ([a] + actions)[1..] == actions;
    hide Apply, Enabled;
  }

  lemma {:induction false} OnTop(a: seq<Message>, b: seq<Message>, c: seq<Message>)
    ensures a + (b + c) == a + b + c
  {
  }

  /** The calculations that hold a value. */
  ghost function SetOnes(calcs: seq<Calc>, n: nat): set<nat> {
    set i: nat | i < n && i < |calcs| && calcs[i].isSet
  }

  lemma {:induction false} AnswersList(calcs: seq<Calc>, n: nat)
    requires n <= |calcs|
    ensures Lists(Answers(calcs, n), calcs, SetOnes(calcs, n))
  {
    hide Lists;
    if n == 0 {
      ListsNothing(calcs);
      assert SetOnes(calcs, 0) == {};
    } else {
      var front := SetOnes(calcs, n - 1);
      AnswersList(calcs, n - 1);
      if calcs[n - 1].isSet {
        assert SetOnes(calcs, n) == front + {n - 1};
        ListsOneMore(Answers(calcs, n - 1), calcs, front, n - 1);
      } else {
        assert SetOnes(calcs, n) == front;
        assert Answers(calcs, n) == Answers(calcs, n - 1);
      }
    }
  }

  /** The steps of a REQUEST pass over the calculations from i on. */
  function PassSteps(i: nat, n: nat): seq<Action>
    requires i <= n
    decreases n - i
  {
    if i == n then [ServiceDone] else [ServiceNext] + PassSteps(i + 1, n)
  }

  /** A pass that nobody else takes part in enqueues the answers, each from the calculation's value at the time. */
  lemma {:induction false} PassStepsAnswer(eval: Evaluator, d: Daemon, i: nat, queue: seq<Message>, enqueued: seq<Message>)
    requires i <= |d.calcs| && d.command == ServicePass(i)
    requires d.queue == queue + Answers(d.calcs, i) && d.enqueued == enqueued + Answers(d.calcs, i)
    ensures Executes(eval, d, PassSteps(i, |d.calcs|))
    ensures var all := Answers(d.calcs, |d.calcs|);
            Final(eval, d, PassSteps(i, |d.calcs|))
            == d.(queue := queue + all, enqueued := enqueued + all, command := NoCommand)
    decreases |d.calcs| - i
  {
    var all := Answers(d.calcs, |d.calcs|);
    var t := d.(queue := queue + all, enqueued := enqueued + all, command := NoCommand);
    if i == |d.calcs| {
      LeadsNowhere(eval, t);
      LeadsFrom(eval, d, ServiceDone, [], t);
      assert [ServiceDone] + [] == [ServiceDone];
    } else {
      var next, answer := d.(command := ServicePass(i + 1)), DeviceAnswer(d.calcs[i]);
      OnTop(queue, Answers(d.calcs, i), answer);
      OnTop(enqueued, Answers(d.calcs, i), answer);
      next := next.(queue := d.queue + answer, enqueued := d.enqueued + answer);
      assert Apply(eval, d, ServiceNext) == next by {
        assert d.queue + [] == d.queue && d.enqueued + [] == d.enqueued;
      }
      PassStepsAnswer(eval, next, i + 1, queue, enqueued);
      hide Answers, Refresh, Output;
      LeadsFrom(eval, d, ServiceNext, PassSteps(i + 1, |d.calcs|), t);
    }
  }

  /** Where on_message sends a message. */
  datatype Destination = NotForMe | NotCommand | ForService | ForDevice(device: string)

  const COMMAND := "command"

  function Dispatch(mainTopic: string, topic: string): Destination {
    if !(mainTopic <= topic) then NotForMe
    else
      var rest := topic[|mainTopic|..];
      if !(COMMAND <= rest) then NotCommand
      else if |rest| == |COMMAND| then ForService
      else ForDevice(rest[|COMMAND| + 1..])
  }

  /** A topic addresses a device exactly as main topic, "command", any one character, device name. */
  lemma DispatchDecodes(mainTopic: string, topic: string, device: string)
    ensures Dispatch(mainTopic, topic) == ForService <==> topic == mainTopic + COMMAND
    ensures Dispatch(mainTopic, topic) == ForDevice(device)
            <==> exists c: char :: topic == mainTopic + COMMAND + [c] + device
  {
    if mainTopic <= topic {
      var rest := topic[|mainTopic|..];
      assert topic == mainTopic + rest;
      if COMMAND <= rest && |rest| > |COMMAND| {
        var c := rest[|COMMAND|];
        assert rest == COMMAND + [c] + rest[|COMMAND| + 1..];
        assert topic == mainTopic + COMMAND + [c] + rest[|COMMAND| + 1..];
      }
    }
    forall c: char | topic == mainTopic + COMMAND + [c] + device
      ensures Dispatch(mainTopic, topic) == ForDevice(device)
    {
      assert topic[|mainTopic|..] == COMMAND + [c] + device;
      assert (COMMAND + [c] + device)[|COMMAND| + 1..] == device;
    }
    if topic == mainTopic + COMMAND {
      assert topic[|mainTopic|..] == COMMAND;
    }
  }

  /** What a command enqueues. */
  function Reply(calcs: seq<Calc>, mainTopic: string, topic: string, message: string): seq<Message> {
    match Dispatch(mainTopic, topic)
    case ForService => if message == "REQUEST" then Answers(calcs, |calcs|) else []
    case ForDevice(device) =>
      var i := FindName(calcs, device);
      if i < |calcs| && message == "REQUEST" then DeviceAnswer(calcs[i]) else []
    case _ => []
  }

  /** The topic of the command to a device: any one character stands before its name. */
  ghost predicate Addresses(mainTopic: string, topic: string, device: string) {
    exists c: char :: topic == mainTopic + COMMAND + [c] + device
  }

  /** The replay of a log shows every calculation and knows no other name. */
  ghost predicate TellsAll(log: seq<Message>, calcs: seq<Calc>) {
    KnownNames(Replay(log), calcs) && forall i: nat :: i < |calcs| ==> Shows(Replay(log), calcs[i])
  }

  /** The first calculation of its name that the topic addresses. */
  ghost predicate Meant(calcs: seq<Calc>, mainTopic: string, topic: string, i: nat) {
    && i < |calcs| && Addresses(mainTopic, topic, calcs[i].name)
    && forall j :: 0 <= j < i ==> calcs[j].name != calcs[i].name
  }

  /**
   * What a command is to append to the queue: for a service-wide REQUEST, name and value of every set calculation in
   * their order; for a REQUEST to a calculation, its own if it is set; for any other topic, name or message nothing.
   */
  ghost predicate Answered(calcs: seq<Calc>, mainTopic: string, topic: string, message: string, added: seq<Message>) {
    if message == "REQUEST" && topic == mainTopic + COMMAND then
      Lists(added, calcs, SetOnes(calcs, |calcs|)) && (DistinctNames(calcs) ==> TellsAll(added, calcs))
    else if message == "REQUEST" && exists i: nat :: Meant(calcs, mainTopic, topic, i) then
      forall i: nat :: Meant(calcs, mainTopic, topic, i) ==>
        added == if calcs[i].isSet then [Message(calcs[i].name, calcs[i].value)] else []
    else
      added == []
  }

  /** A topic that addresses a name addresses the first calculation of that name, if there is one. */
  lemma {:induction false} MeantIsFirst(calcs: seq<Calc>, mainTopic: string, topic: string, device: string)
    requires Addresses(mainTopic, topic, device)
    ensures forall other :: Addresses(mainTopic, topic, other) ==> other == device
    ensures forall i: nat :: Meant(calcs, mainTopic, topic, i) <==> i < |calcs| && i == FindName(calcs, device)
  {
    DispatchDecodes(mainTopic, topic, device);
    forall other | Addresses(mainTopic, topic, other)
      ensures other == device
    {
      DispatchDecodes(mainTopic, topic, other);
    }
    hide Addresses, Dispatch;
    var i := FindName(calcs, device);
    assert i < |calcs| ==> Meant(calcs, mainTopic, topic, i);
  }

  lemma {:induction false} ReplyExactly(calcs: seq<Calc>, mainTopic: string, topic: string, message: string)
    ensures Answered(calcs, mainTopic, topic, message, Reply(calcs, mainTopic, topic, message))
  {
    forall device
      ensures Dispatch(mainTopic, topic) == ForDevice(device) <==> Addresses(mainTopic, topic, device)
    {
      DispatchDecodes(mainTopic, topic, device);
    }
    DispatchDecodes(mainTopic, topic, "");
    hide Dispatch, Addresses, Lists, KnownNames, Shows, Replay, DistinctNames;
    match Dispatch(mainTopic, topic) {
      case ForService =>
        AnswersList(calcs, |calcs|);
        if DistinctNames(calcs) {
          AnswersTellEverything(calcs, |calcs|);
        }
      case ForDevice(device) =>
        MeantIsFirst(calcs, mainTopic, topic, device);
        var i := FindName(calcs, device);
        assert topic != mainTopic + COMMAND;
        assert i < |calcs| ==> Meant(calcs, mainTopic, topic, i);
      case _ =>
    }
  }

  // ----- The loop -----

  /** One turn of the loop: what the other threads enqueue until Wait returns, and what it returns. */
  datatype Turn = Turn(arrivals: seq<Message>, wake: Wake)

  datatype LoopState = LoopState(queue: seq<Message>, sent: seq<Message>, paused: bool, stopped: bool)

  function LoopTurn(s: LoopState, t: Turn): LoopState {
    if s.stopped then s
    else
      var (paused, stop, drain) := AfterWake(s.paused, t.wake);
      var queue := s.queue + t.arrivals;
      if drain then LoopState([], s.sent + queue, paused, stop) else LoopState(queue, s.sent, paused, stop)
  }

  function LoopRun(queue: seq<Message>, turns: seq<Turn>): LoopState {
    if turns == [] then LoopState(queue, [], false, false)
    else LoopTurn(LoopRun(queue, turns[..|turns| - 1]), turns[|turns| - 1])
  }

  /** Everything that arrived while the loop was running. */
  function Arrivals(queue: seq<Message>, turns: seq<Turn>): seq<Message> {
    if turns == [] then []
    else
      Arrivals(queue, turns[..|turns| - 1])
      + if LoopRun(queue, turns[..|turns| - 1]).stopped then [] else turns[|turns| - 1].arrivals
  }

  /** Sent followed by still queued is what was there followed by what arrived; a paused turn sends nothing. */
  lemma {:induction false} LoopDelivers(queue: seq<Message>, turns: seq<Turn>)
    ensures var s := LoopRun(queue, turns); s.sent + s.queue == queue + Arrivals(queue, turns)
    decreases |turns|
  {
    if turns != [] {
      var front, t := turns[..|turns| - 1], turns[|turns| - 1];
      var s := LoopRun(queue, front);
      LoopDelivers(queue, front);
      assert s.sent + (s.queue + t.arrivals) == (s.sent + s.queue) + t.arrivals;
      assert (queue + Arrivals(queue, front)) + t.arrivals == queue + (Arrivals(queue, front) + t.arrivals);
      assert (s.sent + (s.queue + t.arrivals)) + [] == s.sent + (s.queue + t.arrivals);
      assert Arrivals(queue, front) + [] == Arrivals(queue, front);
    } else {
      assert [] + queue == queue + [];
    }
  }

  ghost predicate Says(w: Wake, status: Status) {
    w.cond == STATUS_CHANGED && w.status == status
  }

  /** A notification from the queue. */
  ghost predicate Notified(w: Wake) {
    w.cond == 1
  }

  /**
   * One turn of a loop that has not stopped. It sends everything held and arrived when it starts, or when it is
   * notified and not paused, and nothing otherwise; only STOP stops it, only PAUSE and START change bPause.
   */
  lemma {:induction false} TurnExactly(queue: seq<Message>, turns: seq<Turn>, t: Turn)
    requires !LoopRun(queue, turns).stopped
    ensures var s, r := LoopRun(queue, turns), LoopRun(queue, turns + [t]);
            && (Says(t.wake, START) || (Notified(t.wake) && !s.paused) ==>
                  r.queue == [] && r.sent == s.sent + (s.queue + t.arrivals))
            && (!Says(t.wake, START) && !(Notified(t.wake) && !s.paused) ==>
                  r.queue == s.queue + t.arrivals && r.sent == s.sent)
            && (r.stopped <==> Says(t.wake, STOP))
            && (r.paused <==> Says(t.wake, PAUSE) || (s.paused && !Says(t.wake, START)))
  {
    assert (turns + [t])[..|turns|] == turns;
  }

  lemma {:induction false} StoppedTurn(queue: seq<Message>, turns: seq<Turn>, t: Turn)
    requires LoopRun(queue, turns).stopped
    ensures LoopRun(queue, turns + [t]) == LoopRun(queue, turns)
  {
    assert (turns + [t])[..|turns|] == turns;
  }

  /** The loop has stopped exactly when a wakeup said STOP. */
  lemma {:induction false} StoppedExactly(queue: seq<Message>, turns: seq<Turn>)
    ensures LoopRun(queue, turns).stopped <==> exists k :: 0 <= k < |turns| && Says(turns[k].wake, STOP)
    decreases |turns|
  {
    if turns == [] {
    } else {
      var front, t := turns[..|turns| - 1], turns[|turns| - 1];
      assert turns == front + [t] && forall k :: 0 <= k < |front| ==> turns[k] == front[k];
      StoppedExactly(queue, front);
      hide LoopRun, Says;
      if LoopRun(queue, front).stopped {
        StoppedTurn(queue, front, t);
      } else {
        TurnExactly(queue, front, t);
      }
    }
  }

  /** Turns behind a STOP change nothing. */
  lemma {:induction false} NothingAfterStop(queue: seq<Message>, turns: seq<Turn>, stop: Turn, more: seq<Turn>)
    requires Says(stop.wake, STOP)
    ensures LoopRun(queue, turns + [stop] + more) == LoopRun(queue, turns + [stop])
    decreases |more|
  {
    var first := turns + [stop];
    hide LoopRun, Says;
    if more == [] {
      assert first + [] == first;
    } else {
      var front, last := more[..|more| - 1], more[|more| - 1];
      NothingAfterStop(queue, turns, stop, front);
      StoppedExactly(queue, first);
      assert first[|turns|] == stop;
      assert first + more == first + front + [last];
      StoppedTurn(queue, first + front, last);
    }
  }

  /** A PAUSE before any STOP, with no START between it and the end or the STOP. */
  ghost predicate PausedAt(turns: seq<Turn>, k: nat) {
    && k < |turns| && Says(turns[k].wake, PAUSE)
    && (forall j :: 0 <= j < k ==> !Says(turns[j].wake, STOP))
    && forall j :: k < j < |turns| && Says(turns[j].wake, START) ==> exists i :: k < i < j && Says(turns[i].wake, STOP)
  }

  lemma {:induction false} PausedAtNext(turns: seq<Turn>, t: Turn, k: nat)
    requires k < |turns|
    ensures PausedAt(turns + [t], k) <==>
              PausedAt(turns, k) && (Says(t.wake, START) ==> exists i :: k < i < |turns| && Says(turns[i].wake, STOP))
  {
    var all := turns + [t];
    assert all[|turns|] == t && forall j :: 0 <= j < |turns| ==> all[j] == turns[j];
    hide Says;
    if PausedAt(all, k) {
      forall j | k < j < |turns| && Says(turns[j].wake, START)
        ensures exists i :: k < i < j && Says(turns[i].wake, STOP)
      {
        var i :| k < i < j && Says(all[i].wake, STOP);
        assert Says(turns[i].wake, STOP);
      }
      if Says(t.wake, START) {
        var i :| k < i < |turns| && Says(all[i].wake, STOP);
        assert Says(turns[i].wake, STOP);
      }
    }
    if PausedAt(turns, k) && (Says(t.wake, START) ==> exists i :: k < i < |turns| && Says(turns[i].wake, STOP)) {
      forall j | k < j < |all| && Says(all[j].wake, START)
        ensures exists i :: k < i < j && Says(all[i].wake, STOP)
      {
        var i :| k < i < j && i < |turns| && Says(turns[i].wake, STOP);
        assert Says(all[i].wake, STOP);
      }
    }
  }

  lemma {:induction false} PausedAtLast(turns: seq<Turn>, t: Turn)
    ensures PausedAt(turns + [t], |turns|) <==>
              Says(t.wake, PAUSE) && forall j :: 0 <= j < |turns| ==> !Says(turns[j].wake, STOP)
  {
    var all := turns + [t];
    assert all[|turns|] == t && forall j :: 0 <= j < |turns| ==> all[j] == turns[j];
  }

  /** The loop is paused exactly when the last PAUSE or START before it stopped, if it did, was a PAUSE. */
  lemma {:induction false} PausedExactly(queue: seq<Message>, turns: seq<Turn>)
    ensures LoopRun(queue, turns).paused <==> exists k: nat :: PausedAt(turns, k)
    decreases |turns|
  {
    if turns == [] {
    } else {
      var front, t := turns[..|turns| - 1], turns[|turns| - 1];
      assert turns == front + [t];
      PausedExactly(queue, front);
      StoppedExactly(queue, front);
      PausedAtLast(front, t);
      forall k: nat | k < |front|
        ensures PausedAt(turns, k) <==>
                  PausedAt(front, k) && (Says(t.wake, START) ==> exists i :: k < i < |front| && Says(front[i].wake, STOP))
      {
        PausedAtNext(front, t, k);
      }
      if LoopRun(queue, front).stopped {
        StoppedTurn(queue, front, t);
        StopKeepsPaused(front, t);
      } else {
        TurnExactly(queue, front, t);
      }
      PausedPositions(turns);
      PausedPositions(front);
    }
  }

  lemma {:induction false} PausedPositions(turns: seq<Turn>)
    ensures forall k: nat :: PausedAt(turns, k) ==> k < |turns|
  {
  }

  /** Behind a STOP no turn makes or unmakes a pause. */
  lemma {:induction false} StopKeepsPaused(turns: seq<Turn>, t: Turn)
    requires exists i :: 0 <= i < |turns| && Says(turns[i].wake, STOP)
    ensures forall k: nat :: PausedAt(turns, k) ==> exists i :: k < i < |turns| && Says(turns[i].wake, STOP)
  {
    var i :| 0 <= i < |turns| && Says(turns[i].wake, STOP);
    forall k: nat | PausedAt(turns, k)
      ensures exists i :: k < i < |turns| && Says(turns[i].wake, STOP)
    {
      assert k != i;
    }
  }

  /** The step of the daemon thread that wakes up does the same. */
  lemma {:induction false} AwakeExactly(eval: Evaluator, d: Daemon, w: Wake)
    requires d.control == Waiting
    ensures var t := Apply(eval, d, Awake(w));
            && t == d.(paused := t.paused, control := t.control)
            && (t.paused <==> Says(w, PAUSE) || (d.paused && !Says(w, START)))
            && t.control == if Says(w, STOP) then Stopped
                            else if Says(w, START) || (Notified(w) && !d.paused) then WantsLock else Waiting
  {
  }

  /** The arrivals of the turns, all of them. */
  function AllArrivals(turns: seq<Turn>): seq<Message> {
    if turns == [] then [] else AllArrivals(turns[..|turns| - 1]) + turns[|turns| - 1].arrivals
  }

  /** From a PAUSE on, whatever the wakeups say, nothing is sent and everything is kept until START or STOP. */
  lemma {:induction false} PauseHoldsEverything(queue: seq<Message>, turns: seq<Turn>, pause: Turn, more: seq<Turn>)
    requires !LoopRun(queue, turns).stopped && Says(pause.wake, PAUSE)
    requires forall j :: 0 <= j < |more| ==> !Says(more[j].wake, START) && !Says(more[j].wake, STOP)
    ensures var s, t := LoopRun(queue, turns), LoopRun(queue, turns + [pause] + more);
            && t.paused && !t.stopped
            && t.sent == s.sent && t.queue == s.queue + pause.arrivals + AllArrivals(more)
    decreases |more|
  {
    var first := turns + [pause];
    if more == [] {
      assert first[..|turns|] == turns && first + [] == first;
      assert LoopRun(queue, first).queue + [] == LoopRun(queue, first).queue;
    } else {
      var front, last := more[..|more| - 1], more[|more| - 1];
      PauseHoldsEverything(queue, turns, pause, front);
      var all, before := first + more, LoopRun(queue, first + front);
      assert all[..|all| - 1] == first + front && all[|all| - 1] == last;
      assert before.queue + last.arrivals
          == LoopRun(queue, turns).queue + pause.arrivals + (AllArrivals(front) + last.arrivals);
    }
  }

  /** START releases everything that was kept, in one turn. */
  lemma {:induction false} StartReleasesEverything(queue: seq<Message>, turns: seq<Turn>, pause: Turn, more: seq<Turn>, start: Turn)
    requires !LoopRun(queue, turns).stopped && Says(pause.wake, PAUSE) && Says(start.wake, START)
    requires forall j :: 0 <= j < |more| ==> !Says(more[j].wake, START) && !Says(more[j].wake, STOP)
    ensures var s, t := LoopRun(queue, turns), LoopRun(queue, turns + [pause] + more + [start]);
            && !t.paused && t.queue == []
            && t.sent == s.sent + (s.queue + pause.arrivals + AllArrivals(more) + start.arrivals)
  {
    PauseHoldsEverything(queue, turns, pause, more);
    var held := turns + [pause] + more;
    assert (held + [start])[..|held|] == held;
  }

  /** The steps of a drain that nobody else takes part in. */
  function DrainSteps(n: nat): seq<Action> {
    if n == 0 then [DrainDone] else [PublishFront] + DrainSteps(n - 1)
  }

  lemma {:induction false} DrainStepsPublishAll(eval: Evaluator, d: Daemon)
    requires d.control == Draining
    ensures Executes(eval, d, DrainSteps(|d.queue|))
    ensures Final(eval, d, DrainSteps(|d.queue|))
         == d.(published := d.published + d.queue, queue := [], control := Waiting)
    decreases |d.queue|
  {
    var n := |d.queue|;
    if n == 0 {
      assert DrainSteps(0)[1..] == [];
      assert Executes(eval, Apply(eval, d, DrainDone), DrainSteps(0)[1..]);
      assert d.published + d.queue == d.published;
    } else {
      var next := Apply(eval, d, PublishFront);
      assert DrainSteps(n)[0] == PublishFront && DrainSteps(n)[1..] == DrainSteps(n - 1);
      DrainStepsPublishAll(eval, next);
      assert next.published + next.queue == d.published + d.queue;
    }
  }

  /** A turn of the loop is one of the interleavings of the daemon: the one without other threads in between. */
  lemma {:induction false} LoopTurnIsSteps(eval: Evaluator, d: Daemon, w: Wake) returns (actions: seq<Action>)
    requires d.control == Waiting && d.command == NoCommand
    ensures Executes(eval, d, actions)
    ensures var s := LoopTurn(LoopState(d.queue, [], d.paused, false), Turn([], w));
            var t := Final(eval, d, actions);
            && t == d.(published := d.published + s.sent, queue := s.queue, paused := s.paused, control := t.control)
            && t.control == if s.stopped then Stopped else Waiting
  {
    var (paused, stop, drain) := AfterWake(d.paused, w);
    var awake := Apply(eval, d, Awake(w));
    assert d.queue + [] == d.queue && d.published + [] == d.published && [] + d.queue == d.queue;
    if drain {
      var draining := Apply(eval, awake, Lock);
      DrainStepsPublishAll(eval, draining);
      actions := [Awake(w)] + ([Lock] + DrainSteps(|d.queue|));
      assert actions[1..] == [Lock] + DrainSteps(|d.queue|);
      assert ([Lock] + DrainSteps(|d.queue|))[1..] == DrainSteps(|d.queue|);
    } else {
      actions := [Awake(w)];
      assert actions[1..] == [];
      assert Executes(eval, awake, []);
    }
  }

  // ----- Undisturbed runs of the other threads -----

  /** What is enqueued for the calculations from n on. */
  ghost function EmittedFrom(eval: Evaluator, cache: Cache, calcs: seq<Calc>, who: set<nat>, n: nat): seq<Message>
    requires n <= |calcs|
    decreases |calcs| - n
  {
    if n == |calcs| then []
    else (if n in who then Output(eval, cache, calcs[n]) else []) + EmittedFrom(eval, cache, calcs, who, n + 1)
  }

  ghost function RefreshFrom(eval: Evaluator, cache: Cache, calcs: seq<Calc>, who: set<nat>, n: nat): seq<Calc> {
    seq(|calcs|, i requires 0 <= i < |calcs| => if n <= i && i in who then Refresh(eval, cache, calcs[i]) else calcs[i])
  }

  lemma {:induction false} EmittedInTwo(eval: Evaluator, cache: Cache, calcs: seq<Calc>, who: set<nat>, n: nat)
    requires n <= |calcs|
    ensures Emitted(eval, cache, calcs, who, n) + EmittedFrom(eval, cache, calcs, who, n)
         == Emitted(eval, cache, calcs, who, |calcs|)
    decreases |calcs| - n
  {
    hide Output;
    var before := Emitted(eval, cache, calcs, who, n);
    if n == |calcs| {
      assert before + [] == before;
    } else {
      var out, later := if n in who then Output(eval, cache, calcs[n]) else [], EmittedFrom(eval, cache, calcs, who, n + 1);
      EmittedInTwo(eval, cache, calcs, who, n + 1);
      assert before + (out + later) == before + out + later;
    }
  }

  /** What comes later does not look at what came before. */
  lemma {:induction false} EmittedLocally(eval: Evaluator, cache: Cache, calcs: seq<Calc>, others: seq<Calc>, who: set<nat>, n: nat)
    requires n <= |calcs| == |others| && forall i :: n <= i < |calcs| ==> others[i] == calcs[i]
    ensures EmittedFrom(eval, cache, others, who, n) == EmittedFrom(eval, cache, calcs, who, n)
    decreases |calcs| - n
  {
    hide Output;
    if n == |calcs| {
    } else {
      EmittedLocally(eval, cache, calcs, others, who, n + 1);
    }
  }

  /** One calculation, then the rest. */
  lemma {:induction false} OneThenRest(eval: Evaluator, cache: Cache, calcs: seq<Calc>, who: set<nat>, n: nat)
    requires n < |calcs|
    ensures var next := if n in who then calcs[n := Refresh(eval, cache, calcs[n])] else calcs;
            var out := if n in who then Output(eval, cache, calcs[n]) else [];
            && RefreshFrom(eval, cache, calcs, who, n) == RefreshFrom(eval, cache, next, who, n + 1)
            && EmittedFrom(eval, cache, calcs, who, n) == out + EmittedFrom(eval, cache, next, who, n + 1)
  {
    hide Output, Refresh;
    var next := if n in who then calcs[n := Refresh(eval, cache, calcs[n])] else calcs;
    EmittedLocally(eval, cache, calcs, next, who, n + 1);
  }

  /** One calculation of a callback: evaluated, and its changed value enqueued. */
  lemma {:induction false} SweepOne(eval: Evaluator, d: Daemon, rest: seq<Action>, t: Daemon) returns (actions: seq<Action>)
    requires d.callback.Sweeping? && d.callback.next < |d.calcs| && !LockHeld(d)
    requires var who, n := d.callback.who, d.callback.next;
             var out := if n in who then Output(eval, d.cache, d.calcs[n]) else [];
             var next := d.(calcs := if n in who then d.calcs[n := Refresh(eval, d.cache, d.calcs[n])] else d.calcs,
                            queue := d.queue + out, enqueued := d.enqueued + out, emitted := d.emitted + out,
                            callback := Sweeping(who, n + 1));
             Leads(eval, next, rest, t)
    ensures Leads(eval, d, actions, t)
  {
    hide Leads, Refresh, Output, UpdateValue;
    var who, n := d.callback.who, d.callback.next;
    var swept := Apply(eval, d, SweepNext);
    assert d.queue + [] == d.queue && d.enqueued + [] == d.enqueued && d.emitted + [] == d.emitted;
    if n in who && Output(eval, d.cache, d.calcs[n]) != [] {
      OutputIsChange(eval, d.cache, d.calcs[n]);
      assert Apply(eval, swept, Emplace)
          == d.(calcs := swept.calcs, queue := d.queue + Output(eval, d.cache, d.calcs[n]),
                enqueued := d.enqueued + Output(eval, d.cache, d.calcs[n]),
                emitted := d.emitted + Output(eval, d.cache, d.calcs[n]), callback := Sweeping(who, n + 1));
      LeadsFrom(eval, swept, Emplace, rest, t);
      LeadsFrom(eval, d, SweepNext, [Emplace] + rest, t);
      actions := [SweepNext] + ([Emplace] + rest);
    } else {
      LeadsFrom(eval, d, SweepNext, rest, t);
      actions := [SweepNext] + rest;
    }
  }

  lemma {:induction false} SweepSteps(eval: Evaluator, d: Daemon) returns (actions: seq<Action>)
    requires d.callback.Sweeping? && d.callback.next <= |d.calcs| && !LockHeld(d)
    ensures var who, n := d.callback.who, d.callback.next;
            var log := EmittedFrom(eval, d.cache, d.calcs, who, n);
            Leads(eval, d, actions,
                  d.(calcs := RefreshFrom(eval, d.cache, d.calcs, who, n), queue := d.queue + log,
                     enqueued := d.enqueued + log, emitted := d.emitted + log, callback := Idle))
    decreases |d.calcs| - d.callback.next
  {
    var who, n := d.callback.who, d.callback.next;
    if n == |d.calcs| {
      LeadsNowhere(eval, Apply(eval, d, SweepDone));
      LeadsFrom(eval, d, SweepDone, [], Apply(eval, d, SweepDone));
      actions := [SweepDone] + [];
      assert RefreshFrom(eval, d.cache, d.calcs, who, n) == d.calcs;
      assert d.queue + [] == d.queue && d.enqueued + [] == d.enqueued && d.emitted + [] == d.emitted;
    } else {
      OneThenRest(eval, d.cache, d.calcs, who, n);
      hide Leads, Refresh, Output, RefreshFrom, EmittedFrom;
      var out := if n in who then Output(eval, d.cache, d.calcs[n]) else [];
      var next := d.(calcs := if n in who then d.calcs[n := Refresh(eval, d.cache, d.calcs[n])] else d.calcs,
                     queue := d.queue + out, enqueued := d.enqueued + out, emitted := d.emitted + out,
                     callback := Sweeping(who, n + 1));
      var log, later := EmittedFrom(eval, d.cache, d.calcs, who, n), EmittedFrom(eval, next.cache, next.calcs, who, n + 1);
      var rest := SweepSteps(eval, next);
      OnTop(d.queue, out, later);
      OnTop(d.enqueued, out, later);
      OnTop(d.emitted, out, later);
      actions := SweepOne(eval, d, rest,
                          d.(calcs := RefreshFrom(eval, d.cache, d.calcs, who, n), queue := d.queue + log,
                             enqueued := d.enqueued + log, emitted := d.emitted + log, callback := Idle));
    }
  }

  /** A callback that nobody else takes part in is one of the interleavings, and does what on_cache does. */
  lemma {:induction false} CallbackIsSteps(eval: Evaluator, d: Daemon, e: Event) returns (actions: seq<Action>)
    requires d.callback == Idle && !LockHeld(d)
    ensures var (s, log) := OnCache(eval, State(d.calcs, d.cache), e);
            Leads(eval, d, actions,
                  d.(calcs := s.calcs, cache := s.cache, queue := d.queue + log, enqueued := d.enqueued + log,
                     emitted := d.emitted + log, arrived := d.arrived + [e]))
  {
    var arrived := Apply(eval, d, Arrive(e));
    var (cache, changed) := UpdateValue(d.cache, EventKey(e), e.payload);
    assert d.queue + [] == d.queue && d.enqueued + [] == d.enqueued && d.emitted + [] == d.emitted;
    if changed {
      var who := cache[EventKey(e)].calculs;
      var rest := SweepSteps(eval, arrived);
      EmittedInTwo(eval, cache, d.calcs, who, 0);
      assert [] + EmittedFrom(eval, cache, d.calcs, who, 0) == EmittedFrom(eval, cache, d.calcs, who, 0);
      assert RefreshFrom(eval, cache, d.calcs, who, 0) == RefreshAll(eval, cache, d.calcs, who);
      actions := [Arrive(e)] + rest;
      hide Leads, EmittedFrom, RefreshFrom, Refresh, Output, UpdateValue;
      LeadsFrom(eval, d, Arrive(e), rest,
                arrived.(calcs := RefreshFrom(eval, cache, d.calcs, who, 0),
                         queue := d.queue + EmittedFrom(eval, cache, d.calcs, who, 0),
                         enqueued := d.enqueued + EmittedFrom(eval, cache, d.calcs, who, 0),
                         emitted := d.emitted + EmittedFrom(eval, cache, d.calcs, who, 0), callback := Idle));
    } else {
      actions := [Arrive(e)] + [];
      LeadsNowhere(eval, arrived);
      LeadsFrom(eval, d, Arrive(e), [], arrived);
    }
  }

  /** Likewise a command, which appends its answer to the queue. */
  lemma {:induction false} CommandIsSteps(eval: Evaluator, d: Daemon, mainTopic: string, topic: string, message: string)
    returns (actions: seq<Action>)
    requires d.command == NoCommand && !LockHeld(d)
    ensures var added := Reply(d.calcs, mainTopic, topic, message);
            Leads(eval, d, actions, d.(queue := d.queue + added, enqueued := d.enqueued + added))
  {
    assert d.queue + [] == d.queue && d.enqueued + [] == d.enqueued;
    match Dispatch(mainTopic, topic) {
      case ForService =>
        if message == "REQUEST" {
          var begun := Apply(eval, d, BeginService);
          PassStepsAnswer(eval, begun, 0, d.queue, d.enqueued);
          actions := [BeginService] + PassSteps(0, |d.calcs|);
          LeadsFrom(eval, d, BeginService, PassSteps(0, |d.calcs|), Final(eval, begun, PassSteps(0, |d.calcs|)));
        } else {
          actions := [];
        }
      case ForDevice(device) =>
        if message == "REQUEST" {
          actions := [AskDevice(device)] + [];
          LeadsNowhere(eval, Apply(eval, d, AskDevice(device)));
          LeadsFrom(eval, d, AskDevice(device), [], Apply(eval, d, AskDevice(device)));
        } else {
          actions := [];
        }
      case _ =>
        actions := [];
    }
  }

  /** One calculation of the initial pass: evaluated if it has no devices, and its value published. */
  lemma {:induction false} StartOneStep(eval: Evaluator, d: Daemon, who: set<nat>, rest: seq<Action>, t: Daemon)
    returns (actions: seq<Action>)
    requires d.control.Starting? && d.control.next < |d.calcs|
    requires d.control.next in who <==> d.calcs[d.control.next].devices == []
    requires var n := d.control.next;
             var out := if n in who then Output(eval, map[], d.calcs[n]) else [];
             var next := d.(calcs := if n in who then d.calcs[n := Refresh(eval, map[], d.calcs[n])] else d.calcs,
                            published := d.published + out, initial := d.initial + out, control := Starting(n + 1));
             Leads(eval, next, rest, t)
    ensures Leads(eval, d, actions, t)
  {
    hide Leads, Refresh, Output, UpdateValue;
    var n, started := d.control.next, Apply(eval, d, StartNext);
    assert d.published + [] == d.published && d.initial + [] == d.initial;
    if n in who && Output(eval, map[], d.calcs[n]) != [] {
      OutputIsChange(eval, map[], d.calcs[n]);
      assert Apply(eval, started, StartPublish)
          == d.(calcs := started.calcs, published := d.published + Output(eval, map[], d.calcs[n]),
                initial := d.initial + Output(eval, map[], d.calcs[n]), control := Starting(n + 1));
      LeadsFrom(eval, started, StartPublish, rest, t);
      LeadsFrom(eval, d, StartNext, [StartPublish] + rest, t);
      actions := [StartNext] + ([StartPublish] + rest);
    } else {
      LeadsFrom(eval, d, StartNext, rest, t);
      actions := [StartNext] + rest;
    }
  }

  /** And likewise the initial pass. */
  lemma {:induction false} InitialPassIsSteps(eval: Evaluator, d: Daemon) returns (actions: seq<Action>)
    requires d.control.Starting? && d.control.next <= |d.calcs|
    ensures var who, n := DeviceFree(d.calcs), d.control.next;
            var log := EmittedFrom(eval, map[], d.calcs, who, n);
            Leads(eval, d, actions,
                  d.(calcs := RefreshFrom(eval, map[], d.calcs, who, n), published := d.published + log,
                     initial := d.initial + log, control := Waiting))
    decreases |d.calcs| - d.control.next
  {
    var who, n := DeviceFree(d.calcs), d.control.next;
    if n == |d.calcs| {
      LeadsNowhere(eval, Apply(eval, d, StartDone));
      LeadsFrom(eval, d, StartDone, [], Apply(eval, d, StartDone));
      actions := [StartDone] + [];
      assert RefreshFrom(eval, map[], d.calcs, who, n) == d.calcs;
      assert d.published + [] == d.published && d.initial + [] == d.initial;
    } else {
      OneThenRest(eval, map[], d.calcs, who, n);
      RefreshKeepsShape(eval, map[], d.calcs[n]);
      hide Leads, Refresh, Output, RefreshFrom, EmittedFrom;
      var out := if n in who then Output(eval, map[], d.calcs[n]) else [];
      var next := d.(calcs := if n in who then d.calcs[n := Refresh(eval, map[], d.calcs[n])] else d.calcs,
                     published := d.published + out, initial := d.initial + out, control := Starting(n + 1));
      var log, later := EmittedFrom(eval, map[], d.calcs, who, n), EmittedFrom(eval, map[], next.calcs, who, n + 1);
      assert DeviceFree(next.calcs) == who;
      var rest := InitialPassIsSteps(eval, next);
      OnTop(d.published, out, later);
      OnTop(d.initial, out, later);
      actions := StartOneStep(eval, d, who, rest,
                              d.(calcs := RefreshFrom(eval, map[], d.calcs, who, n), published := d.published + log,
                                 initial := d.initial + log, control := Waiting));
    }
  }

  /** From its boot the daemon can reach the end of the initial pass, with what the pass leaves and sends. */
  lemma {:induction false} BootIsSteps(eval: Evaluator, s: State) returns (actions: seq<Action>)
    ensures var log := Emitted(eval, map[], s.calcs, DeviceFree(s.calcs), |s.calcs|);
            Leads(eval, Boot(s), actions,
                  Boot(s).(calcs := RefreshAll(eval, map[], s.calcs, DeviceFree(s.calcs)), published := log,
                           initial := log, control := Waiting))
  {
    var who := DeviceFree(s.calcs);
    actions := InitialPassIsSteps(eval, Boot(s));
    EmittedInTwo(eval, map[], s.calcs, who, 0);
    assert [] + EmittedFrom(eval, map[], s.calcs, who, 0) == EmittedFrom(eval, map[], s.calcs, who, 0);
    assert RefreshFrom(eval, map[], s.calcs, who, 0) == RefreshAll(eval, map[], s.calcs, who);
  }
}

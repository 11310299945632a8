/** GracefulShutdown: a main goroutine, a signal-listening goroutine, a buffered channel of
    signals and an unbuffered channel between the two, under every interleaving. */
module Shutdown {
  /** Where the main goroutine is: about to do the named thing. */
  datatype MainPc = AtNotify | AtSpawn | AtReceive | AtStop | AtCloseDone | AtCloseSignals | AtReset | MainEnded

  datatype ListenerPc = NotSpawned | AtTake | AtSend | ListenerEnded

  /** `buffered` counts signals in the channel of capacity one; `registered` says that Notify is in
      force. `panicked` ends the process. The last four fields are history. */
  datatype State = State(main: MainPc, listener: ListenerPc, buffered: nat, registered: bool,
                         signalsClosed: bool, doneClosed: bool, panicked: bool,
                         delivered: nat, taken: nat, stops: nat, closes: nat)

  /** `Signal` is a delivery by the runtime; `Main` and `Listener` are steps of one goroutine; the
      unbuffered send and receive happen together in `Rendezvous`. */
  datatype Action = Signal | Main | Listener | Rendezvous

  const START := State(AtNotify, NotSpawned, 0, false, false, false, false, 0, 0, 0, 0)

  function Panic(s: State): State {
    s.(panicked := true)
  }

  predicate Enabled(s: State, a: Action) {
    && !s.panicked
    && match a
       case Signal => s.registered
       case Main => s.main != MainEnded && (s.main.AtReceive? ==> s.doneClosed)
       case Listener =>
         || (s.listener.AtTake? && (s.buffered > 0 || s.signalsClosed))
         || (s.listener.AtSend? && s.doneClosed)
       case Rendezvous => s.listener.AtSend? && s.main.AtReceive? && !s.doneClosed
  }

  /** The runtime sends without blocking: a full buffer drops the signal, a closed channel panics. */
  function DeliverSignal(s: State): State {
    if s.signalsClosed then Panic(s)
    else s.(buffered := 1, delivered := s.delivered + 1)
  }

  function MainStep(s: State): State
    requires Enabled(s, Main)
  {
    match s.main
    case AtNotify => s.(main := AtSpawn, registered := true)
    case AtSpawn => s.(main := AtReceive, listener := AtTake)
    case AtReceive => s.(main := AtStop)
    case AtStop => s.(main := AtCloseDone, stops := s.stops + 1)
    case AtCloseDone =>
      if s.doneClosed then Panic(s) else s.(main := AtCloseSignals, doneClosed := true, closes := s.closes + 1)
    case AtCloseSignals =>
      if s.signalsClosed then Panic(s) else s.(main := AtReset, signalsClosed := true, closes := s.closes + 1)
    case AtReset => s.(main := MainEnded, registered := false)
  }

  /** Taking from a closed empty channel yields the zero signal at once; sending on a closed channel
      panics. */
  function ListenerStep(s: State): State
    requires Enabled(s, Listener)
  {
    if s.listener.AtTake? then
      if s.buffered > 0 then s.(listener := AtSend, buffered := s.buffered - 1, taken := s.taken + 1)
      else s.(listener := AtSend)
    else Panic(s)
  }

  function Next(s: State, a: Action): State
    requires Enabled(s, a)
  {
    match a
    case Signal => DeliverSignal(s)
    case Main => MainStep(s)
    case Listener => ListenerStep(s)
    case Rendezvous => s.(listener := ListenerEnded, main := AtStop)
  }

  /** `actions` can be performed one after the other from `s`. */
  predicate CanRun(s: State, actions: seq<Action>)
    decreases |actions|
  {
    actions == [] || (Enabled(s, actions[0]) && CanRun(Next(s, actions[0]), actions[1..]))
  }

  function RunFrom(s: State, actions: seq<Action>): State
    requires CanRun(s, actions)
    decreases |actions|
  {
    if actions == [] then s else RunFrom(Next(s, actions[0]), actions[1..])
  }

  // ----- safety -----

  /** Some signal of the run is delivered after the signals channel was closed and before Reset. */
  predicate SignalInWindow(s: State, actions: seq<Action>)
    requires CanRun(s, actions)
    decreases |actions|
  {
    actions != [] &&
    ((actions[0].Signal? && s.main.AtReset?) || SignalInWindow(Next(s, actions[0]), actions[1..]))
  }

  predicate Finishing(m: MainPc) {
    m.AtStop? || m.AtCloseDone? || m.AtCloseSignals? || m.AtReset? || m.MainEnded?
  }

  /** What holds between any two steps of a run that has not panicked. */
  ghost predicate Inv(s: State) {
    && !s.panicked
    && (s.registered <==> s.main != AtNotify && s.main != MainEnded)
    && (s.listener.NotSpawned? <==> s.main.AtNotify? || s.main.AtSpawn?)
    && (s.listener.ListenerEnded? <==> Finishing(s.main))
    && (s.doneClosed <==> s.main.AtCloseSignals? || s.main.AtReset? || s.main.MainEnded?)
    && (s.signalsClosed <==> s.main.AtReset? || s.main.MainEnded?)
    && s.buffered <= 1 && s.buffered + s.taken <= s.delivered
    && (s.delivered > 0 ==> s.buffered + s.taken > 0)
    && s.taken == (if s.listener.AtSend? || s.listener.ListenerEnded? then 1 else 0)
    && s.stops == (if Finishing(s.main) && !s.main.AtStop? then 1 else 0)
    && s.closes == (if s.main.AtCloseSignals? then 1 else if s.main.AtReset? || s.main.MainEnded? then 2 else 0)
  }

  lemma StepKeepsInv(s: State, a: Action)
    requires Inv(s) && Enabled(s, a)
    ensures Next(s, a).panicked <==> a.Signal? && s.main.AtReset?
    ensures !Next(s, a).panicked ==> Inv(Next(s, a))
  {
  }

  /** The facts a caller of GracefulShutdown relies on: at most one Stop, and only after a signal was
      received; two closes at most, one per channel. */
  ghost predicate Safe(s: State) {
    && s.stops <= 1 && (s.stops > 0 ==> s.taken > 0 && s.delivered > 0)
    && (s.main.MainEnded? ==> s.stops == 1)
    && s.closes <= 2
    && s.taken <= s.delivered
  }

  lemma {:induction false} RunKeepsInv(s: State, actions: seq<Action>)
    requires Inv(s) && CanRun(s, actions)
    ensures var s' := RunFrom(s, actions);
            && Safe(s')
            && (s'.panicked <==> SignalInWindow(s, actions))
            && (!s'.panicked ==> Inv(s'))
    decreases |actions|
  {
    if actions != [] {
      StepKeepsInv(s, actions[0]);
      var s1 := Next(s, actions[0]);
      if !s1.panicked {
        RunKeepsInv(s1, actions[1..]);
      }
    }
  }

  /** MAIN THEOREM, safety. Over every interleaving: Stop is called at most once and only after a
      signal was received, each channel is closed at most once, and the process panics if and only
      if a signal is delivered between the close of the signals channel and signal.Reset. No send
      or close of either goroutine ever panics. */
  lemma ShutdownPanicsIffSignalInWindow(actions: seq<Action>)
    requires CanRun(START, actions)
    ensures var s := RunFrom(START, actions);
            Safe(s) && (s.panicked <==> SignalInWindow(START, actions))
  {
    RunKeepsInv(START, actions);
  }

  /** The window can be hit: one signal starts the shutdown, a second one lands in it. */
  lemma WindowIsReachable()
    ensures var actions := [Main, Main, Signal, Listener, Rendezvous, Main, Main, Main, Signal];
            CanRun(START, actions) && RunFrom(START, actions).panicked
  {
    var a := [Main, Main, Signal, Listener, Rendezvous, Main, Main, Main, Signal];
    var s1 := Next(START, Main);
    var s2 := Next(s1, Main);
    var s3 := Next(s2, Signal);
    var s4 := Next(s3, Listener);
    var s5 := Next(s4, Rendezvous);
    var s6 := Next(s5, Main);
    var s7 := Next(s6, Main);
    var s8 := Next(s7, Main);
    assert CanRun(s8, a[8..]) && RunFrom(s8, a[8..]).panicked by { assert a[8..][1..] == []; }
    assert a[7..][1..] == a[8..] && a[6..][1..] == a[7..] && a[5..][1..] == a[6..] && a[4..][1..] == a[5..];
    assert a[3..][1..] == a[4..] && a[2..][1..] == a[3..] && a[1..][1..] == a[2..];
    assert CanRun(s4, a[4..]) && RunFrom(s4, a[4..]).panicked by {
      assert CanRun(s6, a[6..]) && RunFrom(s6, a[6..]).panicked by {
        assert CanRun(s7, a[7..]) && RunFrom(s7, a[7..]).panicked;
      }
      assert CanRun(s5, a[5..]) && RunFrom(s5, a[5..]).panicked;
    }
    assert CanRun(s2, a[2..]) && RunFrom(s2, a[2..]).panicked by {
      assert CanRun(s3, a[3..]) && RunFrom(s3, a[3..]).panicked;
    }
    assert CanRun(s1, a[1..]) && RunFrom(s1, a[1..]).panicked;
  }

  // ----- progress -----

  predicate ProgramStep(a: Action) {
    !a.Signal?
  }

  /** How many steps of the program can still be taken. */
  function Rank(s: State): nat {
    (match s.main
     case AtNotify => 8 case AtSpawn => 7 case AtReceive => 5 case AtStop => 4
     case AtCloseDone => 3 case AtCloseSignals => 2 case AtReset => 1 case MainEnded => 0) +
    (match s.listener case NotSpawned => 1 case AtTake => 2 case AtSend => 1 case ListenerEnded => 0)
  }

  function ProgramSteps(actions: seq<Action>): nat {
    if actions == [] then 0 else (if ProgramStep(actions[0]) then 1 else 0) + ProgramSteps(actions[1..])
  }

  /** Each step of the program lowers the rank, and no signal raises it. */
  lemma StepLowersRank(s: State, a: Action)
    requires Inv(s) && Enabled(s, a) && !Next(s, a).panicked
    ensures if ProgramStep(a) then Rank(Next(s, a)) < Rank(s) else Rank(Next(s, a)) == Rank(s)
  {
  }

  /** The program is stuck in exactly two situations: finished, or still waiting for a first signal. */
  lemma StuckIff(s: State)
    requires Inv(s)
    ensures (forall a :: ProgramStep(a) ==> !Enabled(s, a)) <==>
            s.main.MainEnded? || (s.main.AtReceive? && s.listener.AtTake? && s.delivered == 0)
  {
    if !s.main.MainEnded? && !(s.main.AtReceive? && s.listener.AtTake? && s.delivered == 0) {
      if s.main.AtReceive? && s.listener.AtTake? {
        assert Enabled(s, Listener);
      } else if s.main.AtReceive? {
        assert Enabled(s, Rendezvous);
      } else {
        assert Enabled(s, Main);
      }
    }
  }

  lemma {:induction false} RunLowersRank(s: State, actions: seq<Action>)
    requires Inv(s) && CanRun(s, actions) && !RunFrom(s, actions).panicked
    ensures ProgramSteps(actions) + Rank(RunFrom(s, actions)) <= Rank(s)
    decreases |actions|
  {
    if actions != [] {
      StepKeepsInv(s, actions[0]);
      var s1 := Next(s, actions[0]);
      StepLowersRank(s, actions[0]);
      RunLowersRank(s1, actions[1..]);
    }
  }

  /** Signals can arrive exactly from Notify to Reset, and none is lost on the way: each counts as
      delivered unless it panics. */
  lemma {:induction false} SignalsAreDelivered(s: State, actions: seq<Action>)
    requires Inv(s) && CanRun(s, actions) && !RunFrom(s, actions).panicked
    ensures Enabled(s, Signal) <==> s.main != AtNotify && s.main != MainEnded
    ensures RunFrom(s, actions).delivered == s.delivered + (|actions| - ProgramSteps(actions))
    ensures |actions| > ProgramSteps(actions) <==> Signal in actions
    decreases |actions|
  {
    if actions != [] {
      StepKeepsInv(s, actions[0]);
      SignalsAreDelivered(Next(s, actions[0]), actions[1..]);
      StepsAtMost(actions[1..]);
      assert Signal in actions <==> actions[0] == Signal || Signal in actions[1..];
    }
  }

  lemma {:induction false} StepsAtMost(actions: seq<Action>)
    ensures ProgramSteps(actions) <= |actions|
  {
    if actions != [] {
      StepsAtMost(actions[1..]);
    }
  }

  /** MAIN THEOREM, progress. Every run has at most nine program steps, however many signals arrive;
      and a run that can go no further although a signal was sent has finished, with the network
      stopped exactly once and both channels closed. */
  lemma ShutdownCompletes(actions: seq<Action>)
    requires CanRun(START, actions) && !SignalInWindow(START, actions)
    ensures ProgramSteps(actions) <= 9
    ensures var s := RunFrom(START, actions);
            Signal in actions && (forall a :: ProgramStep(a) ==> !Enabled(s, a)) ==>
              && s.main.MainEnded? && s.listener.ListenerEnded?
              && s.stops == 1 && s.closes == 2 && s.signalsClosed && s.doneClosed
  {
    RunKeepsInv(START, actions);
    RunLowersRank(START, actions);
    StuckIff(RunFrom(START, actions));
    SignalsAreDelivered(START, actions);
  }
}

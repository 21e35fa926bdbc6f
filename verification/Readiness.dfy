/** Readiness while the API serves: one flag, written by the serving goroutine and by the dependency
    monitor, one step of either at a time. */
module ReadinessProtocol {

  /** The serving goroutine from its `select` on. `onError` says which case was taken. */
  datatype Main = Serving | Leaving(onError: bool) | Closing(onError: bool) | Draining | Returned(onError: bool)

  datatype Server = Running | Sent | Taken

  datatype Monitor = Selecting | Pinging | Checking(ok: bool) | Deciding(ok: bool) | Stopped

  /** `since` holds what the monitor stored after the serving goroutine's own last store; `late`
      counts the monitor's stores made under a cancelled context. */
  datatype World = World(ready: bool, main: Main, server: Server, monitor: Monitor,
                         cancelled: bool, stopped: bool, since: seq<bool>, late: nat)

  datatype Event =
    | Cancel | ServeReturns | TakeError | TakeCancel | StoreFalse | ShutdownEnds(clean: bool) | TakeLast
    | Tick | MonitorLeaves | PingEnds(ok: bool) | Test | Store

  /** Both goroutines started, ready. */
  function Initial(): World {
    World(true, Serving, Running, Selecting, false, false, [], 0)
  }

  /** The monitor's context ends with the caller's, or when the serving goroutine returns. */
  predicate Ended(w: World) {
    w.cancelled || w.stopped
  }

  /** A `select` with two ready cases may take either. */
  predicate Enabled(w: World, e: Event) {
    match e
    case Cancel => true
    case ServeReturns => w.server.Running?
    case TakeError => w.main.Serving? && w.server.Sent?
    case TakeCancel => w.main.Serving? && w.cancelled
    case StoreFalse => w.main.Leaving?
    case ShutdownEnds(_) => w.main.Closing?
    case TakeLast => w.main.Draining? && w.server.Sent?
    case Tick => w.monitor.Selecting?
    case MonitorLeaves => w.monitor.Selecting? && Ended(w)
    case PingEnds(_) => w.monitor.Pinging?
    case Test => w.monitor.Checking?
    case Store => w.monitor.Deciding?
  }

  function Step(w: World, e: Event): World
    requires Enabled(w, e)
  {
    match e
    case Cancel => w.(cancelled := true)
    case ServeReturns => w.(server := Sent)
    case TakeError => w.(main := Leaving(true), server := Taken)
    case TakeCancel => w.(main := Leaving(false))
    case StoreFalse => w.(main := Closing(w.main.onError), ready := false, since := [])
    case ShutdownEnds(clean) =>
      if clean && !w.main.onError then w.(main := Draining)
      else w.(main := Returned(w.main.onError), stopped := true)
    case TakeLast => w.(main := Returned(false), server := Taken, stopped := true)
    case Tick => w.(monitor := Pinging)
    case MonitorLeaves => w.(monitor := Stopped)
    case PingEnds(ok) => w.(monitor := Checking(ok))
    case Test => w.(monitor := if Ended(w) then Stopped else Deciding(w.monitor.ok))
    case Store =>
      w.(monitor := Selecting, ready := w.monitor.ok, since := w.since + [w.monitor.ok],
         late := if Ended(w) then w.late + 1 else w.late)
  }

  predicate Legal(w: World, events: seq<Event>)
    decreases |events|
  {
    events == [] || (Enabled(w, events[0]) && Legal(Step(w, events[0]), events[1..]))
  }

  function After(w: World, events: seq<Event>): World
    requires Legal(w, events)
    decreases |events|
  {
    if events == [] then w else After(Step(w, events[0]), events[1..])
  }

  function LastOr(outcomes: seq<bool>, first: bool): bool {
    if outcomes == [] then first else outcomes[|outcomes| - 1]
  }

  /** The serving goroutine has stored false. */
  predicate Left(m: Main) {
    m.Closing? || m.Draining? || m.Returned?
  }

  predicate OnCancelPath(m: Main) {
    m == Leaving(false) || m == Closing(false) || m == Draining || m == Returned(false)
  }

  ghost predicate Inv(w: World) {
    && w.ready == LastOr(w.since, !Left(w.main))
    && w.late <= 1
    && (w.late == 1 ==> Ended(w) && !w.monitor.Deciding?)
    && (OnCancelPath(w.main) ==> w.cancelled)
    && (OnCancelPath(w.main) && Left(w.main) ==> |w.since| <= w.late)
  }

  predicate OfMonitor(e: Event) {
    e.Tick? || e.MonitorLeaves? || e.PingEnds? || e.Test? || e.Store?
  }

  lemma MonitorKeeps(w: World, e: Event)
    requires Inv(w) && Enabled(w, e) && OfMonitor(e)
    ensures Inv(Step(w, e))
  {
  }

  lemma ServingKeeps(w: World, e: Event)
    requires Inv(w) && Enabled(w, e) && !OfMonitor(e)
    ensures Inv(Step(w, e))
  {
  }

  lemma StepKeeps(w: World, e: Event)
    requires Inv(w) && Enabled(w, e)
    ensures Inv(Step(w, e))
  {
    hide Inv, Enabled, Step;
    if OfMonitor(e) { MonitorKeeps(w, e); } else { ServingKeeps(w, e); }
  }

  lemma {:induction false} RunKeeps(w: World, events: seq<Event>)
    requires Inv(w) && Legal(w, events)
    ensures Inv(After(w, events))
    decreases |events|
  {
    if events != [] {
      StepKeeps(w, events[0]);
      RunKeeps(Step(w, events[0]), events[1..]);
    }
  }

  /** In every interleaving: until the serving goroutine stores false, the flag is the outcome of the
      last Ping the monitor recorded, and true before the first; after that it is false until the
      monitor records another. */
  lemma LastPingDecides(events: seq<Event>)
    requires Legal(Initial(), events)
    ensures var w := After(Initial(), events);
            w.ready == LastOr(w.since, !Left(w.main))
  {
    RunKeeps(Initial(), events);
  }

  /** The monitor stores at most once under an ended context; so when the serving goroutine takes the
      cancellation, at most one store follows the final false. FinalFalseIff says for both cases
      exactly when. */
  lemma OneLateStore(events: seq<Event>)
    requires Legal(Initial(), events)
    ensures var w := After(Initial(), events);
            && w.late <= 1
            && (OnCancelPath(w.main) && Left(w.main) ==> |w.since| <= 1)
  {
    RunKeeps(Initial(), events);
  }

  // ---- when the server itself fails ----

  /** One trip of the monitor that records an outcome. */
  function Round(ok: bool): seq<Event> {
    [Tick, PingEnds(ok), Test, Store]
  }

  function Rounds(n: nat): seq<Event> {
    if n == 0 then [] else Round(true) + Rounds(n - 1)
  }

  const SERVER_FAILS := [ServeReturns, TakeError, StoreFalse]

  lemma Chain(w: World, a: seq<Event>, b: seq<Event>)
    requires Legal(w, a) && Legal(After(w, a), b)
    ensures Legal(w, a + b) && After(w, a + b) == After(After(w, a), b)
    decreases |a|
  {
    if a == [] {
      assert a + b == b;
    } else {
      assert (a + b)[1..] == a[1..] + b;
      Chain(Step(w, a[0]), a[1..], b);
    }
  }

  lemma OneRound(w: World, ok: bool)
    requires w.monitor.Selecting? && !Ended(w)
    ensures Legal(w, Round(ok)) && After(w, Round(ok)) == w.(ready := ok, since := w.since + [ok])
  {
    var w1 := Step(w, Tick);
    var w2 := Step(w1, PingEnds(ok));
    var w3 := Step(w2, Test);
    var w4 := Step(w3, Store);
    assert Round(ok)[1..] == [PingEnds(ok), Test, Store];
    assert [PingEnds(ok), Test, Store][1..] == [Test, Store];
    assert [Test, Store][1..] == [Store];
    assert Legal(w3, [Store]) && After(w3, [Store]) == w4;
    assert Legal(w2, [Test, Store]) && After(w2, [Test, Store]) == w4;
  }

  lemma {:induction false} ManyRounds(w: World, n: nat)
    requires w.monitor.Selecting? && !Ended(w)
    ensures Legal(w, Rounds(n))
    ensures var w' := After(w, Rounds(n));
            w' == w.(ready := if n > 0 then true else w.ready, since := w'.since) && |w'.since| == |w.since| + n
    decreases n
  {
    if n > 0 {
      OneRound(w, true);
      var w1 := After(w, Round(true));
      ManyRounds(w1, n - 1);
      Chain(w, Round(true), Rounds(n - 1));
    }
  }

  /** When the server fails and nobody cancels, the monitor's context lives on until the serving
      goroutine returns, and during the shutdown the monitor can store true any number of times after
      the final false. */
  lemma ErrorPathIsUnbounded(n: nat)
    ensures Legal(Initial(), SERVER_FAILS + Rounds(n))
    ensures var w := After(Initial(), SERVER_FAILS + Rounds(n));
            w.main == Closing(true) && |w.since| == n && w.ready == (n > 0)
  {
    var w1 := Step(Initial(), ServeReturns);
    var w2 := Step(w1, TakeError);
    var w3 := Step(w2, StoreFalse);
    assert SERVER_FAILS[1..] == [TakeError, StoreFalse];
    assert [TakeError, StoreFalse][1..] == [StoreFalse];
    assert Legal(w2, [StoreFalse]) && After(w2, [StoreFalse]) == w3;
    assert Legal(Initial(), SERVER_FAILS) && After(Initial(), SERVER_FAILS) == w3;
    ManyRounds(w3, n);
    Chain(Initial(), SERVER_FAILS, Rounds(n));
  }

  // ---- exactly when at most one store follows the final false ----

  /** The context was cancelled before the final false. */
  ghost predicate Quieted(w: World) {
    Inv(w) && w.cancelled && Left(w.main) && |w.since| <= w.late
  }

  lemma QuietedStep(w: World, e: Event)
    requires Quieted(w) && Enabled(w, e)
    ensures Quieted(Step(w, e))
  {
    StepKeeps(w, e);
  }

  lemma {:induction false} QuietedRun(w: World, events: seq<Event>)
    requires Quieted(w) && Legal(w, events)
    ensures Quieted(After(w, events))
    decreases |events|
  {
    if events != [] {
      QuietedStep(w, events[0]);
      QuietedRun(Step(w, events[0]), events[1..]);
    }
  }

  /** The monitor stops only under an ended context, which ends without a cancellation only when the
      serving goroutine returns. */
  predicate MonitorLives(w: World) {
    (w.monitor.Stopped? ==> Ended(w)) && (w.stopped ==> w.main.Returned?)
  }

  lemma {:induction false} MonitorLivesOn(w: World, events: seq<Event>)
    requires MonitorLives(w) && Legal(w, events)
    ensures MonitorLives(After(w, events))
    decreases |events|
  {
    if events != [] { MonitorLivesOn(Step(w, events[0]), events[1..]); }
  }

  /** What is left of the monitor's present trip. */
  function RestOfTrip(m: Monitor): seq<Event> {
    match m
    case Pinging => [PingEnds(true), Test, Store]
    case Checking(_) => [Test, Store]
    case Deciding(_) => [Store]
    case _ => []
  }

  lemma TripEnds(w: World)
    requires !Ended(w) && !w.monitor.Stopped?
    ensures Legal(w, RestOfTrip(w.monitor))
    ensures var w' := After(w, RestOfTrip(w.monitor));
            w'.monitor.Selecting? && !Ended(w') && |w'.since| >= |w.since|
  {
    if w.monitor.Deciding? {
      LastStep(w);
    } else if w.monitor.Checking? {
      LastStep(Step(w, Test));
      Follow(w, Test, [Store]);
    } else if w.monitor.Pinging? {
      var w1 := Step(w, PingEnds(true));
      LastStep(Step(w1, Test));
      Follow(w1, Test, [Store]);
      Follow(w, PingEnds(true), [Test, Store]);
      assert [PingEnds(true)] + [Test, Store] == [PingEnds(true), Test, Store];
    }
  }

  lemma LastStep(w: World)
    requires w.monitor.Deciding?
    ensures Legal(w, [Store]) && After(w, [Store]) == Step(w, Store)
  {
  }

  lemma Follow(w: World, e: Event, rest: seq<Event>)
    requires Enabled(w, e) && Legal(Step(w, e), rest)
    ensures Legal(w, [e] + rest) && After(w, [e] + rest) == After(Step(w, e), rest)
  {
    assert ([e] + rest)[1..] == rest;
  }

  ghost predicate AtMostOneMore(w: World) {
    forall rest :: Legal(w, rest) ==> |After(w, rest).since| <= 1
  }

  /** Without a cancellation the monitor can end its trip and make two more. */
  lemma TwoMore(w: World) returns (rest: seq<Event>)
    requires !Ended(w) && !w.monitor.Stopped?
    ensures Legal(w, rest) && |After(w, rest).since| >= 2
  {
    var trip := RestOfTrip(w.monitor);
    TripEnds(w);
    ManyRounds(After(w, trip), 2);
    Chain(w, trip, Rounds(2));
    rest := trip + Rounds(2);
  }

  /** However the serving ends, once the goroutine is about to store the final false: at most one store
      follows it, in every continuation, exactly when the context has been cancelled by then. */
  lemma FinalFalseIff(events: seq<Event>)
    requires Legal(Initial(), events) && After(Initial(), events).main.Leaving?
    ensures var w := After(Initial(), events);
            AtMostOneMore(Step(w, StoreFalse)) <==> w.cancelled
  {
    RunKeeps(Initial(), events);
    MonitorLivesOn(Initial(), events);
    var w := After(Initial(), events);
    var next := Step(w, StoreFalse);
    if w.cancelled {
      StepKeeps(w, StoreFalse);
      forall rest | Legal(next, rest) ensures |After(next, rest).since| <= 1 { QuietedRun(next, rest); }
    } else {
      var rest := TwoMore(next);
      assert !AtMostOneMore(next);
    }
  }
}

/** The monitor as the loop it is, over what its `select`, its Pings and its context tests meet. */
module ReadinessMonitor {
  import opened ReadinessProtocol

  class Readiness {
    var ready: bool

    constructor ()
      ensures !ready
    {
      ready := false;
    }

    method Set(value: bool)
      modifies this
      ensures ready == value
    {
      ready := value;
    }
  }

  /** One trip: the context may have ended when the `select` chooses, or by the end of the Ping. */
  datatype Trip = Trip(leaves: bool, ok: bool, ended: bool)

  function Recorded(trips: seq<Trip>): seq<bool> {
    if trips == [] || trips[0].leaves || trips[0].ended then []
    else [trips[0].ok] + Recorded(trips[1..])
  }

  method MonitorDependencies(flag: Readiness, trips: seq<Trip>) returns (left: bool)
    modifies flag
    ensures flag.ready == LastOr(Recorded(trips), old(flag.ready))
    ensures left <==> |Recorded(trips)| < |trips|
  {
    var i := 0;
    while i < |trips|
      invariant 0 <= i <= |trips|
      invariant LastOr(Recorded(trips), old(flag.ready)) == LastOr(Recorded(trips[i..]), flag.ready)
      invariant |Recorded(trips)| == i + |Recorded(trips[i..])|
    {
      assert trips[i..][1..] == trips[i + 1..];
      if trips[i].leaves { return true; }
      if trips[i].ended { return true; }
      flag.Set(trips[i].ok);
      i := i + 1;
    }
    return false;
  }

  function EventsOf(trips: seq<Trip>): seq<Event> {
    if trips == [] then []
    else if trips[0].leaves then [Cancel, MonitorLeaves]
    else if trips[0].ended then [Tick, PingEnds(trips[0].ok), Cancel, Test]
    else Round(trips[0].ok) + EventsOf(trips[1..])
  }

  lemma LastTrip(w: World, trip: Trip)
    requires w.monitor.Selecting? && (trip.leaves || trip.ended)
    ensures Legal(w, EventsOf([trip]))
    ensures After(w, EventsOf([trip])) == w.(monitor := Stopped, cancelled := true)
  {
    if trip.leaves {
      var w1 := Step(w, Cancel);
      assert [Cancel, MonitorLeaves][1..] == [MonitorLeaves];
      assert Legal(w1, [MonitorLeaves]) && After(w1, [MonitorLeaves]) == Step(w1, MonitorLeaves);
    } else {
      var w1 := Step(w, Tick);
      var w2 := Step(w1, PingEnds(trip.ok));
      var w3 := Step(w2, Cancel);
      assert EventsOf([trip])[1..] == [PingEnds(trip.ok), Cancel, Test];
      assert [PingEnds(trip.ok), Cancel, Test][1..] == [Cancel, Test];
      assert [Cancel, Test][1..] == [Test];
      assert Legal(w3, [Test]) && After(w3, [Test]) == Step(w3, Test);
      assert Legal(w2, [Cancel, Test]) && After(w2, [Cancel, Test]) == Step(w3, Test);
    }
  }

  lemma {:induction false} FirstTrip(trips: seq<Trip>, ready: bool)
    requires trips != [] && !trips[0].leaves && !trips[0].ended
    ensures EventsOf(trips) == Round(trips[0].ok) + EventsOf(trips[1..])
    ensures Recorded(trips) == [trips[0].ok] + Recorded(trips[1..])
    ensures LastOr(Recorded(trips), ready) == LastOr(Recorded(trips[1..]), trips[0].ok)
  {
  }

  /** The loop is the monitor's part of the protocol: its trips are legal events that store the
      recorded outcomes, one after the other. */
  lemma {:induction false} LoopIsARun(w: World, trips: seq<Trip>)
    requires w.monitor.Selecting? && !Ended(w)
    ensures Legal(w, EventsOf(trips))
    ensures var w' := After(w, EventsOf(trips));
            w'.ready == LastOr(Recorded(trips), w.ready) && w'.since == w.since + Recorded(trips) && w'.late == w.late
    decreases |trips|
  {
    if trips != [] && (trips[0].leaves || trips[0].ended) {
      LastTrip(w, trips[0]);
      assert EventsOf([trips[0]]) == EventsOf(trips);
    } else if trips != [] {
      FirstTrip(trips, w.ready);
      hide Legal, After, Round, EventsOf, Recorded, LastOr;
      OneRound(w, trips[0].ok);
      var w1 := After(w, Round(trips[0].ok));
      LoopIsARun(w1, trips[1..]);
      Chain(w, Round(trips[0].ok), EventsOf(trips[1..]));
      assert w.since + ([trips[0].ok] + Recorded(trips[1..])) == w.since + [trips[0].ok] + Recorded(trips[1..]);
    }
  }
}

/** The listener that bounds open connections: every Accept and every Close, one channel or `sync.Once`
    operation at a time, in any interleaving. */
module ConnectionLimit {

  /** An Accept call waits for room, then holds a token inside the inner Accept, and gives the token
      back if that fails. */
  datatype AcceptPhase = Waiting | Accepting | Failing

  /** `sync.Once`: the first caller runs the function, the others wait until it has returned. */
  datatype Once = Unfired | Firing(caller: nat) | Fired

  /** `released` counts the tokens the connection gave back; `closed` says a Close has returned. */
  datatype Conn = Conn(open: bool, once: Once, released: nat, closed: bool)

  datatype ClosePhase = Closing | AtOnce | Releasing | Leaving

  datatype Closer = Closer(conn: nat, phase: ClosePhase)

  datatype World = World(capacity: nat, tokens: nat, acceptors: map<nat, AcceptPhase>,
                         conns: map<nat, Conn>, closers: map<nat, Closer>)

  datatype Event =
    | StartAccept(a: nat) | Acquire(a: nat) | Accepted(a: nat, c: nat) | AcceptFailed(a: nat) | GiveBack(a: nat)
    | StartClose(k: nat, c: nat) | CloseInner(k: nat) | EnterOnce(k: nat) | Release(k: nat)
    | LeaveOnce(k: nat) | SkipOnce(k: nat)

  function Initial(capacity: nat): World {
    World(capacity, 0, map[], map[], map[])
  }

  predicate AcceptAt(w: World, a: nat, phase: AcceptPhase) {
    a in w.acceptors && w.acceptors[a] == phase
  }

  predicate CloseAt(w: World, k: nat, phase: ClosePhase) {
    k in w.closers && w.closers[k].phase == phase && w.closers[k].conn in w.conns
  }

  function OnceOf(w: World, k: nat): Once
    requires k in w.closers && w.closers[k].conn in w.conns
  {
    w.conns[w.closers[k].conn].once
  }

  /** A send waits while the channel is full, a receive while it is empty, and entering a `sync.Once`
      while another call is inside. */
  predicate Enabled(w: World, e: Event) {
    match e
    case StartAccept(a) => a !in w.acceptors
    case Acquire(a) => AcceptAt(w, a, Waiting) && w.tokens < w.capacity
    case Accepted(a, c) => AcceptAt(w, a, Accepting) && c !in w.conns
    case AcceptFailed(a) => AcceptAt(w, a, Accepting)
    case GiveBack(a) => AcceptAt(w, a, Failing) && w.tokens > 0
    case StartClose(k, c) => k !in w.closers && c in w.conns
    case CloseInner(k) => CloseAt(w, k, Closing)
    case EnterOnce(k) => CloseAt(w, k, AtOnce) && OnceOf(w, k).Unfired?
    case Release(k) => CloseAt(w, k, Releasing) && w.tokens > 0
    case LeaveOnce(k) => CloseAt(w, k, Leaving)
    case SkipOnce(k) => CloseAt(w, k, AtOnce) && OnceOf(w, k).Fired?
  }

  function SetAccept(w: World, a: nat, phase: AcceptPhase): World {
    w.(acceptors := w.acceptors[a := phase])
  }

  function EndAccept(w: World, a: nat): World {
    w.(acceptors := w.acceptors - {a})
  }

  /** A Close call goes on to `phase` and leaves its connection as `conn`. */
  function SetClose(w: World, k: nat, phase: ClosePhase, conn: Conn): World
    requires k in w.closers
  {
    w.(closers := w.closers[k := w.closers[k].(phase := phase)], conns := w.conns[w.closers[k].conn := conn])
  }

  function EndClose(w: World, k: nat, conn: Conn): World
    requires k in w.closers
  {
    w.(closers := w.closers - {k}, conns := w.conns[w.closers[k].conn := conn])
  }

  function Step(w: World, e: Event): World
    requires Enabled(w, e)
  {
    match e
    case StartAccept(a) => SetAccept(w, a, Waiting)
    case Acquire(a) => SetAccept(w, a, Accepting).(tokens := w.tokens + 1)
    case Accepted(a, c) => EndAccept(w, a).(conns := w.conns[c := Conn(true, Unfired, 0, false)])
    case AcceptFailed(a) => SetAccept(w, a, Failing)
    case GiveBack(a) => EndAccept(w, a).(tokens := w.tokens - 1)
    case StartClose(k, c) => w.(closers := w.closers[k := Closer(c, Closing)])
    case _ => CloseStep(w, e, w.conns[w.closers[e.k].conn])
  }

  function CloseStep(w: World, e: Event, conn: Conn): World
    requires Enabled(w, e) && (e.CloseInner? || e.EnterOnce? || e.Release? || e.LeaveOnce? || e.SkipOnce?)
  {
    match e
    case CloseInner(k) => SetClose(w, k, AtOnce, conn.(open := false))
    case EnterOnce(k) => SetClose(w, k, Releasing, conn.(once := Firing(k)))
    case Release(k) => SetClose(w, k, Leaving, conn.(released := conn.released + 1)).(tokens := w.tokens - 1)
    case LeaveOnce(k) => EndClose(w, k, conn.(once := Fired, closed := true))
    case SkipOnce(k) => EndClose(w, k, conn.(closed := true))
  }

  predicate Legal(w: World, events: seq<Event>)
    decreases |events|
  {
    events == [] || (Enabled(w, events[0]) && Legal(Step(w, events[0]), events[1..]))
  }

  function After(w: World, events: seq<Event>): World
    requires Legal(w, events)
    decreases |events|
  {
    if events == [] then w else After(Step(w, events[0]), events[1..])
  }

  // ---- the invariant ----

  /** Accept calls that hold a token. */
  function Busy(acceptors: map<nat, AcceptPhase>): set<nat> {
    set a | a in acceptors && !acceptors[a].Waiting?
  }

  /** Accepted connections that have not given their token back. */
  function Unreleased(conns: map<nat, Conn>): set<nat> {
    set c | c in conns && conns[c].released == 0
  }

  function Open(conns: map<nat, Conn>): set<nat> {
    set c | c in conns && conns[c].open
  }

  /** One connection against the Close calls on it. */
  ghost predicate ConnOk(c: nat, conn: Conn, closers: map<nat, Closer>) {
    match conn.once
    case Unfired => conn.released == 0 && !conn.closed
    case Firing(k) =>
      && k in closers && closers[k].conn == c && !conn.open && !conn.closed
      && ((closers[k].phase.Releasing? && conn.released == 0) || (closers[k].phase.Leaving? && conn.released == 1))
    case Fired => conn.released == 1 && !conn.open
  }

  ghost predicate CloserOk(k: nat, closer: Closer, conns: map<nat, Conn>) {
    && closer.conn in conns
    && (!closer.phase.Closing? ==> !conns[closer.conn].open)
    && (closer.phase.Releasing? || closer.phase.Leaving? ==> conns[closer.conn].once == Firing(k))
  }

  ghost predicate Linked(conns: map<nat, Conn>, closers: map<nat, Closer>) {
    && (forall c :: c in conns ==> ConnOk(c, conns[c], closers))
    && (forall k :: k in closers ==> CloserOk(k, closers[k], conns))
  }

  /** A token for every Accept in progress and every unreleased connection, and for nothing else. */
  ghost predicate Inv(w: World) {
    && w.tokens == |Busy(w.acceptors)| + |Unreleased(w.conns)|
    && w.tokens <= w.capacity
    && Linked(w.conns, w.closers)
  }

  lemma BusyAfter(w: World, a: nat)
    ensures Busy(EndAccept(w, a).acceptors) == Busy(w.acceptors) - {a}
    ensures Busy(SetAccept(w, a, Waiting).acceptors) == Busy(w.acceptors) - {a}
    ensures Busy(SetAccept(w, a, Accepting).acceptors) == Busy(w.acceptors) + {a}
    ensures Busy(SetAccept(w, a, Failing).acceptors) == Busy(w.acceptors) + {a}
  {
  }

  lemma AcceptKeeps(w: World, e: Event)
    requires Inv(w) && Enabled(w, e)
    requires e.StartAccept? || e.Acquire? || e.AcceptFailed? || e.GiveBack?
    ensures Inv(Step(w, e))
  {
    hide Linked;
    BusyAfter(w, e.a);
    if e.StartAccept? { assert Busy(w.acceptors) - {e.a} == Busy(w.acceptors); }
    if e.AcceptFailed? { assert Busy(w.acceptors) + {e.a} == Busy(w.acceptors); }
  }

  lemma AcceptedKeeps(w: World, a: nat, c: nat)
    requires Inv(w) && Enabled(w, Accepted(a, c))
    ensures Inv(Step(w, Accepted(a, c)))
  {
    BusyAfter(w, a);
    assert Unreleased(w.conns[c := Conn(true, Unfired, 0, false)]) == Unreleased(w.conns) + {c};
  }

  lemma StartCloseKeeps(w: World, k: nat, c: nat)
    requires Inv(w) && Enabled(w, StartClose(k, c))
    ensures Inv(Step(w, StartClose(k, c)))
  {
  }

  /** Another Close call cannot be inside the `sync.Once` of this connection. */
  lemma CloseLinks(w: World, e: Event)
    requires Inv(w) && Enabled(w, e)
    requires e.CloseInner? || e.EnterOnce? || e.Release? || e.LeaveOnce? || e.SkipOnce?
    ensures Linked(Step(w, e).conns, Step(w, e).closers)
  {
    var w' := Step(w, e);
    var mine := w.closers[e.k].conn;
    forall c | c in w'.conns ensures ConnOk(c, w'.conns[c], w'.closers) {
      assert ConnOk(c, w.conns[c], w.closers);
      assert c != mine && w.conns[c].once.Firing? ==> w.conns[c].once.caller != e.k;
    }
    forall k | k in w'.closers ensures CloserOk(k, w'.closers[k], w'.conns) {
      assert CloserOk(k, w.closers[k], w.conns);
    }
  }

  lemma CloseCounts(w: World, e: Event)
    requires Inv(w) && Enabled(w, e)
    requires e.CloseInner? || e.EnterOnce? || e.Release? || e.LeaveOnce? || e.SkipOnce?
    ensures Unreleased(Step(w, e).conns)
         == if e.Release? then Unreleased(w.conns) - {w.closers[e.k].conn} else Unreleased(w.conns)
    ensures e.Release? ==> w.closers[e.k].conn in Unreleased(w.conns)
  {
    var c := w.closers[e.k].conn;
    assert ConnOk(c, w.conns[c], w.closers) && CloserOk(e.k, w.closers[e.k], w.conns);
  }

  lemma StepKeeps(w: World, e: Event)
    requires Inv(w) && Enabled(w, e)
    ensures Inv(Step(w, e)) && Step(w, e).capacity == w.capacity
  {
    match e
    case Accepted(a, c) => AcceptedKeeps(w, a, c);
    case StartClose(k, c) => StartCloseKeeps(w, k, c);
    case CloseInner(_) => CloseLinks(w, e); CloseCounts(w, e);
    case EnterOnce(_) => CloseLinks(w, e); CloseCounts(w, e);
    case Release(_) => CloseLinks(w, e); CloseCounts(w, e);
    case LeaveOnce(_) => CloseLinks(w, e); CloseCounts(w, e);
    case SkipOnce(_) => CloseLinks(w, e); CloseCounts(w, e);
    case _ => AcceptKeeps(w, e);
  }

  lemma {:induction false} RunKeeps(w: World, events: seq<Event>)
    requires Inv(w) && Legal(w, events)
    ensures Inv(After(w, events)) && After(w, events).capacity == w.capacity
    decreases |events|
  {
    if events != [] {
      StepKeeps(w, events[0]);
      RunKeeps(Step(w, events[0]), events[1..]);
    }
  }

  // ---- what it gives ----

  /** In every interleaving the tokens taken are those of the Accepts in progress and of the
      connections not yet released, and no more connections are open than the limit. */
  lemma OpenWithinLimit(capacity: nat, events: seq<Event>)
    requires Legal(Initial(capacity), events)
    ensures var w := After(Initial(capacity), events);
            && w.tokens == |Busy(w.acceptors)| + |Unreleased(w.conns)| <= capacity
            && |Open(w.conns)| <= capacity
  {
    InitialHolds(capacity);
    RunKeeps(Initial(capacity), events);
    var w := After(Initial(capacity), events);
    forall c | c in Open(w.conns) ensures c in Unreleased(w.conns) {
      assert ConnOk(c, w.conns[c], w.closers);
    }
    Fewer(Open(w.conns), Unreleased(w.conns));
  }

  lemma InitialHolds(capacity: nat)
    ensures Inv(Initial(capacity))
  {
    assert Busy(map[]) == {} && Unreleased(map[]) == {};
  }

  lemma Fewer(a: set<nat>, b: set<nat>)
    requires a <= b
    ensures |a| <= |b|
  {
    assert b == a + (b - a);
  }

  /** A connection gives its token back at most once, exactly once when a Close of it has returned,
      and not before it is closed. */
  lemma ReleasedOnce(capacity: nat, events: seq<Event>, c: nat)
    requires Legal(Initial(capacity), events) && c in After(Initial(capacity), events).conns
    ensures var conn := After(Initial(capacity), events).conns[c];
            && conn.released <= 1
            && (conn.closed ==> conn.released == 1)
            && (conn.released == 1 ==> !conn.open)
  {
    InitialHolds(capacity);
    RunKeeps(Initial(capacity), events);
    var w := After(Initial(capacity), events);
    assert ConnOk(c, w.conns[c], w.closers);
  }

  /** Giving a token back never waits. */
  lemma ReleaseNeverWaits(capacity: nat, events: seq<Event>, p: nat)
    requires Legal(Initial(capacity), events)
    ensures var w := After(Initial(capacity), events);
            && (AcceptAt(w, p, Failing) ==> Enabled(w, GiveBack(p)))
            && (CloseAt(w, p, Releasing) ==> Enabled(w, Release(p)))
  {
    InitialHolds(capacity);
    RunKeeps(Initial(capacity), events);
    var w := After(Initial(capacity), events);
    if AcceptAt(w, p, Failing) { assert p in Busy(w.acceptors); }
    if CloseAt(w, p, Releasing) {
      var c := w.closers[p].conn;
      assert ConnOk(c, w.conns[c], w.closers) && CloserOk(p, w.closers[p], w.conns);
      assert c in Unreleased(w.conns);
    }
  }

  /** The next step of a Close call that does not have to wait. */
  function NextOf(w: World, k: nat): Event
    requires k in w.closers && w.closers[k].conn in w.conns
  {
    match w.closers[k].phase
    case Closing => CloseInner(k)
    case AtOnce => if OnceOf(w, k).Unfired? then EnterOnce(k) else SkipOnce(k)
    case Releasing => Release(k)
    case Leaving => LeaveOnce(k)
  }

  predicate CanGoOn(w: World, k: nat) {
    k in w.closers && w.closers[k].conn in w.conns && Enabled(w, NextOf(w, k))
  }

  /** A Close call can always go on, or the call it waits for can: no Close is ever stuck. */
  lemma CloseGoesOn(capacity: nat, events: seq<Event>, k: nat)
    requires Legal(Initial(capacity), events) && k in After(Initial(capacity), events).closers
    ensures var w := After(Initial(capacity), events);
            CanGoOn(w, k) || (w.closers[k].conn in w.conns && OnceOf(w, k).Firing? && CanGoOn(w, OnceOf(w, k).caller))
  {
    InitialHolds(capacity);
    RunKeeps(Initial(capacity), events);
    var w := After(Initial(capacity), events);
    assert CloserOk(k, w.closers[k], w.conns);
    var c := w.closers[k].conn;
    assert ConnOk(c, w.conns[c], w.closers);
    ReleaseNeverWaits(capacity, events, k);
    if w.conns[c].once.Firing? {
      ReleaseNeverWaits(capacity, events, w.conns[c].once.caller);
    }
  }
}

/** The same listener and connections as objects, one call at a time. */
module LimitedListener {
  import opened Options
  import opened ConnectionLimit

  class LimitListener {
    const capacity: nat
    var sem: nat
    ghost var world: World

    ghost predicate Valid()
      reads this
    {
      world.capacity == capacity && world.tokens == sem && Inv(world)
    }

    constructor (maximum: nat)
      ensures Valid() && capacity == maximum && world == Initial(maximum)
    {
      capacity, sem, world := maximum, 0, Initial(maximum);
      new;
      InitialHolds(maximum);
    }

    /** The inner listener gives a connection or fails; with no room the call has to wait. */
    method Accept(inner: bool, ghost a: nat, ghost c: nat) returns (conn: Option<LimitedConn>)
      requires Valid() && sem < capacity && a !in world.acceptors && c !in world.conns
      modifies this
      ensures Valid() && Performed(old(world), AcceptCalls(inner, a, c), world)
      ensures conn.Some? <==> inner
      ensures conn.Some? ==> fresh(conn.value) && conn.value.id == c && conn.value.listener == this && conn.value.Tied()
    {
      AcceptDone(world, inner, a, c);
      world := After(world, AcceptCalls(inner, a, c));
      sem := sem + 1;
      if !inner {
        sem := sem - 1;
        return None;
      }
      var accepted := new LimitedConn(this, c);
      return Some(accepted);
    }
  }

  class LimitedConn {
    const listener: LimitListener
    ghost const id: nat
    var open: bool
    var fired: bool

    /** What the object holds is what the protocol knows about the connection. */
    ghost predicate Tied()
      reads this, listener
    {
      && id in listener.world.conns
      && open == listener.world.conns[id].open
      && !listener.world.conns[id].once.Firing?
      && (fired <==> listener.world.conns[id].once.Fired?)
    }

    constructor (l: LimitListener, ghost c: nat)
      ensures listener == l && id == c && open && !fired
    {
      listener, id, open, fired := l, c, true, false;
    }

    /** The token goes back on the first call only, and is always there to go back. */
    method Close(ghost k: nat)
      requires listener.Valid() && Tied() && k !in listener.world.closers
      modifies this, listener
      ensures listener.Valid() && Tied() && !open && fired
      ensures Performed(old(listener.world), CloseCalls(old(fired), k, id), listener.world)
      ensures listener.sem == old(listener.sem) - if old(fired) then 0 else 1
    {
      CloseDone(listener.world, fired, k, id);
      listener.world := After(listener.world, CloseCalls(fired, k, id));
      open := false;
      if !fired {
        fired := true;
        listener.sem := listener.sem - 1;
      }
    }
  }

  function AcceptCalls(inner: bool, a: nat, c: nat): seq<Event> {
    if inner then [StartAccept(a), Acquire(a), Accepted(a, c)]
    else [StartAccept(a), Acquire(a), AcceptFailed(a), GiveBack(a)]
  }

  function CloseCalls(fired: bool, k: nat, c: nat): seq<Event> {
    if fired then [StartClose(k, c), CloseInner(k), SkipOnce(k)]
    else [StartClose(k, c), CloseInner(k), EnterOnce(k), Release(k), LeaveOnce(k)]
  }

  /** A whole call is these events of the protocol, with nothing between them. */
  ghost predicate Performed(before: World, events: seq<Event>, after: World) {
    Legal(before, events) && after == After(before, events)
  }

  lemma Prepend(w: World, e: Event, rest: seq<Event>)
    requires Enabled(w, e) && Legal(Step(w, e), rest)
    ensures Legal(w, [e] + rest) && After(w, [e] + rest) == After(Step(w, e), rest)
  {
    assert ([e] + rest)[1..] == rest;
  }

  lemma AcceptDone(w: World, inner: bool, a: nat, c: nat)
    requires Inv(w) && w.tokens < w.capacity && a !in w.acceptors && c !in w.conns
    ensures Legal(w, AcceptCalls(inner, a, c))
    ensures var w' := After(w, AcceptCalls(inner, a, c));
            && Inv(w') && w'.capacity == w.capacity
            && w'.tokens == (if inner then w.tokens + 1 else w.tokens)
            && w'.conns == if inner then w.conns[c := Conn(true, Unfired, 0, false)] else w.conns
  {
    hide Inv;
    var w1 := Step(w, StartAccept(a));
    var w2 := Step(w1, Acquire(a));
    if inner {
      Prepend(w2, Accepted(a, c), []);
      Prepend(w1, Acquire(a), [Accepted(a, c)]);
      Prepend(w, StartAccept(a), [Acquire(a), Accepted(a, c)]);
    } else {
      var w3 := Step(w2, AcceptFailed(a));
      Prepend(w3, GiveBack(a), []);
      Prepend(w2, AcceptFailed(a), [GiveBack(a)]);
      Prepend(w1, Acquire(a), [AcceptFailed(a), GiveBack(a)]);
      Prepend(w, StartAccept(a), [Acquire(a), AcceptFailed(a), GiveBack(a)]);
    }
    assert AcceptCalls(inner, a, c) == [StartAccept(a)] + AcceptCalls(inner, a, c)[1..];
    RunKeeps(w, AcceptCalls(inner, a, c));
  }

  /** The token is there to be taken back. */
  lemma TokenIsThere(w: World, c: nat)
    requires Inv(w) && c in w.conns && w.conns[c].once.Unfired?
    ensures w.tokens > 0
  {
    assert ConnOk(c, w.conns[c], w.closers);
    assert c in Unreleased(w.conns);
  }

  /** The three steps of the first Close inside the `sync.Once`. */
  lemma OnceDone(w: World, k: nat)
    requires CloseAt(w, k, AtOnce) && OnceOf(w, k).Unfired? && w.tokens > 0
    ensures var calls := [EnterOnce(k), Release(k), LeaveOnce(k)];
            && Legal(w, calls)
            && var w' := After(w, calls);
               && w'.capacity == w.capacity && w'.tokens == w.tokens - 1
               && var c := w.closers[k].conn;
                  c in w'.conns && w'.conns[c].open == w.conns[c].open && w'.conns[c].once.Fired?
  {
    var w1 := Step(w, EnterOnce(k));
    var w2 := Step(w1, Release(k));
    Prepend(w2, LeaveOnce(k), []);
    Prepend(w1, Release(k), [LeaveOnce(k)]);
    Prepend(w, EnterOnce(k), [Release(k), LeaveOnce(k)]);
    assert [EnterOnce(k)] + [Release(k), LeaveOnce(k)] == [EnterOnce(k), Release(k), LeaveOnce(k)];
  }

  lemma CloseDone(w: World, fired: bool, k: nat, c: nat)
    requires Inv(w) && k !in w.closers && c in w.conns
    requires if fired then w.conns[c].once.Fired? else w.conns[c].once.Unfired?
    ensures Legal(w, CloseCalls(fired, k, c))
    ensures var w' := After(w, CloseCalls(fired, k, c));
            && Inv(w') && w'.capacity == w.capacity
            && w'.tokens == (if fired then w.tokens else w.tokens - 1)
            && c in w'.conns && !w'.conns[c].open && w'.conns[c].once.Fired?
  {
    if !fired { TokenIsThere(w, c); }
    hide Inv;
    var w1 := Step(w, StartClose(k, c));
    var w2 := Step(w1, CloseInner(k));
    var last := if fired then [SkipOnce(k)] else [EnterOnce(k), Release(k), LeaveOnce(k)];
    if fired {
      Prepend(w2, SkipOnce(k), []);
    } else {
      OnceDone(w2, k);
    }
    hide Legal, After;
    Prepend(w1, CloseInner(k), last);
    Prepend(w, StartClose(k, c), [CloseInner(k)] + last);
    assert CloseCalls(fired, k, c) == [StartClose(k, c)] + ([CloseInner(k)] + last);
    RunKeeps(w, CloseCalls(fired, k, c));
  }
}

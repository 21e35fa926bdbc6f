/** `setLocale`: requests numbered by a counter, catalogue loads that settle in any order, and only
    the latest request allowed to commit. */
module LocaleSwitch {
  import opened Options

  type Locale = string

  /** `loads` are the requests whose catalogue has not settled; `cookie` is what this page wrote. */
  datatype View = View(
    latest: nat, active: Locale, pending: Option<Locale>, failed: bool, cookie: Option<Locale>, loads: map<nat, Locale>)

  datatype Event = Choose(locale: Locale) | Loaded(request: nat) | LoadFailed(request: nat)

  function Initially(locale: Locale, failed: bool): View {
    View(0, locale, None, failed, None, map[])
  }

  predicate Enabled(v: View, e: Event) {
    match e
    case Choose(_) => true
    case Loaded(request) => request in v.loads
    case LoadFailed(request) => request in v.loads
  }

  function Step(v: View, e: Event): View {
    match e
    case Choose(locale) =>
      var request := v.latest + 1;
      if locale == v.active then
        v.(latest := request, pending := None, failed := false, cookie := Some(locale))
      else
        v.(latest := request, pending := Some(locale), failed := false, loads := v.loads[request := locale])
    case Loaded(request) =>
      if request !in v.loads then v
      else
        var locale, loads := v.loads[request], v.loads - {request};
        if request != v.latest then v.(loads := loads)
        else v.(active := locale, pending := None, cookie := Some(locale), loads := loads)
    case LoadFailed(request) =>
      var loads := v.loads - {request};
      if request != v.latest then v.(loads := loads)
      else v.(pending := None, failed := true, loads := loads)
  }

  class LocaleProvider {
    var latestRequest: nat
    var activeLocale: Locale
    var pendingLocale: Option<Locale>
    var loadError: bool
    var cookie: Option<Locale>
    var loads: map<nat, Locale>

    ghost function Now(): View
      reads this
    {
      View(latestRequest, activeLocale, pendingLocale, loadError, cookie, loads)
    }

    constructor (locale: Locale, failed: bool)
      ensures Now() == Initially(locale, failed)
    {
      latestRequest, activeLocale, pendingLocale, loadError, cookie, loads := 0, locale, None, failed, None, map[];
    }

    method SetLocale(nextLocale: Locale)
      modifies this
      ensures Now() == Step(old(Now()), Choose(nextLocale))
    {
      latestRequest := latestRequest + 1;
      if nextLocale == activeLocale {
        pendingLocale := None;
        loadError := false;
        cookie := Some(nextLocale);
        return;
      }
      pendingLocale := Some(nextLocale);
      loadError := false;
      loads := loads[latestRequest := nextLocale];
    }

    /** The `then` handler of one request. The state change and the layout effect that follows it are
        one step. */
    method OnLoaded(request: nat)
      requires request in loads
      modifies this
      ensures Now() == Step(old(Now()), Loaded(request))
    {
      var loaded := loads[request];
      loads := loads - {request};
      if latestRequest != request { return; }
      cookie := Some(loaded);
      activeLocale := loaded;
      pendingLocale := None;
    }

    method OnLoadFailed(request: nat)
      requires request in loads
      modifies this
      ensures Now() == Step(old(Now()), LoadFailed(request))
    {
      loads := loads - {request};
      if latestRequest != request { return; }
      pendingLocale := None;
      loadError := true;
    }
  }

  // ---- runs ----

  predicate Legal(v: View, events: seq<Event>)
    decreases |events|
  {
    events == [] || (Enabled(v, events[0]) && Legal(Step(v, events[0]), events[1..]))
  }

  function After(v: View, events: seq<Event>): View
    decreases |events|
  {
    if events == [] then v else After(Step(v, events[0]), events[1..])
  }

  /** Only requests made so far are loading; a pending locale is shown exactly while the latest
      request is among them, and it is that request's; a cookie, once written, is the active locale. */
  predicate Inv(v: View) {
    && (forall k :: k in v.loads ==> 1 <= k <= v.latest)
    && (v.pending.Some? <==> v.latest in v.loads)
    && (v.pending.Some? ==> v.loads[v.latest] == v.pending.value && v.pending.value != v.active)
    && (v.cookie.Some? ==> v.cookie.value == v.active)
  }

  lemma StepKeeps(v: View, e: Event)
    requires Inv(v) && Enabled(v, e)
    ensures Inv(Step(v, e))
  {
  }

  lemma {:induction false} RunKeeps(v: View, events: seq<Event>)
    requires Inv(v) && Legal(v, events)
    ensures Inv(After(v, events))
    decreases |events|
  {
    if events != [] {
      StepKeeps(v, events[0]);
      RunKeeps(Step(v, events[0]), events[1..]);
    }
  }

  lemma {:induction false} AfterConcat(v: View, first: seq<Event>, rest: seq<Event>)
    ensures After(v, first + rest) == After(After(v, first), rest)
    ensures Legal(v, first + rest) <==> Legal(v, first) && Legal(After(v, first), rest)
    decreases |first|
  {
    if first == [] {
      assert first + rest == rest;
    } else {
      assert (first + rest)[1..] == first[1..] + rest;
      AfterConcat(Step(v, first[0]), first[1..], rest);
    }
  }

  /** In every run: what is shown as pending, and what the cookie says. */
  lemma PendingAndCookie(locale: Locale, failed: bool, events: seq<Event>)
    requires Legal(Initially(locale, failed), events)
    ensures var v := After(Initially(locale, failed), events);
            && v.pending == (if v.latest in v.loads then Some(v.loads[v.latest]) else None)
            && (v.cookie.Some? ==> v.cookie.value == v.active)
  {
    RunKeeps(Initially(locale, failed), events);
  }

  predicate NothingLoaded(events: seq<Event>) {
    forall i :: 0 <= i < |events| ==> !events[i].Loaded?
  }

  /** Until a load takes effect the page shows the locale it began with, and has written a cookie exactly if
      that locale was chosen again; before any choice it shows whether that locale could be loaded. */
  lemma {:induction false} StaysAsItBegan(locale: Locale, failed: bool, events: seq<Event>)
    requires Legal(Initially(locale, failed), events) && NothingLoaded(events)
    ensures var v := After(Initially(locale, failed), events);
            && v.active == locale
            && v.cookie == (if Choose(locale) in events then Some(locale) else None)
            && (events == [] ==> v.failed == failed && v.pending == None && v.latest == 0)
  {
    StaysFrom(Initially(locale, failed), events);
  }

  lemma {:induction false} StaysFrom(v: View, events: seq<Event>)
    requires Legal(v, events) && NothingLoaded(events)
    ensures var w := After(v, events);
            w.active == v.active && w.cookie == if Choose(v.active) in events then Some(v.active) else v.cookie
    decreases |events|
  {
    if events != [] {
      assert events == [events[0]] + events[1..];
      StaysFrom(Step(v, events[0]), events[1..]);
    }
  }

  /** The requests whose load took effect, in the order it did. */
  function Commits(v: View, events: seq<Event>): seq<nat>
    decreases |events|
  {
    if events == [] then []
    else
      (if events[0].Loaded? && events[0].request == v.latest then [events[0].request] else [])
      + Commits(Step(v, events[0]), events[1..])
  }

  predicate Rising(c: seq<nat>, low: int, high: int) {
    && (forall i :: 0 <= i < |c| ==> low < c[i] <= high)
    && (forall i, j :: 0 <= i < j < |c| ==> c[i] < c[j])
  }

  lemma RisingCons(k: nat, c: seq<nat>, low: int, high: int)
    requires Rising(c, k, high) && low < k <= high
    ensures Rising([k] + c, low, high)
  {
    var all := [k] + c;
    assert forall i :: 1 <= i < |all| ==> all[i] == c[i - 1];
  }

  /** The last request number that can no longer commit. */
  function Settled(v: View): int {
    if v.latest in v.loads then v.latest - 1 else v.latest
  }

  lemma SettledGrows(v: View, e: Event)
    requires Inv(v) && Enabled(v, e)
    ensures Settled(v) <= Settled(Step(v, e))
    ensures e.Loaded? && e.request == v.latest ==> Settled(v) < v.latest == Settled(Step(v, e))
  {
  }

  /** Committed request numbers strictly increase; each belongs to the latest request, loading or yet
      to be made. */
  lemma {:induction false} CommitsIncrease(v: View, events: seq<Event>)
    requires Inv(v) && Legal(v, events)
    ensures Rising(Commits(v, events), Settled(v), After(v, events).latest)
    decreases |events|
  {
    if events != [] {
      var v' := Step(v, events[0]);
      StepKeeps(v, events[0]);
      SettledGrows(v, events[0]);
      CommitsIncrease(v', events[1..]);
      LatestGrows(v, events);
      hide Inv, Step, Enabled, Settled;
      if events[0].Loaded? && events[0].request == v.latest {
        RisingCons(v.latest, Commits(v', events[1..]), Settled(v), After(v, events).latest);
        assert Commits(v, events) == [v.latest] + Commits(v', events[1..]);
      } else {
        assert Commits(v, events) == Commits(v', events[1..]);
      }
    }
  }

  lemma {:induction false} LatestGrows(v: View, events: seq<Event>)
    ensures v.latest <= After(v, events).latest
    decreases |events|
  {
    if events != [] { LatestGrows(Step(v, events[0]), events[1..]); }
  }

  predicate NoChoice(events: seq<Event>) {
    forall i :: 0 <= i < |events| ==> !events[i].Choose?
  }

  /** After the last request, loads of older requests change nothing anyone sees; the request's own
      load decides. */
  lemma {:induction false} OnlyTheLatestDecides(v: View, events: seq<Event>)
    requires Inv(v) && Legal(v, events) && NoChoice(events)
    ensures var w := After(v, events);
            && w.latest == v.latest
            && (Loaded(v.latest) in events ==>
                  v.pending.Some? && w.active == v.pending.value && w.cookie == Some(w.active)
                  && w.pending == None && w.failed == v.failed)
            && (LoadFailed(v.latest) in events ==>
                  w.active == v.active && w.cookie == v.cookie && w.pending == None && w.failed)
            && (Loaded(v.latest) !in events && LoadFailed(v.latest) !in events ==>
                  w.active == v.active && w.cookie == v.cookie && w.pending == v.pending && w.failed == v.failed)
    decreases |events|
  {
    if events != [] {
      var v' := Step(v, events[0]);
      StepKeeps(v, events[0]);
      assert events == [events[0]] + events[1..];
      OnlyTheLatestDecides(v', events[1..]);
      if v.latest !in v'.loads {
        NeverAgain(v', events[1..], v.latest);
      }
    }
  }

  /** A request that is not loading does not settle. */
  lemma {:induction false} NeverAgain(v: View, events: seq<Event>, k: nat)
    requires Legal(v, events) && k !in v.loads && k <= v.latest
    ensures Loaded(k) !in events && LoadFailed(k) !in events
    decreases |events|
  {
    if events != [] {
      NeverAgain(Step(v, events[0]), events[1..], k);
      assert events == [events[0]] + events[1..];
    }
  }

  /** The whole run, seen from its last request: with that request settled, the active locale is its
      locale if it was already active or its load succeeded, and otherwise the locale that was active
      before it; nothing else in the run, and no order of the loads, matters. */
  lemma LastChoiceDecides(locale: Locale, failed: bool, before: seq<Event>, chosen: Locale, rest: seq<Event>)
    requires Legal(Initially(locale, failed), before + [Choose(chosen)] + rest) && NoChoice(rest)
    ensures var earlier := After(Initially(locale, failed), before);
            var now := After(Initially(locale, failed), before + [Choose(chosen)] + rest);
            var k := earlier.latest + 1;
            if chosen == earlier.active then
              now.active == chosen && now.pending == None && !now.failed && now.cookie == Some(chosen)
            else if Loaded(k) in rest then
              now.active == chosen && now.pending == None && !now.failed && now.cookie == Some(chosen)
            else if LoadFailed(k) in rest then
              now.active == earlier.active && now.pending == None && now.failed && now.cookie == earlier.cookie
            else
              now.active == earlier.active && now.pending == Some(chosen) && !now.failed && now.cookie == earlier.cookie
  {
    var start := Initially(locale, failed);
    AfterConcat(start, before + [Choose(chosen)], rest);
    AfterConcat(start, before, [Choose(chosen)]);
    var v := After(start, before);
    assert [Choose(chosen)][1..] == [];
    assert After(v, [Choose(chosen)]) == Step(v, Choose(chosen));
    RunKeeps(start, before);
    StepKeeps(v, Choose(chosen));
    OnlyTheLatestDecides(Step(v, Choose(chosen)), rest);
    if chosen == v.active {
      NeverAgain(Step(v, Choose(chosen)), rest, v.latest + 1);
    }
  }
}

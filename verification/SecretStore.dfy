/** `ResolveOrCreateBatch` as a protocol: any number of runs read and create in one store, one API
    call at a time. The store's Create refuses a reference that is already there. */
module SecretProtocol {
  import opened Options

  type Ref = string
  type Bytes = seq<bv8>

  const MAXIMUM_SECRET_BYTES := 65536

  predicate ValidSize(value: Bytes) {
    1 <= |value| <= MAXIMUM_SECRET_BYTES
  }

  /** The next API call of a run. `done` holds the batch so far, one entry for each reference passed. */
  datatype Stage = Login | Read | Create(value: Bytes) | Succeeded | Failed

  /** `admitted` are the references among `refs` that pass the test made before a read; the source
      tests with ParseRef. */
  datatype Run = Run(refs: seq<Ref>, admitted: set<Ref>, done: map<Ref, Bytes>, stage: Stage)

  /** What a call comes back with: its own answer, with the value `generate` gives should it be asked,
      or nothing, in which case a Create may still have happened. */
  datatype Answer = Answered(generated: Option<Bytes>) | Lost(effect: bool)

  datatype World = World(stored: map<Ref, Bytes>, runs: map<nat, Run>)

  datatype Event = Start(p: nat, refs: seq<Ref>, admitted: set<Ref>) | Call(p: nat, answer: Answer)

  /** The tests made on the next reference before it is read. */
  function Proceed(r: Run): Run {
    if |r.done| >= |r.refs| then r.(stage := Succeeded)
    else if r.refs[|r.done|] !in r.admitted || r.refs[|r.done|] in r.done then r.(stage := Failed)
    else r.(stage := Read)
  }

  function Keep(r: Run, value: Bytes): Run
    requires |r.done| < |r.refs|
  {
    Proceed(r.(done := r.done[r.refs[|r.done|] := value]))
  }

  predicate Active(r: Run) {
    r.stage.Login? || ((r.stage.Read? || r.stage.Create?) && |r.done| < |r.refs|)
  }

  function CreateIn(stored: map<Ref, Bytes>, ref: Ref, value: Bytes): map<Ref, Bytes> {
    if ref in stored then stored else stored[ref := value]
  }

  /** The next reference, while there is one. */
  function NextRef(r: Run): Ref
    requires |r.done| < |r.refs|
  {
    r.refs[|r.done|]
  }

  /** A read that is answered: the stored value, or what `generate` gives for a create. */
  function ReadStep(stored: map<Ref, Bytes>, r: Run, generated: Option<Bytes>): Run
    requires |r.done| < |r.refs|
  {
    if NextRef(r) in stored then
      if ValidSize(stored[NextRef(r)]) then Keep(r, stored[NextRef(r)]) else r.(stage := Failed)
    else if generated.Some? && ValidSize(generated.value) then r.(stage := Create(generated.value))
    else r.(stage := Failed)
  }

  /** A create that is answered: refused if the reference is there. */
  function CreateStep(stored: map<Ref, Bytes>, r: Run, value: Bytes): (map<Ref, Bytes>, Run)
    requires |r.done| < |r.refs|
  {
    if NextRef(r) in stored then (stored, r.(stage := Failed))
    else (stored[NextRef(r) := value], Keep(r, value))
  }

  /** One API call of one run. */
  function CallStep(stored: map<Ref, Bytes>, r: Run, answer: Answer): (map<Ref, Bytes>, Run)
    requires Active(r)
  {
    match answer
    case Lost(effect) =>
      (if r.stage.Create? && effect then CreateIn(stored, NextRef(r), r.stage.value) else stored, r.(stage := Failed))
    case Answered(generated) =>
      match r.stage
      case Login => (stored, Proceed(r))
      case Read => (stored, ReadStep(stored, r, generated))
      case Create(value) => CreateStep(stored, r, value)
      case _ => (stored, r)
  }

  predicate Enabled(w: World, e: Event) {
    match e
    case Start(p, _, _) => p !in w.runs
    case Call(p, _) => p in w.runs && Active(w.runs[p])
  }

  /** An empty batch is refused before any call. */
  function Step(w: World, e: Event): World {
    match e
    case Start(p, refs, admitted) =>
      w.(runs := w.runs[p := Run(refs, admitted, map[], if refs == [] then Failed else Login)])
    case Call(p, answer) =>
      if p !in w.runs || !Active(w.runs[p]) then w
      else
        var (stored, run) := CallStep(w.stored, w.runs[p], answer);
        World(stored, w.runs[p := run])
  }

  predicate Legal(w: World, events: seq<Event>)
    decreases |events|
  {
    events == [] || (Enabled(w, events[0]) && Legal(Step(w, events[0]), events[1..]))
  }

  function After(w: World, events: seq<Event>): World
    decreases |events|
  {
    if events == [] then w else After(Step(w, events[0]), events[1..])
  }

  function Passed(refs: seq<Ref>, n: nat): set<Ref>
    requires n <= |refs|
  {
    if n == 0 then {} else Passed(refs, n - 1) + {refs[n - 1]}
  }

  lemma {:induction false} PassedAll(refs: seq<Ref>, n: nat, ref: Ref)
    requires n <= |refs|
    ensures ref in Passed(refs, n) <==> ref in refs[..n]
  {
    if n > 0 {
      PassedAll(refs, n - 1, ref);
      assert refs[..n] == refs[..n - 1] + [refs[n - 1]];
    }
  }

  /** What a run holds is what the store holds, of a valid size, for the references it has passed. */
  ghost predicate Faithful(stored: map<Ref, Bytes>, r: Run) {
    && |r.done| <= |r.refs|
    && r.done.Keys == Passed(r.refs, |r.done|)
    && (forall ref :: ref in r.done ==>
          ref in r.admitted && ref in stored && r.done[ref] == stored[ref] && ValidSize(r.done[ref]))
    && (r.stage.Succeeded? ==> |r.done| == |r.refs| > 0)
    && (r.stage.Create? ==> ValidSize(r.stage.value))
    && (r.stage.Read? || r.stage.Create? ==>
          |r.done| < |r.refs| && r.refs[|r.done|] !in r.done && r.refs[|r.done|] in r.admitted)
    && (r.stage.Login? ==> r.refs != [])
  }

  ghost predicate Inv(w: World) {
    forall p :: p in w.runs ==> Faithful(w.stored, w.runs[p])
  }

  /** Nothing stored is lost or changed. */
  ghost predicate Extends(before: map<Ref, Bytes>, after: map<Ref, Bytes>) {
    forall ref :: ref in before ==> ref in after && after[ref] == before[ref]
  }

  /** And whatever is added has a valid size. */
  ghost predicate Grows(before: map<Ref, Bytes>, after: map<Ref, Bytes>) {
    Extends(before, after) && forall ref :: ref in after && ref !in before ==> ValidSize(after[ref])
  }

  /** The tests before a read never spoil what is already held. */
  lemma ProceedIsFaithful(stored: map<Ref, Bytes>, r: Run)
    requires Faithful(stored, r.(stage := Failed)) && r.refs != []
    ensures Faithful(stored, Proceed(r))
  {
  }

  lemma OneMoreHeld(stored: map<Ref, Bytes>, r: Run, value: Bytes)
    requires Faithful(stored, r) && |r.done| < |r.refs| && r.refs[|r.done|] !in r.done && r.refs[|r.done|] in r.admitted
    requires r.refs[|r.done|] in stored && stored[r.refs[|r.done|]] == value && ValidSize(value)
    ensures Faithful(stored, r.(done := r.done[r.refs[|r.done|] := value], stage := Failed))
  {
  }

  lemma KeepIsFaithful(stored: map<Ref, Bytes>, r: Run, value: Bytes)
    requires Faithful(stored, r) && |r.done| < |r.refs| && r.refs[|r.done|] !in r.done && r.refs[|r.done|] in r.admitted
    requires r.refs[|r.done|] in stored && stored[r.refs[|r.done|]] == value && ValidSize(value)
    ensures Faithful(stored, Keep(r, value)) && Keep(r, value).refs == r.refs
  {
    OneMoreHeld(stored, r, value);
    ProceedIsFaithful(stored, r.(done := r.done[r.refs[|r.done|] := value]));
  }

  lemma ReadKeeps(stored: map<Ref, Bytes>, r: Run, generated: Option<Bytes>)
    requires Faithful(stored, r) && r.stage.Read?
    ensures Faithful(stored, ReadStep(stored, r, generated)) && ReadStep(stored, r, generated).refs == r.refs
  {
    hide Keep;
    var ref := NextRef(r);
    if ref in stored && ValidSize(stored[ref]) { KeepIsFaithful(stored, r, stored[ref]); }
  }

  lemma CreateKeeps(stored: map<Ref, Bytes>, r: Run, value: Bytes)
    requires Faithful(stored, r) && r.stage == Create(value)
    ensures var (stored', r') := CreateStep(stored, r, value);
            Faithful(stored', r') && Grows(stored, stored') && r'.refs == r.refs
  {
    var ref := NextRef(r);
    if ref !in stored {
      FaithfulLater(stored, stored[ref := value], r);
      KeepIsFaithful(stored[ref := value], r, value);
    }
  }

  lemma LostKeeps(stored: map<Ref, Bytes>, r: Run, effect: bool)
    requires Faithful(stored, r) && Active(r)
    ensures var (stored', r') := CallStep(stored, r, Lost(effect));
            Faithful(stored', r') && Grows(stored, stored') && r'.refs == r.refs
  {
    var (stored', r') := CallStep(stored, r, Lost(effect));
    assert Grows(stored, stored');
    FaithfulLater(stored, stored', r);
  }

  lemma CallKeeps(stored: map<Ref, Bytes>, r: Run, answer: Answer)
    requires Faithful(stored, r) && Active(r)
    ensures var (stored', r') := CallStep(stored, r, answer);
            Faithful(stored', r') && Grows(stored, stored') && r'.refs == r.refs
  {
    match answer
    case Lost(effect) => LostKeeps(stored, r, effect);
    case Answered(generated) =>
      match r.stage
      case Login => ProceedIsFaithful(stored, r);
      case Read => ReadKeeps(stored, r, generated);
      case Create(value) => CreateKeeps(stored, r, value);
      case _ =>
  }

  /** A run stays right while the store only grows. */
  lemma FaithfulLater(before: map<Ref, Bytes>, after: map<Ref, Bytes>, r: Run)
    requires Faithful(before, r) && Extends(before, after)
    ensures Faithful(after, r)
  {
  }

  lemma StepKeeps(w: World, e: Event)
    requires Inv(w) && Enabled(w, e)
    ensures Inv(Step(w, e)) && Grows(w.stored, Step(w, e).stored)
  {
    if e.Call? {
      CallKeeps(w.stored, w.runs[e.p], e.answer);
      var w' := Step(w, e);
      forall q | q in w'.runs ensures Faithful(w'.stored, w'.runs[q]) {
        if q != e.p { FaithfulLater(w.stored, w'.stored, w.runs[q]); }
      }
    }
  }

  /** Over any interleaving, with any call of any run failing, the store only grows. */
  lemma {:induction false} RunKeeps(w: World, events: seq<Event>)
    requires Inv(w) && Legal(w, events)
    ensures Inv(After(w, events)) && Grows(w.stored, After(w, events).stored)
    decreases |events|
  {
    if events != [] {
      StepKeeps(w, events[0]);
      RunKeeps(Step(w, events[0]), events[1..]);
    }
  }

  /** A run that succeeded, seen at any later time: it returned every reference, with the values the
      store still has; so all successful runs agree. */
  lemma SuccessfulRunsAgree(w: World, events: seq<Event>, p: nat, q: nat)
    requires w.runs == map[] && Legal(w, events)
    requires var now := After(w, events);
             p in now.runs && q in now.runs && now.runs[p].stage.Succeeded? && now.runs[q].stage.Succeeded?
    ensures var now := After(w, events);
            var a, b := now.runs[p], now.runs[q];
            && (forall ref :: ref in a.done <==> ref in a.refs)
            && (forall ref :: ref in a.done ==>
                 ref in now.stored && a.done[ref] == now.stored[ref] && ValidSize(a.done[ref]))
            && (forall ref :: ref in a.done && ref in b.done ==> a.done[ref] == b.done[ref])
  {
    RunKeeps(w, events);
    var a := After(w, events).runs[p];
    forall ref { PassedAll(a.refs, |a.refs|, ref); }
    assert a.refs[..|a.refs|] == a.refs;
  }
}

/** The same call on one session, with its buffers: every byte buffer that held a secret is wiped, and
    the values handed out are copies nobody else can reach. */
module SecretBuffers {
  import opened Options
  import opened SecretPaths
  import opened SecretProtocol

  class SecretValue {
    const bytes: array<bv8>

    /** Clones. */
    constructor (value: array<bv8>)
      ensures fresh(bytes) && bytes[..] == value[..]
    {
      var copy := new bv8[value.Length](i requires 0 <= i < value.Length reads value => value[i]);
      bytes := copy;
    }

    /** A copy: writing into it leaves the secret alone. */
    method Bytes() returns (copy: array<bv8>)
      ensures fresh(copy) && copy[..] == bytes[..]
    {
      copy := new bv8[bytes.Length](i requires 0 <= i < bytes.Length reads bytes => bytes[i]);
    }
  }

  ghost predicate Wiped(buffer: array<bv8>)
    reads buffer
  {
    forall i :: 0 <= i < buffer.Length ==> buffer[i] == 0
  }

  method Clear(buffer: array<bv8>)
    modifies buffer
    ensures Wiped(buffer)
  {
    for i := 0 to buffer.Length
      invariant forall j :: 0 <= j < i ==> buffer[j] == 0
    {
      buffer[i] := 0;
    }
  }

  /** What the i-th reference meets: secrets other runs add before its read and before its create, and
      the answers to its own calls. */
  datatype Fate = Fate(before: map<Ref, Bytes>, read: Answer, between: map<Ref, Bytes>, create: Answer)

  /** One reference: the store afterwards, and the secret if there is one. */
  function Fetch(stored: map<Ref, Bytes>, ref: Ref, fate: Fate): (map<Ref, Bytes>, Option<Bytes>) {
    var s := fate.before + stored;
    if fate.read.Lost? then (s, None)
    else if ref in s then (s, if ValidSize(s[ref]) then Some(s[ref]) else None)
    else if fate.read.generated.None? || !ValidSize(fate.read.generated.value) then (s, None)
    else Put(fate.between + s, ref, fate.read.generated.value, fate.create)
  }

  function Put(stored: map<Ref, Bytes>, ref: Ref, value: Bytes, answer: Answer): (map<Ref, Bytes>, Option<Bytes>) {
    if answer.Lost? then (if answer.effect then CreateIn(stored, ref, value) else stored, None)
    else if ref in stored then (stored, None)
    else (stored[ref := value], Some(value))
  }

  /** A store and a batch, unless it has failed. */
  type Standing = (map<Ref, Bytes>, Option<map<Ref, Bytes>>)

  /** One more reference of a batch. */
  function Advance(now: Standing, ref: Ref, admitted: bool, fate: Fate): Standing {
    if now.1.None? || !admitted || ref in now.1.value then (now.0, None)
    else
      var (stored, value) := Fetch(now.0, ref, fate);
      (stored, if value.None? then None else Some(now.1.value[ref := value.value]))
  }

  /** The first `n` references. */
  function Batch(stored: map<Ref, Bytes>, refs: seq<Ref>, admitted: set<Ref>, fates: seq<Fate>, n: nat): Standing
    requires n <= |refs| == |fates|
  {
    if n == 0 then (stored, Some(map[]))
    else Advance(Batch(stored, refs, admitted, fates, n - 1), refs[n - 1], refs[n - 1] in admitted, fates[n - 1])
  }

  lemma {:induction false} FailureStays(stored: map<Ref, Bytes>, refs: seq<Ref>, admitted: set<Ref>,
                                        fates: seq<Fate>, n: nat, m: nat)
    requires n <= m <= |refs| == |fates| && Batch(stored, refs, admitted, fates, n).1.None?
    ensures Batch(stored, refs, admitted, fates, m) == Batch(stored, refs, admitted, fates, n)
  {
    if n < m { FailureStays(stored, refs, admitted, fates, n, m - 1); }
  }

  // ---- when a batch succeeds ----

  /** A reference read, or created where it was absent, with every call answered and a value of 1 to 65536
      bytes; `before` and `after` are the store around it. */
  ghost predicate Smooth(before: map<Ref, Bytes>, ref: Ref, fate: Fate, value: Bytes, after: map<Ref, Bytes>) {
    var seen := fate.before + before;
    var later := fate.between + seen;
    && fate.read.Answered? && 1 <= |value| <= 65536
    && if ref in seen then value == seen[ref] && after == seen
       else && fate.read.generated == Some(value) && fate.create.Answered?
            && ref !in later && after == later[ref := value]
  }

  /** The first `n` references go smoothly, one store leading to the next. */
  ghost predicate GoesSmoothly(refs: seq<Ref>, fates: seq<Fate>, stores: seq<map<Ref, Bytes>>, values: seq<Bytes>,
                               n: nat)
    requires n <= |refs| == |fates|
  {
    && |stores| == n + 1 && |values| == n
    && forall i :: 0 <= i < n ==> Smooth(stores[i], refs[i], fates[i], values[i], stores[i + 1])
  }

  ghost predicate Distinct(refs: seq<Ref>) {
    forall i, j :: 0 <= i < j < |refs| ==> refs[i] != refs[j]
  }

  lemma DistinctMore(front: seq<Ref>, ref: Ref)
    ensures Distinct(front + [ref]) <==> Distinct(front) && ref !in front
  {
    var all := front + [ref];
    assert forall i :: 0 <= i < |front| ==> all[i] == front[i];
    assert all[|front|] == ref;
  }

  /** Exactly these values under these references. */
  ghost predicate Pairs(held: map<Ref, Bytes>, refs: seq<Ref>, values: seq<Bytes>) {
    && |values| == |refs|
    && (forall i :: 0 <= i < |refs| ==> refs[i] in held && held[refs[i]] == values[i])
    && (forall ref :: ref in held ==> ref in refs)
  }

  lemma SmoothIsFetch(stored: map<Ref, Bytes>, ref: Ref, fate: Fate, value: Bytes, after: map<Ref, Bytes>)
    ensures Smooth(stored, ref, fate, value, after) <==> Fetch(stored, ref, fate) == (after, Some(value))
  {
  }

  /** A smooth run of distinct, admitted references is a batch that succeeds. */
  lemma {:induction false} SmoothSucceeds(stored: map<Ref, Bytes>, refs: seq<Ref>, admitted: set<Ref>, fates: seq<Fate>,
                                          stores: seq<map<Ref, Bytes>>, values: seq<Bytes>, n: nat)
    requires n <= |refs| == |fates| && GoesSmoothly(refs, fates, stores, values, n) && stores[0] == stored
    requires Distinct(refs[..n]) && forall ref :: ref in refs[..n] ==> ref in admitted
    ensures var (after, held) := Batch(stored, refs, admitted, fates, n);
            after == stores[n] && held.Some? && Pairs(held.value, refs[..n], values)
  {
    hide Smooth, Fetch;
    if n > 0 {
      var front := refs[..n - 1];
      assert refs[..n] == front + [refs[n - 1]];
      DistinctMore(front, refs[n - 1]);
      SmoothSucceeds(stored, refs, admitted, fates, stores[..n], values[..n - 1], n - 1);
      var (before, held) := Batch(stored, refs, admitted, fates, n - 1);
      assert Smooth(stores[n - 1], refs[n - 1], fates[n - 1], values[n - 1], stores[n]);
      SmoothIsFetch(before, refs[n - 1], fates[n - 1], values[n - 1], stores[n]);
    }
  }

  /** A batch that succeeds went smoothly, through distinct, admitted references. */
  lemma {:induction false} SuccessIsSmooth(stored: map<Ref, Bytes>, refs: seq<Ref>, admitted: set<Ref>,
                                           fates: seq<Fate>, n: nat)
    returns (stores: seq<map<Ref, Bytes>>, values: seq<Bytes>)
    requires n <= |refs| == |fates| && Batch(stored, refs, admitted, fates, n).1.Some?
    ensures GoesSmoothly(refs, fates, stores, values, n) && stores[0] == stored
    ensures Distinct(refs[..n]) && forall ref :: ref in refs[..n] ==> ref in admitted
  {
    hide Smooth, Fetch;
    if n == 0 {
      stores, values := [stored], [];
    } else {
      var s, v := SuccessIsSmooth(stored, refs, admitted, fates, n - 1);
      SmoothSucceeds(stored, refs, admitted, fates, s, v, n - 1);
      var front := refs[..n - 1];
      assert refs[..n] == front + [refs[n - 1]];
      DistinctMore(front, refs[n - 1]);
      var (before, held) := Batch(stored, refs, admitted, fates, n - 1);
      var (after, value) := Fetch(before, refs[n - 1], fates[n - 1]);
      SmoothIsFetch(before, refs[n - 1], fates[n - 1], value.value, after);
      stores, values := s + [after], v + [value.value];
      assert forall i :: 0 <= i < n - 1 ==> refs[i] == front[i];
    }
  }

  class Store {
    var stored: map<Ref, Bytes>

    /** Every buffer a secret was ever put into on its way out of here. */
    ghost var issued: set<array<bv8>>

    constructor ()
      ensures stored == map[] && issued == {}
    {
      stored, issued := map[], {};
    }

    /** Other runs only add. */
    method Others(additions: map<Ref, Bytes>)
      modifies this`stored
      ensures stored == additions + old(stored)
    {
      stored := additions + stored;
    }

    method Read(ref: Ref) returns (buffer: array<bv8>)
      requires ref in stored
      modifies this`issued
      ensures fresh(buffer) && buffer[..] == stored[ref] && issued == old(issued) + {buffer}
    {
      buffer := Generate(stored[ref]);
    }

    /** `generate` hands out a buffer too. */
    method Generate(value: Bytes) returns (buffer: array<bv8>)
      modifies this`issued
      ensures fresh(buffer) && buffer[..] == value && issued == old(issued) + {buffer}
    {
      buffer := new bv8[|value|](i requires 0 <= i < |value| => value[i]);
      issued := issued + {buffer};
    }

    /** A create whose answer may be lost, with or without its effect. */
    method Create(ref: Ref, value: array<bv8>, answer: Answer) returns (ok: bool)
      modifies this`stored
      ensures (stored, if ok then Some(value[..]) else None) == Put(old(stored), ref, value[..], answer)
    {
      if answer.Lost? {
        if answer.effect { stored := CreateIn(stored, ref, value[..]); }
        return false;
      }
      if ref in stored { return false; }
      stored := stored[ref := value[..]];
      return true;
    }
  }

  /** Reads a reference, or generates and creates it. The buffer comes back with the secret in it, or
      the call failed; no other buffer holds the secret. */
  method ReadOrCreate(store: Store, ref: Ref, fate: Fate) returns (ok: bool, buffer: array<bv8>)
    modifies store
    ensures fresh(buffer)
    ensures old(store.issued) <= store.issued <= old(store.issued) + {buffer}
    ensures ok ==> buffer in store.issued
    ensures Fetch(old(store.stored), ref, fate)
         == (store.stored, if ok && ValidSize(buffer[..]) then Some(buffer[..]) else None)
  {
    store.Others(fate.before);
    buffer := new bv8[0];
    ok := false;
    if fate.read.Answered? {
      if ref in store.stored {
        buffer := store.Read(ref);
        ok := true;
      } else if fate.read.generated.Some? {
        buffer := store.Generate(fate.read.generated.value);
        ok := true;
        if 0 < buffer.Length <= MAXIMUM_SECRET_BYTES {
          store.Others(fate.between);
          ok := store.Create(ref, buffer, fate.create);
        }
      }
    }
  }

  /** One pass of the loop: the buffer is cloned into a secret and wiped, or wiped and refused. */
  method ResolveOne(store: Store, ref: Ref, fate: Fate) returns (secret: Option<SecretValue>, buffer: array<bv8>)
    modifies store
    ensures fresh(buffer) && Wiped(buffer)
    ensures old(store.issued) <= store.issued <= old(store.issued) + {buffer}
    ensures Fetch(old(store.stored), ref, fate)
         == (store.stored, if secret.Some? then Some(secret.value.bytes[..]) else None)
    ensures secret.Some? ==> buffer in store.issued && fresh(secret.value.bytes) && secret.value.bytes !in store.issued
  {
    var ok;
    ok, buffer := ReadOrCreate(store, ref, fate);
    if !ok || buffer.Length == 0 || buffer.Length > MAXIMUM_SECRET_BYTES {
      Clear(buffer);
      return None, buffer;
    }
    var clone := new SecretValue(buffer);
    Clear(buffer);
    return Some(clone), buffer;
  }

  ghost predicate AllWiped(buffers: set<array<bv8>>)
    reads buffers
  {
    forall b :: b in buffers ==> Wiped(b)
  }

  function Buffers(values: map<Ref, SecretValue>): set<array<bv8>> {
    set r | r in values :: values[r].bytes
  }

  /** The secrets handed out are copies of these values, each in a buffer of its own that was never
      issued. */
  ghost predicate Copies(values: map<Ref, SecretValue>, held: map<Ref, Bytes>, issued: set<array<bv8>>)
    reads Buffers(values)
  {
    && values.Keys == held.Keys
    && (forall r :: r in values ==> values[r].bytes[..] == held[r] && values[r].bytes !in issued)
    && (forall r, q :: r in values && q in values && r != q ==> values[r].bytes != values[q].bytes)
  }

  /** A secret more, in a new buffer, leaves the others as they were. */
  lemma CopiesMore(values: map<Ref, SecretValue>, held: map<Ref, Bytes>, issued: set<array<bv8>>,
                   ref: Ref, secret: SecretValue)
    requires Copies(values, held, issued) && ref !in values
    requires secret.bytes !in issued && secret.bytes !in Buffers(values)
    ensures Copies(values[ref := secret], held[ref := secret.bytes[..]], issued)
  {
    assert forall r :: r in values ==> values[r].bytes in Buffers(values);
  }

  lemma BuffersMore(values: map<Ref, SecretValue>, ref: Ref, secret: SecretValue)
    ensures Buffers(values[ref := secret]) <= Buffers(values) + {secret.bytes}
  {
  }

  lemma CopiesLater(values: map<Ref, SecretValue>, held: map<Ref, Bytes>, issued: set<array<bv8>>, buffer: array<bv8>)
    requires Copies(values, held, issued) && buffer !in Buffers(values)
    ensures Copies(values, held, issued + {buffer})
  {
    assert forall r :: r in values ==> values[r].bytes in Buffers(values);
  }

  /** The loop body: the tests on one reference, and the reference. */
  method Pass(store: Store, done: map<Ref, SecretValue>, ghost held: map<Ref, Bytes>, ref: Ref, admitted: bool,
              fate: Fate, ghost before: set<array<bv8>>) returns (secret: Option<SecretValue>)
    requires before <= store.issued && AllWiped(store.issued - before) && Copies(done, held, store.issued)
    modifies store
    ensures old(store.issued) <= store.issued && fresh(store.issued - old(store.issued))
    ensures AllWiped(store.issued - before)
    ensures secret.Some? ==> |store.issued - before| == |old(store.issued) - before| + 1
    ensures secret.Some? ==> fresh(secret.value.bytes)
    ensures secret.Some? ==> Copies(done[ref := secret.value], held[ref := secret.value.bytes[..]], store.issued)
    ensures Advance((old(store.stored), Some(held)), ref, admitted, fate)
         == (store.stored, if secret.Some? then Some(held[ref := secret.value.bytes[..]]) else None)
  {
    if !admitted || ref in done {
      return None;
    }
    ghost var issued := store.issued;
    var buffer;
    secret, buffer := ResolveOne(store, ref, fate);
    if secret.Some? {
      assert store.issued == issued + {buffer} && store.issued - before == (issued - before) + {buffer};
      CopiesLater(done, held, issued, buffer);
      CopiesMore(done, held, store.issued, ref, secret.value);
    }
  }

  /** The loop over the references. Every buffer issued meanwhile ends wiped, whether the batch succeeds
      or fails; if it succeeds, there was one for each reference. */
  method Collect(store: Store, refs: seq<Ref>, admitted: set<Ref>, fates: seq<Fate>)
    returns (values: Option<map<Ref, SecretValue>>, ghost held: map<Ref, Bytes>)
    requires |fates| == |refs|
    modifies store
    ensures old(store.issued) <= store.issued && fresh(store.issued - old(store.issued))
    ensures AllWiped(store.issued - old(store.issued))
    ensures values.Some? ==> |store.issued - old(store.issued)| == |refs|
    ensures values.Some? ==> fresh(Buffers(values.value)) && Copies(values.value, held, store.issued)
    ensures Batch(old(store.stored), refs, admitted, fates, |refs|)
         == (store.stored, if values.Some? then Some(held) else None)
  {
    hide Advance;
    held := map[];
    var done: map<Ref, SecretValue> := map[];
    ghost var stored, issued := store.stored, store.issued;
    var n := 0;
    while n < |refs|
      invariant n <= |refs| && issued <= store.issued && fresh(store.issued - issued)
      invariant AllWiped(store.issued - issued) && |store.issued - issued| == n
      invariant fresh(Buffers(done)) && Copies(done, held, store.issued)
      invariant Batch(stored, refs, admitted, fates, n) == (store.stored, Some(held))
    {
      var secret := Pass(store, done, held, refs[n], refs[n] in admitted, fates[n], issued);
      if secret.None? {
        FailureStays(stored, refs, admitted, fates, n + 1, |refs|);
        return None, held;
      }
      BuffersMore(done, refs[n], secret.value);
      done, held := done[refs[n] := secret.value], held[refs[n] := secret.value.bytes[..]];
      n := n + 1;
    }
    return Some(done), held;
  }

  /** The references ParseRef accepts. */
  function Accepted(refs: seq<Ref>): set<Ref> {
    set i | 0 <= i < |refs| && ParseRef(refs[i]).Some? :: refs[i]
  }

  lemma AcceptedAreParsed(refs: seq<Ref>)
    ensures (forall ref :: ref in refs ==> ref in Accepted(refs)) <==> forall ref :: ref in refs ==> ParseRef(ref).Some?
  {
    forall ref | ref in refs ensures ref in Accepted(refs) <==> ParseRef(ref).Some? {
      var i :| 0 <= i < |refs| && refs[i] == ref;
    }
  }

  /** Login answers; the references are distinct and pass ParseRef; and each goes smoothly, with these values. */
  ghost predicate SucceedsWith(stored: map<Ref, Bytes>, refs: seq<Ref>, login: Answer, fates: seq<Fate>,
                               stores: seq<map<Ref, Bytes>>, values: seq<Bytes>)
    requires |fates| == |refs|
  {
    && refs != [] && login.Answered? && Distinct(refs)
    && (forall ref :: ref in refs ==> ParseRef(ref).Some?)
    && GoesSmoothly(refs, fates, stores, values, |refs|) && stores[0] == stored
  }

  lemma SuccessIff(stored: map<Ref, Bytes>, refs: seq<Ref>, login: Answer, fates: seq<Fate>)
    requires |fates| == |refs| > 0 && login.Answered?
    ensures var (after, held) := Batch(stored, refs, Accepted(refs), fates, |refs|);
            && (held.Some? <==> exists stores, values :: SucceedsWith(stored, refs, login, fates, stores, values))
            && (held.Some? ==> forall ref :: ref in refs ==> ParseRef(ref).Some?)
            && forall stores, values :: SucceedsWith(stored, refs, login, fates, stores, values) ==>
                 after == stores[|refs|] && held.Some? && Pairs(held.value, refs, values)
  {
    AcceptedAreParsed(refs);
    assert refs[..|refs|] == refs;
    hide Accepted, Batch, GoesSmoothly, ParseRef, Distinct, Pairs;
    var (after, held) := Batch(stored, refs, Accepted(refs), fates, |refs|);
    if held.Some? {
      var stores, values := SuccessIsSmooth(stored, refs, Accepted(refs), fates, |refs|);
      assert SucceedsWith(stored, refs, login, fates, stores, values);
    }
    forall stores, values | SucceedsWith(stored, refs, login, fates, stores, values)
      ensures after == stores[|refs|] && held.Some? && Pairs(held.value, refs, values)
    {
      SmoothSucceeds(stored, refs, Accepted(refs), fates, stores, values, |refs|);
    }
  }

  /** The secrets handed out hold exactly these values. */
  ghost predicate Hands(secrets: map<Ref, SecretValue>, refs: seq<Ref>, values: seq<Bytes>)
    reads Buffers(secrets)
  {
    && |values| == |refs|
    && (forall i :: 0 <= i < |refs| ==> refs[i] in secrets && secrets[refs[i]].bytes[..] == values[i])
    && (forall ref :: ref in secrets ==> ref in refs)
  }

  /** A batch gives back the values the references resolve to, in buffers nobody else has, or nothing.
      Either way every buffer issued on the way ends wiped. References are tested with ParseRef. */
  method ResolveOrCreateBatch(store: Store, refs: seq<Ref>, login: Answer, fates: seq<Fate>)
    returns (values: Option<map<Ref, SecretValue>>)
    requires |fates| == |refs|
    modifies store
    ensures old(store.issued) <= store.issued && fresh(store.issued - old(store.issued))
    ensures AllWiped(store.issued - old(store.issued))
    ensures values.Some? ==> |store.issued - old(store.issued)| == |refs| && fresh(Buffers(values.value))
    ensures refs == [] || login.Lost? ==> values.None? && store.stored == old(store.stored)
    ensures refs != [] && login.Answered? ==>
      var (stored, held) := Batch(old(store.stored), refs, Accepted(refs), fates, |refs|);
      && store.stored == stored
      && (values.Some? <==> held.Some?)
      && (values.Some? ==> Copies(values.value, held.value, store.issued))
    ensures values.Some? <==>
      exists stores, found :: SucceedsWith(old(store.stored), refs, login, fates, stores, found)
    ensures values.Some? ==> forall ref :: ref in refs ==> ParseRef(ref).Some?
    ensures forall stores, found :: SucceedsWith(old(store.stored), refs, login, fates, stores, found) ==>
      values.Some? && Hands(values.value, refs, found) && store.stored == stores[|refs|]
  {
    if refs == [] || login.Lost? { return None; }
    SuccessIff(store.stored, refs, login, fates);
    hide SucceedsWith, Batch, Accepted, ParseRef, GoesSmoothly;
    ghost var held;
    values, held := Collect(store, refs, Accepted(refs), fates);
  }

  function Holding(refs: seq<Ref>, admitted: set<Ref>, done: map<Ref, Bytes>, stage: Stage): Run {
    Run(refs, admitted, done, stage)
  }

  /** The same reference in the protocol: a read, and a create if asked for, of a run about to read it. */
  function Turn(stored: map<Ref, Bytes>, r: Run, fate: Fate): (map<Ref, Bytes>, Run) {
    if !Active(r) then (stored, r)
    else
      var (s1, r1) := CallStep(fate.before + stored, r, fate.read);
      if r1.stage.Create? && Active(r1) then CallStep(fate.between + s1, r1, fate.create) else (s1, r1)
  }

  /** What a turn leaves of its run: one more secret held, or failure. */
  function Outcome(r: Run, value: Option<Bytes>): Run
    requires |r.done| < |r.refs|
  {
    if value.Some? then Keep(r, value.value) else r.(stage := Failed)
  }

  lemma PutIsACall(stored: map<Ref, Bytes>, r: Run, answer: Answer)
    requires r.stage.Create? && Active(r)
    ensures var (s, value) := Put(stored, NextRef(r), r.stage.value, answer);
            CallStep(stored, r, answer) == (s, Outcome(r, value))
  {
  }

  lemma OutcomeForgetsStage(r: Run, stage: Stage, value: Option<Bytes>)
    requires |r.done| < |r.refs|
    ensures Outcome(r.(stage := stage), value) == Outcome(r, value)
  {
  }

  /** A read that leads to a create. */
  lemma ReadThenCreate(stored: map<Ref, Bytes>, r: Run, fate: Fate)
    requires r.stage.Read? && Active(r) && NextRef(r) !in fate.before + stored
    requires fate.read.Answered? && fate.read.generated.Some? && ValidSize(fate.read.generated.value)
    ensures var seen := fate.between + (fate.before + stored);
            var (s, value) := Put(seen, NextRef(r), fate.read.generated.value, fate.create);
            Turn(stored, r, fate) == (s, Outcome(r, value))
  {
    var next := r.(stage := Create(fate.read.generated.value));
    assert CallStep(fate.before + stored, r, fate.read) == (fate.before + stored, next);
    PutIsACall(fate.between + (fate.before + stored), next, fate.create);
    var (s, value) := Put(fate.between + (fate.before + stored), NextRef(r), fate.read.generated.value, fate.create);
    OutcomeForgetsStage(r, next.stage, value);
  }

  /** A read that settles the reference. */
  lemma ReadSettles(stored: map<Ref, Bytes>, r: Run, fate: Fate)
    requires r.stage.Read? && Active(r)
    requires fate.read.Lost? || NextRef(r) in fate.before + stored || fate.read.generated.None?
             || !ValidSize(fate.read.generated.value)
    ensures var (s, value) := Fetch(stored, NextRef(r), fate);
            Turn(stored, r, fate) == (s, Outcome(r, value))
  {
    var (s, value) := Fetch(stored, NextRef(r), fate);
    assert CallStep(fate.before + stored, r, fate.read) == (s, Outcome(r, value));
  }

  /** The loop makes the protocol's calls, in the protocol's order. */
  lemma FetchIsATurn(stored: map<Ref, Bytes>, r: Run, fate: Fate)
    requires r.stage.Read? && Active(r)
    ensures var (s, value) := Fetch(stored, NextRef(r), fate);
            Turn(stored, r, fate) == (s, Outcome(r, value))
  {
    if fate.read.Answered? && NextRef(r) !in fate.before + stored && fate.read.generated.Some?
       && ValidSize(fate.read.generated.value) {
      ReadThenCreate(stored, r, fate);
    } else {
      ReadSettles(stored, r, fate);
    }
  }

  /** A call, with what other runs added just before it. */
  lemma CallAmongOthers(stored: map<Ref, Bytes>, r: Run, additions: map<Ref, Bytes>, answer: Answer,
                        after: map<Ref, Bytes>, next: Run)
    requires Faithful(stored, r) && Active(r) && (after, next) == CallStep(additions + stored, r, answer)
    ensures Extends(stored, after) && Faithful(after, next) && next.refs == r.refs
  {
    FaithfulLater(stored, additions + stored, r);
    CallKeeps(additions + stored, r, answer);
  }

  ghost predicate Sound(before: map<Ref, Bytes>, after: map<Ref, Bytes>, r: Run) {
    Extends(before, after) && Faithful(after, r)
  }

  lemma TurnIsFaithful(stored: map<Ref, Bytes>, r: Run, fate: Fate, after: map<Ref, Bytes>, next: Run)
    requires Faithful(stored, r) && (after, next) == Turn(stored, r, fate)
    ensures Sound(stored, after, next) && next.refs == r.refs
  {
    if !Active(r) { return; }
    var (s1, r1) := CallStep(fate.before + stored, r, fate.read);
    CallAmongOthers(stored, r, fate.before, fate.read, s1, r1);
    if r1.stage.Create? && Active(r1) {
      SecondHalf(stored, s1, r1, fate, after, next);
    }
  }

  lemma SecondHalf(stored: map<Ref, Bytes>, s1: map<Ref, Bytes>, r1: Run, fate: Fate, after: map<Ref, Bytes>, next: Run)
    requires Sound(stored, s1, r1) && Active(r1)
    requires (after, next) == CallStep(fate.between + s1, r1, fate.create)
    ensures Sound(stored, after, next) && next.refs == r1.refs
  {
    CallAmongOthers(s1, r1, fate.between, fate.create, after, next);
  }

  lemma SoundThrough(origin: map<Ref, Bytes>, stored: map<Ref, Bytes>, after: map<Ref, Bytes>, r: Run)
    requires Extends(origin, stored) && Sound(stored, after, r)
    ensures Sound(origin, after, r)
  {
  }

  /** The protocol's run when `held` is what the loop has so far. */
  function RunAt(refs: seq<Ref>, admitted: set<Ref>, held: map<Ref, Bytes>): Run {
    Proceed(Holding(refs, admitted, held, Login))
  }

  ghost predicate Stands(origin: map<Ref, Bytes>, refs: seq<Ref>, admitted: set<Ref>, n: nat, now: Standing) {
    && Extends(origin, now.0)
    && (now.1.Some? ==> |now.1.value| == n && Faithful(now.0, RunAt(refs, admitted, now.1.value)))
  }

  lemma AboutToRead(refs: seq<Ref>, admitted: set<Ref>, held: map<Ref, Bytes>)
    requires |held| < |refs| && refs[|held|] in admitted && refs[|held|] !in held
    ensures RunAt(refs, admitted, held) == Holding(refs, admitted, held, Read)
  {
  }

  lemma OneMore(refs: seq<Ref>, admitted: set<Ref>, held: map<Ref, Bytes>, value: Bytes)
    requires |held| < |refs|
    ensures Outcome(Holding(refs, admitted, held, Read), Some(value))
          == RunAt(refs, admitted, held[refs[|held|] := value])
  {
  }

  lemma EmptyStands(stored: map<Ref, Bytes>, refs: seq<Ref>, admitted: set<Ref>)
    requires refs != []
    ensures Stands(stored, refs, admitted, 0, (stored, Some(map[])))
  {
    ProceedIsFaithful(stored, Holding(refs, admitted, map[], Login));
  }

  lemma AdvanceStands(origin: map<Ref, Bytes>, refs: seq<Ref>, admitted: set<Ref>, n: nat, now: Standing, fate: Fate)
    requires n < |refs| && Stands(origin, refs, admitted, n, now)
    ensures Stands(origin, refs, admitted, n + 1, Advance(now, refs[n], refs[n] in admitted, fate))
  {
    if now.1.Some? && refs[n] in admitted && refs[n] !in now.1.value {
      var held := now.1.value;
      var r := Holding(refs, admitted, held, Read);
      AboutToRead(refs, admitted, held);
      FetchIsATurn(now.0, r, fate);
      var (after, value) := Fetch(now.0, refs[n], fate);
      TurnIsFaithful(now.0, r, fate, after, Outcome(r, value));
      SoundThrough(origin, now.0, after, Outcome(r, value));
      if value.Some? { OneMore(refs, admitted, held, value.value); }
    }
  }

  /** Whatever other runs add between the calls and whichever calls fail, a batch that has not failed
      stands as a run of the protocol does, and the store keeps every value it had. */
  lemma {:induction false} BatchStands(stored: map<Ref, Bytes>, refs: seq<Ref>, admitted: set<Ref>,
                                       fates: seq<Fate>, n: nat)
    requires refs != [] && n <= |refs| == |fates|
    ensures Stands(stored, refs, admitted, n, Batch(stored, refs, admitted, fates, n))
  {
    hide Advance, Stands;
    if n == 0 {
      EmptyStands(stored, refs, admitted);
    } else {
      var now := Batch(stored, refs, admitted, fates, n - 1);
      BatchStands(stored, refs, admitted, fates, n - 1);
      AdvanceStands(stored, refs, admitted, n - 1, now, fates[n - 1]);
    }
  }

  /** A batch that succeeds holds exactly its references, each as the store has it. */
  lemma BatchIsFaithful(stored: map<Ref, Bytes>, refs: seq<Ref>, admitted: set<Ref>, fates: seq<Fate>)
    requires refs != [] && |fates| == |refs|
    ensures var (after, held) := Batch(stored, refs, admitted, fates, |refs|);
            && Extends(stored, after)
            && (held.Some? ==>
                  && (forall ref :: ref in held.value <==> ref in refs)
                  && forall ref :: ref in held.value ==>
                       ref in after && held.value[ref] == after[ref] && ValidSize(after[ref]))
            && (held.Some? ==> RunAt(refs, admitted, held.value).stage.Succeeded?)
  {
    BatchStands(stored, refs, admitted, fates, |refs|);
    forall ref { PassedAll(refs, |refs|, ref); }
    assert refs[..|refs|] == refs;
  }

  /** Whatever a caller writes into the copies it was given, the secret keeps its value. */
  method ScribbleOnCopy(secret: SecretValue, position: nat, junk: bv8) returns (copy: array<bv8>)
    requires position < secret.bytes.Length
    ensures secret.bytes[..] == old(secret.bytes[..])
    ensures copy[..] == secret.bytes[..][position := junk]
  {
    copy := secret.Bytes();
    copy[position] := junk;
  }
}

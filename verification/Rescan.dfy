/** The rescan protocol of the entity manager: a debounced wake-up, a scan that calls back, posted
    publication, and one timer that serves both the debounce and the removal check. */
module Rescan {
  type Key = string

  /** What the shared timer is waiting for. */
  datatype Wait = Idle | Debounce(count: nat) | Removal

  /** How a wait ends. */
  datatype Outcome = Expired | Aborted | Failed

  /** A completion or a posted function in the event queue. */
  datatype Event =
    | DebounceDone(count: nat, outcome: Outcome)
    | RemovalDone(aborted: bool)
    | Publish(count: nat, keys: set<Key>)
    | Published(count: nat, keys: set<Key>)

  /** A running scan: who asked for it, the records there were, and those not seen again yet. */
  datatype ActiveScan = ActiveScan(count: nat, before: set<Key>, missing: set<Key>)

  /** What one scan's callback pruned and handed on for publication. */
  datatype Entry = Entry(pruned: set<Key>, announced: set<Key>)

  datatype State = State(
    inProgress: bool,
    instance: nat,
    timer: Wait,
    queue: seq<Event>,
    shutdown: bool,
    powerOn: bool,
    scannedPowerOff: bool,
    scannedPowerOn: bool,
    lastJson: set<Key>,
    system: set<Key>,
    active: seq<ActiveScan>,
    starts: nat, // scans started so far
    woken: bool, // a wake-up has arrived since the last scan started
    failed: bool, // the latest wake-up's wait has ended with an error
    log: seq<Entry>)

  /** What the environment does next. `held` are the missing devices that need power to be seen. */
  datatype Input =
    | Signal
    | Expire
    | Fail
    | Handle(i: nat)
    | Add(key: Key)
    | See(key: Key)
    | Complete(held: set<Key>)
    | Shutdown
    | Power(on: bool)
    | Loaded(keys: set<Key>)

  /** Records that have been announced and not pruned since. */
  function Live(log: seq<Entry>): set<Key> {
    if log == [] then {}
    else
      var last := log[|log| - 1];
      (Live(log[..|log| - 1]) - last.pruned) + last.announced
  }

  /** The completion a wait gets when the timer is set again. */
  function Cancelled(w: Wait): seq<Event> {
    match w
    case Idle => []
    case Debounce(c) => [DebounceDone(c, Aborted)]
    case Removal => [RemovalDone(true)]
  }

  function Armed(s: State, w: Wait): State {
    s.(timer := w, queue := s.queue + Cancelled(s.timer))
  }

  /** A wake-up. */
  function Woken(s: State): State {
    if s.shutdown then s
    else Armed(s.(instance := s.instance + 1, woken := true, failed := false), Debounce(s.instance + 1))
  }

  /** A scan starts. It takes every record for missing, but its first pass at once strips from them all
      that are in the configuration: none is left. */
  function Started(s: State, count: nat): State {
    s.(inProgress := true, active := s.active + [ActiveScan(count, s.system, {})],
       starts := s.starts + 1, woken := false)
  }

  /** The debounce wait of wake-up `count` is over. */
  function Debounced(s: State, count: nat, outcome: Outcome): State {
    if !outcome.Expired? || s.shutdown then s
    else if s.inProgress then Woken(s)
    else Started(s, count)
  }

  /** Scan `i` calls back. */
  function Completed(s: State, i: nat, held: set<Key>): State
    requires i < |s.active|
  {
    var scan := s.active[i];
    var pruned := if s.powerOn then scan.missing else scan.missing - held;
    var system := s.system - pruned;
    var added := system - scan.before;
    s.(inProgress := false, system := system, active := s.active[..i] + s.active[i + 1..],
       queue := s.queue + [Publish(scan.count, added)], log := s.log + [Entry(pruned, added)])
  }

  predicate ReadyForRemoval(s: State) {
    s.system != {} && s.lastJson != {} && !s.scannedPowerOn && (s.powerOn || !s.scannedPowerOff)
  }

  function RemovalStarted(s: State): State {
    if ReadyForRemoval(s) then Armed(s, Removal) else s
  }

  /** Posting records to D-Bus looks each up with an operator that inserts what is not there. */
  function Posted(s: State, keys: set<Key>): State {
    s.(system := s.system + keys)
  }

  function Handled(s: State, e: Event): State {
    match e
    case DebounceDone(count, outcome) => Debounced(s, count, outcome)
    case RemovalDone(aborted) =>
      if aborted then s else s.(scannedPowerOff := true, scannedPowerOn := s.scannedPowerOn || s.powerOn)
    case Publish(count, keys) => s.(queue := s.queue + [Published(count, keys)])
    case Published(count, keys) => var t := Posted(s, keys); if count == t.instance then RemovalStarted(t) else t
  }

  function Taken(s: State, i: nat): State
    requires i < |s.queue|
  {
    s.(queue := s.queue[..i] + s.queue[i + 1..])
  }

  /** The timer's wait ends by itself; the removal check does not mind an error. */
  function WaitEnded(s: State, outcome: Outcome): State {
    match s.timer
    case Idle => s
    case Debounce(c) => s.(timer := Idle, queue := s.queue + [DebounceDone(c, outcome)], failed := outcome.Failed?)
    case Removal => s.(timer := Idle, queue := s.queue + [RemovalDone(false)])
  }

  /** A record is found again: no scan misses it any more. */
  function Seen(s: State, key: Key): State {
    s.(active := seq(|s.active|,
      i requires 0 <= i < |s.active| => s.active[i].(missing := s.active[i].missing - {key})))
  }

  /** One step; an input that does not apply changes nothing. Queued events may run in any order. */
  function Next(s: State, input: Input): State {
    match input
    case Signal => Woken(s)
    case Expire => WaitEnded(s, Expired)
    case Fail => WaitEnded(s, Failed)
    case Handle(i) => if i < |s.queue| then Handled(Taken(s, i), s.queue[i]) else s
    case Add(key) => if s.active != [] then s.(system := s.system + {key}) else s
    case See(key) => Seen(s, key)
    case Complete(held) => if s.active != [] then Completed(s, 0, held) else s
    case Shutdown => s.(shutdown := true)
    case Power(on) => s.(powerOn := on)
    case Loaded(keys) => s.(lastJson := keys)
  }

  const INITIAL := State(false, 0, Idle, [], false, false, false, false, {}, {}, [], 0, false, false, [])

  function Run(s: State, inputs: seq<Input>): State {
    if inputs == [] then s else Next(Run(s, inputs[..|inputs| - 1]), inputs[|inputs| - 1])
  }

  // ---- single steps ----

  /** A wake-up before shutdown takes the timer: whatever it was waiting for completes as cancelled. */
  lemma WakeUpStep(s: State)
    requires !s.shutdown
    ensures var t := Next(s, Signal);
            && t.instance == s.instance + 1 && t.timer == Debounce(s.instance + 1) && t.woken
            && t.starts == s.starts && t.active == s.active && t.system == s.system
    ensures s.timer.Idle? ==> Next(s, Signal).queue == s.queue
    ensures s.timer.Debounce? ==> Next(s, Signal).queue == s.queue + [DebounceDone(s.timer.count, Aborted)]
    ensures s.timer.Removal? ==> Next(s, Signal).queue == s.queue + [RemovalDone(true)]
  {
  }

  /** A debounce wait that runs out before shutdown starts a scan, or counts as a wake-up while one is in
      progress; one that ended in any other way does nothing. */
  lemma DebounceStep(s: State, i: nat)
    requires i < |s.queue| && s.queue[i].DebounceDone? && !s.shutdown
    ensures var e, t := s.queue[i], Next(s, Handle(i));
            && t.starts == s.starts + (if e.outcome.Expired? && !s.inProgress then 1 else 0)
            && t.instance == s.instance + (if e.outcome.Expired? && s.inProgress then 1 else 0)
            && t.inProgress == (s.inProgress || e.outcome.Expired?)
            && (!e.outcome.Expired? ==> t.timer == s.timer)
  {
  }

  /** A removal check that was not cancelled counts for the power state it finds. */
  lemma CheckStep(s: State, i: nat)
    requires i < |s.queue| && s.queue[i].RemovalDone?
    ensures var aborted, t := s.queue[i].aborted, Next(s, Handle(i));
            && t.scannedPowerOff == (s.scannedPowerOff || !aborted)
            && t.scannedPowerOn == (s.scannedPowerOn || (!aborted && s.powerOn))
            && t.timer == s.timer && t.starts == s.starts && t.system == s.system
  {
  }

  // ---- the invariant ----

  predicate OneScan(s: State) {
    |s.active| <= 1 && (s.inProgress <==> |s.active| == 1)
  }

  /** No two waits have the same count, and a wait in progress is the latest. */
  predicate DistinctWaits(s: State) {
    && (s.timer.Debounce? ==> s.timer.count == s.instance)
    && (forall i :: 0 <= i < |s.queue| && s.queue[i].DebounceDone? ==> s.queue[i].count <= s.instance)
    && (forall i :: 0 <= i < |s.queue| && s.queue[i].DebounceDone? && s.timer.Debounce? ==>
         s.queue[i].count != s.instance)
    && (forall i, j :: 0 <= i < j < |s.queue| && s.queue[i].DebounceDone? && s.queue[j].DebounceDone? ==>
          s.queue[i].count != s.queue[j].count)
  }

  /** The wait for wake-up `c` is over and done with. */
  predicate Spent(s: State, c: nat) {
    && c <= s.instance
    && (c == s.instance ==> !s.timer.Debounce? && DebounceDone(c, Expired) !in s.queue)
  }

  predicate ScansSpent(s: State) {
    && (forall i :: 0 <= i < |s.active| ==> Spent(s, s.active[i].count))
    && (forall i :: 0 <= i < |s.queue| && (s.queue[i].Publish? || s.queue[i].Published?) ==> Spent(s, s.queue[i].count))
  }

  predicate Waiting(s: State) {
    s.timer == Debounce(s.instance) || DebounceDone(s.instance, Expired) in s.queue
  }

  /** A wake-up no scan has answered has a wait that will, exactly if its wait has not failed. */
  predicate NoneLost(s: State) {
    s.woken && !s.shutdown ==> (Waiting(s) <==> !s.failed)
  }

  predicate KeysKept(s: State) {
    && (s.active == [] ==> s.system == Live(s.log))
    && (forall i :: 0 <= i < |s.active| ==>
          s.active[i].before == Live(s.log) && s.active[i].before <= s.system
            && s.active[i].missing <= s.active[i].before)
  }

  /** No scan has found anything missing, and what is to be posted is in the configuration. */
  predicate NoneMissing(s: State) {
    && (forall i :: 0 <= i < |s.active| ==> s.active[i].missing == {})
    && (forall i :: 0 <= i < |s.log| ==> s.log[i].pruned == {})
    && (forall i :: 0 <= i < |s.queue| ==> Kept(s.queue[i], s.system))
  }

  predicate Kept(e: Event, system: set<Key>) {
    e.Publish? || e.Published? ==> e.keys <= system
  }

  predicate LogFresh(log: seq<Entry>) {
    forall i :: 0 <= i < |log| ==> log[i].announced !! Live(log[..i])
  }

  predicate InOrder(s: State) {
    OneScan(s) && DistinctWaits(s) && ScansSpent(s) && KeysKept(s) && LogFresh(s.log) && NoneMissing(s)
  }

  predicate Inv(s: State) {
    InOrder(s) && NoneLost(s)
  }

  /** What setting the timer leaves in the queue. */
  lemma ArmedQueue(s: State, w: Wait)
    ensures Armed(s, w).queue == s.queue + Cancelled(s.timer)
    ensures NoneMissing(s) ==> NoneMissing(Armed(s, w))
    ensures forall e :: e in Cancelled(s.timer) ==> !e.Publish? && !e.Published? && !IsExpired(e)
  {
  }

  lemma WokenWaits(s: State)
    requires DistinctWaits(s) && !s.shutdown
    ensures DistinctWaits(Woken(s)) && Waiting(Woken(s))
  {
  }

  lemma WokenKeeps(s: State)
    requires InOrder(s)
    ensures Inv(Woken(s))
    ensures !s.shutdown ==> Waiting(Woken(s)) && !Woken(s).failed
  {
    if !s.shutdown {
      ArmedQueue(s.(instance := s.instance + 1, woken := true, failed := false), Debounce(s.instance + 1));
      WokenWaits(s);
    }
  }

  lemma StartedKeeps(s: State, count: nat)
    requires InOrder(s) && !s.inProgress && Spent(s, count)
    ensures Inv(Started(s, count))
  {
  }

  lemma RemovalKeeps(s: State)
    requires Inv(s) && !s.timer.Debounce?
    ensures Inv(RemovalStarted(s))
  {
    ArmedQueue(s, Removal);
  }

  lemma DebounceEnds(s: State, outcome: Outcome)
    requires DistinctWaits(s) && s.timer.Debounce?
    ensures forall o :: DebounceDone(s.instance, o) !in s.queue
    ensures DistinctWaits(WaitEnded(s, outcome)) && !WaitEnded(s, outcome).timer.Debounce?
    ensures DebounceDone(s.instance, Expired) in WaitEnded(s, outcome).queue <==> outcome.Expired?
  {
    assert WaitEnded(s, outcome).queue[|s.queue|] == DebounceDone(s.instance, outcome);
  }

  lemma WaitEndedKeeps(s: State, outcome: Outcome)
    requires Inv(s) && !outcome.Aborted?
    ensures Inv(WaitEnded(s, outcome))
  {
    if s.timer.Debounce? {
      DebounceEnds(s, outcome);
    }
  }

  lemma QueuedKeeps(s: State, e: Event)
    requires Inv(s) && e.Published? && Spent(s, e.count) && Kept(e, s.system)
    ensures Inv(s.(queue := s.queue + [e]))
  {
  }

  /** Taking an event out of the queue. */
  lemma TakenKeeps(s: State, i: nat)
    requires Inv(s) && i < |s.queue|
    ensures InOrder(Taken(s, i))
    ensures s.queue[i] != DebounceDone(s.instance, Expired) ==> Inv(Taken(s, i))
    ensures s.queue[i].DebounceDone? || s.queue[i].Publish? || s.queue[i].Published? ==>
              Spent(Taken(s, i), s.queue[i].count)
    ensures Kept(s.queue[i], s.system)
  {
    TakenQueue(s, i);
    TakenWaits(s, i);
  }

  lemma TakenQueue(s: State, i: nat)
    requires i < |s.queue|
    ensures forall e :: e in Taken(s, i).queue ==> e in s.queue
    ensures forall e :: e in s.queue && e != s.queue[i] ==> e in Taken(s, i).queue
  {
  }

  lemma TakenWaits(s: State, i: nat)
    requires i < |s.queue| && DistinctWaits(s)
    ensures DistinctWaits(Taken(s, i))
    ensures s.queue[i].DebounceDone? ==> forall o :: DebounceDone(s.queue[i].count, o) !in Taken(s, i).queue
  {
  }

  lemma LogGrows(log: seq<Entry>, e: Entry)
    requires LogFresh(log) && e.announced !! Live(log)
    ensures LogFresh(log + [e]) && Live(log + [e]) == (Live(log) - e.pruned) + e.announced
  {
    assert (log + [e])[..|log|] == log;
    forall i | 0 <= i < |log + [e]| ensures (log + [e])[i].announced !! Live((log + [e])[..i]) {
      assert (log + [e])[..i] == log[..i];
      assert i == |log| ==> log[..i] == log;
    }
  }

  lemma CompletedKeys(s: State, held: set<Key>)
    requires OneScan(s) && s.active != [] && KeysKept(s) && LogFresh(s.log)
    ensures KeysKept(Completed(s, 0, held)) && LogFresh(Completed(s, 0, held).log)
  {
    var t := Completed(s, 0, held);
    LogGrows(s.log, t.log[|s.log|]);
  }

  lemma CompletedNone(s: State, held: set<Key>)
    requires NoneMissing(s) && s.active != []
    ensures NoneMissing(Completed(s, 0, held)) && Completed(s, 0, held).system == s.system
  {
  }

  lemma CompletedKeeps(s: State, held: set<Key>)
    requires Inv(s) && s.active != []
    ensures Inv(Completed(s, 0, held))
  {
    CompletedKeys(s, held);
    CompletedNone(s, held);
    assert Spent(s, s.active[0].count);
  }

  lemma DebouncedKeeps(s: State, i: nat)
    requires Inv(s) && i < |s.queue| && s.queue[i].DebounceDone?
    ensures Inv(Debounced(Taken(s, i), s.queue[i].count, s.queue[i].outcome))
  {
    TakenKeeps(s, i);
    var t := Taken(s, i);
    if s.queue[i].outcome.Expired? && !s.shutdown {
      if s.inProgress {
        WokenKeeps(t);
      } else {
        StartedKeeps(t, s.queue[i].count);
      }
    }
  }

  lemma HandledKeeps(s: State, i: nat)
    requires Inv(s) && i < |s.queue|
    ensures Inv(Handled(Taken(s, i), s.queue[i]))
  {
    TakenKeeps(s, i);
    var t := Taken(s, i);
    match s.queue[i]
    case DebounceDone(_, _) => DebouncedKeeps(s, i);
    case RemovalDone(_) => RemovalDoneKeeps(t);
    case Publish(count, keys) => QueuedKeeps(t, Published(count, keys));
    case Published(count, keys) => PublishedKeeps(t, count, keys);
  }

  lemma PublishedKeeps(s: State, count: nat, keys: set<Key>)
    requires Inv(s) && Spent(s, count) && keys <= s.system
    ensures Inv(Handled(s, Published(count, keys)))
  {
    assert Posted(s, keys) == s;
    if count == s.instance {
      RemovalKeeps(s);
    }
  }

  lemma RemovalDoneKeeps(s: State)
    requires Inv(s)
    ensures Inv(s.(scannedPowerOff := true, scannedPowerOn := s.scannedPowerOn || s.powerOn))
  {
  }

  lemma AddKeeps(s: State, key: Key)
    requires Inv(s)
    ensures Inv(Next(s, Add(key)))
  {
  }

  lemma SeeKeeps(s: State, key: Key)
    requires Inv(s)
    ensures Inv(Next(s, See(key)))
  {
    var t := Next(s, See(key));
    assert |t.active| == |s.active| && (s.active == [] <==> t.active == []);
    assert forall i :: 0 <= i < |t.active| ==> t.active[i].count == s.active[i].count;
  }

  lemma PlainKeeps(s: State, on: bool, keys: set<Key>)
    requires Inv(s)
    ensures Inv(s.(powerOn := on)) && Inv(s.(lastJson := keys)) && Inv(s.(shutdown := true))
  {
  }

  lemma NextKeeps(s: State, input: Input)
    requires Inv(s)
    ensures Inv(Next(s, input))
  {
    match input
    case Signal => WokenKeeps(s);
    case Expire => WaitEndedKeeps(s, Expired);
    case Fail => WaitEndedKeeps(s, Failed);
    case Handle(i) => if i < |s.queue| { HandledKeeps(s, i); }
    case Add(key) => AddKeeps(s, key);
    case See(key) => SeeKeeps(s, key);
    case Complete(held) => if s.active != [] { CompletedKeeps(s, held); }
    case Shutdown => PlainKeeps(s, false, {});
    case Power(on) => PlainKeeps(s, on, {});
    case Loaded(keys) => PlainKeeps(s, false, keys);
  }

  /** Every reachable state is in order, whatever the environment does. */
  lemma {:induction false} Reachable(inputs: seq<Input>)
    ensures Inv(Run(INITIAL, inputs))
  {
    if inputs != [] {
      Reachable(inputs[..|inputs| - 1]);
      NextKeeps(Run(INITIAL, inputs[..|inputs| - 1]), inputs[|inputs| - 1]);
    }
  }

  // ---- what the invariant is for ----

  /** Until shutdown, the latest wake-up, when no scan has answered it, has its own wait armed or
      completed if and only if that wait has not ended with an error. Whether a scan follows is another
      matter, see `RescanFollowsExactly`. */
  lemma NoLostRescan(inputs: seq<Input>)
    requires Run(INITIAL, inputs).woken && !Run(INITIAL, inputs).shutdown
    ensures Waiting(Run(INITIAL, inputs)) <==> !Run(INITIAL, inputs).failed
  {
    Reachable(inputs);
  }

  /** At most one scan runs at a time. */
  lemma OneScanAtATime(inputs: seq<Input>)
    ensures |Run(INITIAL, inputs).active| <= 1
  {
    Reachable(inputs);
  }

  /** The removal check is started only when the timer is not waiting for a rescan. */
  lemma RemovalCancelsNoRescan(inputs: seq<Input>, i: nat)
    requires var s := Run(INITIAL, inputs); i < |s.queue| && s.queue[i].Published? && s.timer.Debounce?
    ensures var s := Run(INITIAL, inputs); Next(s, Handle(i)) == Taken(s, i)
  {
    Reachable(inputs);
    var s := Run(INITIAL, inputs);
    TakenKeeps(s, i);
    assert Posted(Taken(s, i), s.queue[i].keys) == Taken(s, i);
  }

  /** Handling a publication arms the removal check if and only if no wake-up has come since, there are
      records now and from the last boot, and they have not been checked, with power or without it as
      it is now. */
  lemma RemovalArmedWhen(inputs: seq<Input>, i: nat)
    requires var s := Run(INITIAL, inputs); i < |s.queue| && s.queue[i].Published? && !s.timer.Removal?
    ensures var s := Run(INITIAL, inputs);
            Next(s, Handle(i)).timer.Removal? <==>
              && s.queue[i].count == s.instance && s.system != {} && s.lastJson != {}
              && !s.scannedPowerOn && (!s.scannedPowerOff || s.powerOn)
  {
    Reachable(inputs);
    var s := Run(INITIAL, inputs);
    assert Kept(s.queue[i], s.system);
    assert Posted(Taken(s, i), s.queue[i].keys) == Taken(s, i);
  }

  /** The records have been checked with power on, and no check is under way. */
  predicate Checked(s: State) {
    s.scannedPowerOn && !s.timer.Removal?
  }

  lemma HandledChecked(s: State, e: Event)
    requires Checked(s)
    ensures Checked(Handled(s, e))
  {
    match e
    case DebounceDone(count, outcome) => assert Checked(Debounced(s, count, outcome));
    case Published(_, keys) => assert RemovalStarted(Posted(s, keys)) == Posted(s, keys);
    case _ =>
  }

  lemma StepChecked(s: State, input: Input)
    requires Checked(s)
    ensures Checked(Next(s, input))
  {
    match input
    case Handle(i) =>
      if i < |s.queue| {
        HandledChecked(Taken(s, i), s.queue[i]);
      }
    case Complete(held) => assert s.active != [] ==> Checked(Completed(s, 0, held));
    case _ =>
  }

  /** Once a check with power on has ended there is no other. */
  lemma {:induction false} CheckedOnce(s: State, inputs: seq<Input>)
    requires s.scannedPowerOn && !s.timer.Removal?
    ensures Run(s, inputs).scannedPowerOn && !Run(s, inputs).timer.Removal?
  {
    if inputs != [] {
      CheckedOnce(s, inputs[..|inputs| - 1]);
      StepChecked(Run(s, inputs[..|inputs| - 1]), inputs[|inputs| - 1]);
    }
  }

  lemma {:induction false} RunConcat(s: State, a: seq<Input>, b: seq<Input>)
    ensures Run(s, a + b) == Run(Run(s, a), b)
  {
    if b == [] {
      assert a + b == a;
    } else {
      var init := b[..|b| - 1];
      RunConcat(s, a, init);
      SplitLast(a, b);
    }
  }

  lemma SplitLast(a: seq<Input>, b: seq<Input>)
    requires b != []
    ensures (a + b)[..|a + b| - 1] == a + b[..|b| - 1] && (a + b)[|a + b| - 1] == b[|b| - 1]
  {
  }

  /** Nothing of what shutdown ends has gone on. */
  predicate Ended(s: State, t: State) {
    t.shutdown && t.starts == s.starts && t.instance == s.instance
  }

  lemma HandledEnded(s: State, e: Event)
    requires s.shutdown
    ensures Ended(s, Handled(s, e))
  {
    match e
    case DebounceDone(count, outcome) => assert Debounced(s, count, outcome) == s;
    case Published(count, keys) => assert Ended(s, RemovalStarted(Posted(s, keys)));
    case _ =>
  }

  lemma QueueEnded(s: State, i: nat)
    requires s.shutdown
    ensures Ended(s, Next(s, Handle(i)))
  {
    if i < |s.queue| {
      HandledEnded(Taken(s, i), s.queue[i]);
    }
  }

  lemma TimerEnded(s: State, outcome: Outcome)
    requires s.shutdown
    ensures Ended(s, Woken(s)) && Ended(s, WaitEnded(s, outcome))
  {
  }

  lemma PlainEnded(s: State, input: Input)
    requires s.shutdown && !input.Handle? && !input.Complete?
    ensures Ended(s, Next(s, input))
  {
    match input
    case Signal => TimerEnded(s, Expired);
    case Expire => TimerEnded(s, Expired);
    case Fail => TimerEnded(s, Failed);
    case _ =>
  }

  lemma ShutdownStep(s: State, input: Input)
    requires s.shutdown
    ensures Ended(s, Next(s, input))
  {
    match input
    case Handle(i) => QueueEnded(s, i);
    case Complete(held) => assert s.active != [] ==> Ended(s, Completed(s, 0, held));
    case _ => PlainEnded(s, input);
  }

  /** No scan starts after shutdown. */
  lemma {:induction false} NothingStartsAfterShutdown(s: State, inputs: seq<Input>)
    requires s.shutdown
    ensures Run(s, inputs).shutdown && Run(s, inputs).starts == s.starts && Run(s, inputs).instance == s.instance
  {
    if inputs != [] {
      NothingStartsAfterShutdown(s, inputs[..|inputs| - 1]);
      ShutdownStep(Run(s, inputs[..|inputs| - 1]), inputs[|inputs| - 1]);
    }
  }

  lemma RunOne(s: State, a: Input)
    ensures Run(s, [a]) == Next(s, a)
  {
    assert [a][..0] == [];
  }

  lemma RunTwo(s: State, a: Input, b: Input)
    ensures Run(s, [a, b]) == Next(Next(s, a), b)
  {
    RunOne(s, a);
    RunOne(Next(s, a), b);
    RunConcat(s, [a], [b]);
    assert [a] + [b] == [a, b];
  }

  lemma RunThree(s: State, a: Input, b: Input, c: Input)
    ensures Run(s, [a, b, c]) == Next(Next(Next(s, a), b), c)
  {
    RunTwo(s, a, b);
    RunOne(Next(Next(s, a), b), c);
    RunConcat(s, [a, b], [c]);
    assert [a, b] + [c] == [a, b, c];
  }

  /** A completed wait starts a scan as soon as none is in progress. */
  lemma AnsweredAtOnce(s: State, i: nat)
    requires i < |s.queue| && s.queue[i].DebounceDone? && s.queue[i].outcome.Expired? && !s.inProgress && !s.shutdown
    ensures Next(s, Handle(i)).starts == s.starts + 1 && !Next(s, Handle(i)).woken
  {
    assert !Taken(s, i).shutdown && !Taken(s, i).inProgress;
  }

  lemma ScanOver(s: State)
    requires Inv(s)
    ensures var t := Next(s, Complete({})); Inv(t) && !t.inProgress && t.starts == s.starts && t.shutdown == s.shutdown
    ensures forall e :: e in s.queue ==> e in Next(s, Complete({})).queue
  {
    NextKeeps(s, Complete({}));
  }

  lemma WaitOver(s: State)
    requires Inv(s) && Waiting(s)
    ensures var t := Next(s, Expire); Inv(t) && t.starts == s.starts && t.shutdown == s.shutdown
    ensures DebounceDone(s.instance, Expired) in Next(s, Expire).queue
  {
    NextKeeps(s, Expire);
  }

  /** A wait that has run out, of whatever wake-up, is still to be handled. */
  predicate ExpiredQueued(s: State) {
    exists i :: 0 <= i < |s.queue| && IsExpired(s.queue[i])
  }

  predicate IsExpired(e: Event) {
    e.DebounceDone? && e.outcome.Expired?
  }

  /** Without any further wake-up a scan can follow: the timer runs out, the scan in progress calls
      back, and the completion starts a scan. */
  lemma RescanFollows(s: State) returns (more: seq<Input>)
    requires Inv(s) && !s.shutdown && Waiting(s)
    ensures Signal !in more && Run(s, more).starts == s.starts + 1
  {
    var t := Next(s, Expire);
    var u := Next(t, Complete({}));
    WaitOver(s);
    ScanOver(t);
    assert DebounceDone(s.instance, Expired) in u.queue;
    var i :| 0 <= i < |u.queue| && u.queue[i] == DebounceDone(s.instance, Expired);
    AnsweredAtOnce(u, i);
    RunThree(s, Expire, Complete({}), Handle(i));
    more := [Expire, Complete({}), Handle(i)];
  }

  /** So it can when a wait has run out already. */
  lemma QueuedFollows(s: State) returns (more: seq<Input>)
    requires Inv(s) && !s.shutdown && ExpiredQueued(s)
    ensures Signal !in more && Run(s, more).starts == s.starts + 1
  {
    var j :| 0 <= j < |s.queue| && IsExpired(s.queue[j]);
    var t := Next(s, Complete({}));
    ScanOver(s);
    assert s.queue[j] in t.queue;
    var i :| 0 <= i < |t.queue| && t.queue[i] == s.queue[j];
    AnsweredAtOnce(t, i);
    RunTwo(s, Complete({}), Handle(i));
    more := [Complete({}), Handle(i)];
  }

  /** No wait for a rescan is armed, and none has run out. */
  predicate Hopeless(s: State) {
    !s.timer.Debounce? && !ExpiredQueued(s)
  }

  /** `t` goes on from `s` without hope and without a scan. */
  predicate NothingFrom(s: State, t: State) {
    Hopeless(t) && t.starts == s.starts && t.woken == s.woken
  }

  lemma TakenHopeless(s: State, i: nat)
    requires Hopeless(s) && i < |s.queue|
    ensures NothingFrom(s, Taken(s, i)) && !IsExpired(s.queue[i])
  {
    assert forall e :: e in Taken(s, i).queue ==> e in s.queue;
  }

  lemma RemovalHopeless(s: State)
    requires Hopeless(s)
    ensures NothingFrom(s, RemovalStarted(s))
  {
  }

  lemma HandledHopeless(s: State, e: Event)
    requires Hopeless(s) && !IsExpired(e)
    ensures NothingFrom(s, Handled(s, e))
  {
    match e
    case DebounceDone(count, outcome) => assert Debounced(s, count, outcome) == s;
    case RemovalDone(_) =>
    case Publish(_, _) =>
    case Published(_, keys) => RemovalHopeless(Posted(s, keys));
  }

  lemma EndedHopeless(s: State, outcome: Outcome)
    requires Hopeless(s)
    ensures NothingFrom(s, WaitEnded(s, outcome))
  {
  }

  lemma CompletedHopeless(s: State, held: set<Key>)
    requires Hopeless(s) && s.active != []
    ensures NothingFrom(s, Completed(s, 0, held))
  {
  }

  lemma HopelessStep(s: State, input: Input)
    requires Hopeless(s) && input != Signal
    ensures NothingFrom(s, Next(s, input))
  {
    match input
    case Expire => EndedHopeless(s, Expired);
    case Fail => EndedHopeless(s, Failed);
    case Handle(i) =>
      if i < |s.queue| {
        TakenHopeless(s, i);
        HandledHopeless(Taken(s, i), s.queue[i]);
      }
    case Complete(held) =>
      if s.active != [] {
        CompletedHopeless(s, held);
      }
    case _ =>
  }

  /** Such a state stays so, and starts nothing, until the next wake-up. */
  lemma {:induction false} StaysHopeless(s: State, more: seq<Input>)
    requires Hopeless(s) && Signal !in more
    ensures NothingFrom(s, Run(s, more))
  {
    if more != [] {
      var init := more[..|more| - 1];
      assert forall x :: x in init ==> x in more;
      StaysHopeless(s, init);
      HopelessStep(Run(s, init), more[|more| - 1]);
    }
  }

  /** A wake-up that no scan has answered yet can still be answered without another one, if and only if
      its wait has not ended with an error or an earlier wait has run out and is still to be handled. */
  lemma RescanFollowsExactly(inputs: seq<Input>)
    requires Run(INITIAL, inputs).woken && !Run(INITIAL, inputs).shutdown
    ensures var s := Run(INITIAL, inputs);
            (exists more :: Signal !in more && Run(s, more).starts > s.starts) <==> !s.failed || ExpiredQueued(s)
  {
    Reachable(inputs);
    var s := Run(INITIAL, inputs);
    if !s.failed {
      var more := RescanFollows(s);
    } else if ExpiredQueued(s) {
      var more := QueuedFollows(s);
    } else {
      assert Hopeless(s);
      forall more | Signal !in more ensures Run(s, more).starts == s.starts {
        StaysHopeless(s, more);
      }
    }
  }

  /** A wake-up that is lost: its wait fails, and nothing but another wake-up starts a scan. */
  lemma LostExample(more: seq<Input>)
    requires Signal !in more
    ensures var s := Run(INITIAL, [Signal, Fail]);
            s.woken && !s.shutdown && !Waiting(s) && Run(s, more).starts == s.starts && Run(s, more).woken
  {
    RunTwo(INITIAL, Signal, Fail);
    var s := Run(INITIAL, [Signal, Fail]);
    assert s.queue == [DebounceDone(1, Failed)];
    StaysHopeless(s, more);
  }

  /** A wake-up whose wait fails and that the wait of an earlier one answers. */
  lemma OlderAnswersExample()
    ensures var s := Run(INITIAL, [Signal, Expire, Signal, Fail]);
            && s.woken && s.failed && !s.shutdown
            && Next(s, Handle(0)).starts == s.starts + 1 && !Next(s, Handle(0)).woken
  {
    RunTwo(INITIAL, Signal, Expire);
    var t := Run(INITIAL, [Signal, Expire]);
    assert t == INITIAL.(instance := 1, woken := true, queue := [DebounceDone(1, Expired)]);
    RunTwo(t, Signal, Fail);
    RunConcat(INITIAL, [Signal, Expire], [Signal, Fail]);
    assert [Signal, Expire] + [Signal, Fail] == [Signal, Expire, Signal, Fail];
    SecondFails(t);
    AnsweredAtOnce(Run(t, [Signal, Fail]), 0);
  }

  lemma SecondFails(t: State)
    requires t == INITIAL.(instance := 1, woken := true, queue := [DebounceDone(1, Expired)])
    ensures Next(Next(t, Signal), Fail) ==
            t.(instance := 2, failed := true, queue := [DebounceDone(1, Expired), DebounceDone(2, Failed)])
  {
    assert Next(t, Signal) == t.(instance := 2, timer := Debounce(2));
  }

  /** No scan ever prunes anything, as none finds a record missing. */
  lemma NothingPruned(inputs: seq<Input>, i: nat)
    requires i < |Run(INITIAL, inputs).log|
    ensures Run(INITIAL, inputs).log[i].pruned == {}
  {
    Reachable(inputs);
  }

  lemma {:induction false} LiveUntilPruned(log: seq<Entry>, i: nat, k: Key)
    requires i < |log| && k in log[i].announced && forall m :: i < m < |log| ==> k !in log[m].pruned
    ensures k in Live(log)
  {
    var init := log[..|log| - 1];
    if i < |init| {
      LiveUntilPruned(init, i, k);
    }
  }

  /** In any log of scans, a record announced by two of them was pruned in between. */
  lemma AnnouncedOnce(log: seq<Entry>, i: nat, j: nat, k: Key)
    requires LogFresh(log) && i < j < |log| && k in log[i].announced && k in log[j].announced
    ensures exists m :: i < m < j && k in log[m].pruned
  {
    assert log[j].announced !! Live(log[..j]);
    if forall m :: i < m < j ==> k !in log[m].pruned {
      LiveUntilPruned(log[..j], i, k);
    }
  }

  /** So no record is ever announced twice. */
  lemma AnnouncedAtMostOnce(inputs: seq<Input>, i: nat, j: nat)
    requires i < j < |Run(INITIAL, inputs).log|
    ensures Run(INITIAL, inputs).log[i].announced !! Run(INITIAL, inputs).log[j].announced
  {
    Reachable(inputs);
    var log := Run(INITIAL, inputs).log;
    forall k | k in log[i].announced ensures k !in log[j].announced {
      if k in log[j].announced {
        AnnouncedOnce(log, i, j, k);
      }
    }
  }

  /** The configuration never loses a record, and posting to D-Bus never inserts one. */
  lemma ConfigurationGrows(inputs: seq<Input>, next: Input)
    ensures var s := Run(INITIAL, inputs);
            && s.system <= Next(s, next).system
            && (next.Add? || s.system == Next(s, next).system)
  {
    Reachable(inputs);
    if !next.Add? {
      SystemStep(Run(INITIAL, inputs), next);
    }
  }

  lemma SystemStep(s: State, next: Input)
    requires Inv(s) && !next.Add?
    ensures Next(s, next).system == s.system
  {
    match next
    case Handle(i) =>
      if i < |s.queue| {
        assert Kept(s.queue[i], s.system);
        HandledSystem(Taken(s, i), s.queue[i]);
      }
    case Complete(held) =>
      if s.active != [] {
        CompletedNone(s, held);
      }
    case _ => PlainSystem(s, next);
  }

  lemma PlainSystem(s: State, next: Input)
    requires !next.Add? && !next.Handle? && !next.Complete?
    ensures Next(s, next).system == s.system
  {
    match next
    case Signal => TimerSystem(s, Expired);
    case Expire => TimerSystem(s, Expired);
    case Fail => TimerSystem(s, Failed);
    case _ =>
  }

  lemma TimerSystem(s: State, outcome: Outcome)
    ensures Woken(s).system == s.system == WaitEnded(s, outcome).system
  {
  }

  lemma HandledSystem(s: State, e: Event)
    requires Kept(e, s.system)
    ensures Handled(s, e).system == s.system
  {
    match e
    case Published(_, keys) => assert Posted(s, keys) == s;
    case _ =>
  }

  /** Between scans the system configuration holds exactly what was announced and not pruned since. */
  lemma SystemIsLive(inputs: seq<Input>)
    requires Run(INITIAL, inputs).active == []
    ensures Run(INITIAL, inputs).system == Live(Run(INITIAL, inputs).log)
  {
    Reachable(inputs);
  }

  /** The entity manager's own state, changed by its handlers; the event queue and the history are
      what the proofs need to know of the outside. */
  class EntityManager {
    /** The "Name" of each record. */
    const nameOf: Key -> string
    var propertiesChangedInProgress: bool
    var propertiesChangedInstance: nat
    var propertiesChangedTimer: Wait
    var scannedPowerOff: bool
    var scannedPowerOn: bool
    var lastJson: set<Key>
    var systemConfiguration: set<Key>
    ghost var outside: State

    /** The state the class stands for. */
    ghost function View(): State
      reads this
    {
      outside.(inProgress := propertiesChangedInProgress, instance := propertiesChangedInstance,
               timer := propertiesChangedTimer,
               scannedPowerOff := scannedPowerOff, scannedPowerOn := scannedPowerOn, lastJson := lastJson,
               system := systemConfiguration)
    }

    constructor (nameOf: Key -> string)
      ensures View() == INITIAL && this.nameOf == nameOf
    {
      this.nameOf := nameOf;
      propertiesChangedInProgress, propertiesChangedInstance, propertiesChangedTimer := false, 0, Idle;
      scannedPowerOff, scannedPowerOn, lastJson, systemConfiguration := false, false, {}, {};
      outside := INITIAL;
    }

    /** `expires_after` and `async_wait`: the wait before is cancelled. */
    method Arm(w: Wait)
      modifies this
      ensures View() == Armed(old(View()), w)
    {
      outside := outside.(queue := outside.queue + Cancelled(propertiesChangedTimer));
      propertiesChangedTimer := w;
    }

    method PropertiesChangedCallback(shutdownInProgress: bool)
      requires shutdownInProgress == View().shutdown
      modifies this
      ensures View() == Woken(old(View()))
    {
      if shutdownInProgress {
        return;
      }
      propertiesChangedInstance := propertiesChangedInstance + 1;
      outside := outside.(woken := true, failed := false);
      var count := propertiesChangedInstance;
      Arm(Debounce(count));
    }

    method PropertiesChangedCallbackDebounced(count: nat, outcome: Outcome, shutdownInProgress: bool)
      requires shutdownInProgress == View().shutdown
      modifies this
      ensures View() == Debounced(old(View()), count, outcome)
    {
      if outcome.Aborted? {
        return;
      }
      if outcome.Failed? {
        return;
      }
      if shutdownInProgress {
        return;
      }
      if propertiesChangedInProgress {
        PropertiesChangedCallback(shutdownInProgress);
        return;
      }
      propertiesChangedInProgress := true;
      var oldConfiguration, missingConfigurations := systemConfiguration, systemConfiguration;
      var applied := CollectConfiguredNames(systemConfiguration);
      missingConfigurations := PruneMissingByName(missingConfigurations, applied);
      assert missingConfigurations == {};
      outside := outside.(active := outside.active + [ActiveScan(count, oldConfiguration, missingConfigurations)],
                          starts := outside.starts + 1, woken := false);
    }

    /** The names of the applied configurations. */
    method CollectConfiguredNames(configuration: set<Key>) returns (names: set<string>)
      ensures names == set key | key in configuration :: nameOf(key)
    {
      names := {};
      var rest := configuration;
      while rest != {}
        invariant rest <= configuration && names == set key | key in configuration - rest :: nameOf(key)
        decreases |rest|
      {
        var key :| key in rest;
        rest := rest - {key};
        names := names + {nameOf(key)};
      }
    }

    /** The missing records without those that have one of `names`. */
    method PruneMissingByName(missing: set<Key>, names: set<string>) returns (left: set<Key>)
      ensures left == set key | key in missing && nameOf(key) !in names
    {
      left := missing;
      var rest := missing;
      while rest != {}
        invariant rest <= missing && left == set key | key in missing && (key in rest || nameOf(key) !in names)
        decreases |rest|
      {
        var key :| key in rest;
        rest := rest - {key};
        if nameOf(key) in names {
          left := left - {key};
        }
      }
    }

    /** Prunes each missing record, unless its device cannot be seen without power. */
    method PruneMissing(missing: set<Key>, powerOn: bool, held: set<Key>)
      modifies this`systemConfiguration
      ensures systemConfiguration == old(systemConfiguration) - if powerOn then missing else missing - held
    {
      var rest := missing;
      while rest != {}
        invariant rest <= missing
        invariant systemConfiguration == old(systemConfiguration) -
                  if powerOn then missing - rest else missing - rest - held
        decreases |rest|
      {
        var name :| name in rest;
        if powerOn || name !in held {
          systemConfiguration := systemConfiguration - {name};
        }
        rest := rest - {name};
      }
    }

    /** A finished scan's callback: prune what was not seen again, hand on what is new. */
    method ScanCallback(ghost i: nat, count: nat, oldConfiguration: set<Key>, missing: set<Key>, powerOn: bool,
                        held: set<Key>)
      returns (newConfiguration: set<Key>)
      requires i < |View().active| && View().active[i] == ActiveScan(count, oldConfiguration, missing)
               && powerOn == View().powerOn
      modifies this
      ensures View() == Completed(old(View()), i, held)
      ensures View().queue == old(View().queue) + [Publish(count, newConfiguration)]
    {
      PruneMissing(missing, powerOn, held);
      ghost var pruned := if powerOn then missing else missing - held;
      newConfiguration := DeriveNewConfiguration(oldConfiguration, systemConfiguration);
      propertiesChangedInProgress := false;
      outside := outside.(active := outside.active[..i] + outside.active[i + 1..],
                          queue := outside.queue + [Publish(count, newConfiguration)],
                          log := outside.log + [Entry(pruned, newConfiguration)]);
    }

    method PublishNewConfiguration(count: nat, newConfiguration: set<Key>)
      modifies this
      ensures View() == old(View()).(queue := old(View()).queue + [Published(count, newConfiguration)])
    {
      outside := outside.(queue := outside.queue + [Published(count, newConfiguration)]);
    }

    /** Looks the new records up, one after the other. */
    method PostToDbus(newConfiguration: set<Key>)
      modifies this`systemConfiguration
      ensures systemConfiguration == old(systemConfiguration) + newConfiguration
    {
      var rest := newConfiguration;
      while rest != {}
        invariant rest <= newConfiguration
                  && systemConfiguration == old(systemConfiguration) + (newConfiguration - rest)
        decreases |rest|
      {
        var configId :| configId in rest;
        rest := rest - {configId};
        systemConfiguration := systemConfiguration + {configId};
      }
    }

    /** The second function posted by the publication. */
    method AfterPublication(count: nat, newConfiguration: set<Key>, powerOn: bool)
      requires powerOn == View().powerOn
      modifies this
      ensures View() == Handled(old(View()), Published(count, newConfiguration))
    {
      PostToDbus(newConfiguration);
      assert View() == Posted(old(View()), newConfiguration);
      if count == propertiesChangedInstance {
        StartRemovedTimer(powerOn);
      }
    }

    method StartRemovedTimer(powerOn: bool)
      requires powerOn == View().powerOn
      modifies this
      ensures View() == RemovalStarted(old(View()))
    {
      if systemConfiguration == {} || lastJson == {} {
        return;
      }
      if scannedPowerOn {
        return;
      }
      if !powerOn && scannedPowerOff {
        return;
      }
      Arm(Removal);
    }

    method RemovalTimerDone(aborted: bool, powerOn: bool)
      requires powerOn == View().powerOn
      modifies this
      ensures View() == Handled(old(View()), RemovalDone(aborted))
    {
      if aborted {
        return;
      }
      scannedPowerOff := true;
      if powerOn {
        scannedPowerOn := true;
      }
    }
  }

  /** Erases what was there before. */
  method DeriveNewConfiguration(oldConfiguration: set<Key>, configuration: set<Key>)
    returns (newConfiguration: set<Key>)
    ensures newConfiguration == configuration - oldConfiguration
  {
    newConfiguration := configuration;
    var rest := configuration;
    while rest != {}
      invariant rest <= configuration && newConfiguration == configuration - (oldConfiguration - rest)
      decreases |rest|
    {
      var key :| key in rest;
      if key in oldConfiguration {
        newConfiguration := newConfiguration - {key};
      }
      rest := rest - {key};
    }
  }
}

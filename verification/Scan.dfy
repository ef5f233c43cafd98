/** The scan chain: configurations enable one another through FOUND, and passes are repeated until
    one passes nothing new. */
module Scan {
  import opened Bytes
  import opened Probe

  /** A configuration file. `probe` is the parsed "Probe" field: None when it is missing, [] when it
      cannot be parsed. `name` is None when it is missing or not a string. */
  datatype Config = Config(name: Option<string>, probe: Option<seq<Token>>)

  /** What stays the same during a chain: the bus, the names a configuration's new devices get, and the
      names its devices get back from the last boot's records. */
  datatype Rules = Rules(bus: Bus, deviceNames: Config -> seq<string>, restoredNames: Config -> seq<string>)

  predicate Formed(c: Config) {
    c.name.Some? && c.probe.Some?
  }

  predicate Parsed(c: Config) {
    Formed(c) ==> c.probe.value != []
  }

  /** The names a configuration that passes adds to the passed ones at once. */
  function Pushed(rules: Rules, c: Config): seq<string>
    requires Formed(c)
  {
    [c.name.value] + rules.deviceNames(c)
  }

  /** The names it puts into the system configuration, passed from the next pass on. */
  function Stored(rules: Rules, c: Config): seq<string> {
    rules.deviceNames(c) + rules.restoredNames(c)
  }

  function Contributes(rules: Rules, c: Config): seq<string>
    requires Formed(c)
  {
    Pushed(rules, c) + rules.restoredNames(c)
  }

  predicate Within<T(==)>(a: seq<T>, b: seq<T>) {
    forall x :: x in a ==> x in b
  }

  predicate Passes(rules: Rules, c: Config, passed: seq<string>) {
    Formed(c) && Verdict(rules.bus, passed, c.probe.value)
  }

  /** The seed is in, and so is what every configuration adds that passes and was not applied before. */
  predicate Closed(rules: Rules, all: seq<Config>, seed: seq<string>, names: seq<string>) {
    && Within(seed, names)
    && forall c :: c in all && Passes(rules, c, names) && c.name.value !in seed ==> Within(Contributes(rules, c), names)
  }

  /** `n` was there from the start or was added by a configuration all of whose names are passed. */
  ghost predicate Justified(rules: Rules, all: seq<Config>, seed: seq<string>, passed: seq<string>, n: string) {
    || n in seed
    || exists c :: c in all && Formed(c) && n in Contributes(rules, c) && Within(Contributes(rules, c), passed)
  }

  /** No more is passed than in any closed set. */
  ghost predicate Least(rules: Rules, all: seq<Config>, seed: seq<string>, passed: seq<string>) {
    forall names :: Closed(rules, all, seed, names) ==> Within(passed, names)
  }

  ghost predicate Sound(rules: Rules, all: seq<Config>, seed: seq<string>, passed: seq<string>,
                        configured: seq<string>)
  {
    && Within(seed, passed + configured)
    && (forall n :: n in passed + configured ==> Justified(rules, all, seed, passed + configured, n))
    && Least(rules, all, seed, passed) && Least(rules, all, seed, configured)
  }

  lemma SoundStart(rules: Rules, all: seq<Config>, seed: seq<string>, passed: seq<string>, configured: seq<string>)
    requires Sound(rules, all, seed, passed, configured)
    ensures Sound(rules, all, seed, passed + configured, configured)
    ensures Within(seed, passed + configured)
  {
    var reached, reached' := passed + configured, passed + configured + configured;
    assert forall x :: x in reached <==> x in reached';
    forall n | n in reached' ensures Justified(rules, all, seed, reached', n) {
      assert Justified(rules, all, seed, reached, n);
    }
  }

  lemma LeastStep(rules: Rules, all: seq<Config>, seed: seq<string>, passed: seq<string>, c: Config)
    requires Least(rules, all, seed, passed) && c in all && Passes(rules, c, passed) && c.name.value !in seed
    ensures Least(rules, all, seed, Contributes(rules, c))
  {
    forall names | Closed(rules, all, seed, names) ensures Within(Contributes(rules, c), names) {
      VerdictMonotone(rules.bus, passed, names, c.probe.value);
    }
  }

  lemma SoundStep(rules: Rules, all: seq<Config>, seed: seq<string>, passed: seq<string>, configured: seq<string>,
                  c: Config)
    requires Sound(rules, all, seed, passed, configured)
    requires c in all && Passes(rules, c, passed) && c.name.value !in seed
    ensures Sound(rules, all, seed, passed + Pushed(rules, c), configured + Stored(rules, c))
  {
    LeastStep(rules, all, seed, passed, c);
    var passed', configured' := passed + Pushed(rules, c), configured + Stored(rules, c);
    var reached, reached' := passed + configured, passed' + configured';
    assert forall x :: x in reached ==> x in reached';
    assert Within(Contributes(rules, c), reached');
    forall n | n in reached' ensures Justified(rules, all, seed, reached', n) {
      if n !in Contributes(rules, c) {
        assert Justified(rules, all, seed, reached, n);
      }
    }
  }

  /** Still to be probed, not a configuration at all, or known by name. */
  predicate Handled(configurations: seq<Config>, passed: seq<string>, c: Config) {
    c in configurations || !Formed(c) || c.name.value in passed
  }

  /** What a finished chain leaves. */
  ghost predicate Finished(rules: Rules, all: seq<Config>, seed: seq<string>, passed: seq<string>,
                           surviving: seq<Config>)
  {
    && Within(seed, passed)
    && Least(rules, all, seed, passed)
    && (forall n :: n in passed ==> Justified(rules, all, seed, passed, n))
    && (forall c :: c in all ==> Handled(surviving, passed, c))
    && ((forall c :: c in all ==> Parsed(c)) ==> forall c :: c in surviving ==> Formed(c) && !Passes(rules, c, passed))
  }

  /** A configuration that adds another one's name adds all that the other one would. */
  predicate NamesCovered(rules: Rules, all: seq<Config>) {
    forall c, d :: c in all && d in all && Formed(c) && Formed(d) && c.name.value in Contributes(rules, d) ==>
      Within(Contributes(rules, c), Contributes(rules, d))
  }

  /** The passed names are the least closed set. */
  lemma LeastFixedPoint(rules: Rules, all: seq<Config>, seed: seq<string>, passed: seq<string>, surviving: seq<Config>)
    requires Finished(rules, all, seed, passed, surviving)
    requires forall c :: c in all ==> Parsed(c)
    requires NamesCovered(rules, all)
    ensures Closed(rules, all, seed, passed)
    ensures forall names :: Closed(rules, all, seed, names) ==> Within(passed, names)
  {
    forall c | c in all && Passes(rules, c, passed) && c.name.value !in seed
      ensures Within(Contributes(rules, c), passed)
    {
      assert Handled(surviving, passed, c);
      assert Justified(rules, all, seed, passed, c.name.value);
    }
  }

  /** Neither the order of the configurations nor that of the probes changes what passes. */
  lemma OrderDoesNotMatter(rules: Rules, all: seq<Config>, all': seq<Config>, seed: seq<string>,
                           passed: seq<string>, passed': seq<string>, surviving: seq<Config>, surviving': seq<Config>)
    requires forall c :: c in all <==> c in all'
    requires Finished(rules, all, seed, passed, surviving) && Finished(rules, all', seed, passed', surviving')
    requires (forall c :: c in all ==> Parsed(c)) && NamesCovered(rules, all)
    ensures forall n :: n in passed <==> n in passed'
  {
    LeastFixedPoint(rules, all, seed, passed, surviving);
    LeastFixedPoint(rules, all', seed, passed', surviving');
    assert Closed(rules, all, seed, passed') && Closed(rules, all', seed, passed);
  }

  function NamesOf(all: seq<Config>): set<string> {
    set c | c in all && c.name.Some? :: c.name.value
  }

  /** The names of configurations that have not passed yet. */
  function Unpassed(all: seq<Config>, passed: seq<string>): set<string> {
    NamesOf(all) - set n | n in passed
  }

  lemma UnpassedDrops(all: seq<Config>, passed: seq<string>, passed': seq<string>)
    requires Within(passed, passed')
    ensures |Unpassed(all, passed')| <= |Unpassed(all, passed)|
    ensures (exists c :: c in all && c.name.Some? && c.name.value !in passed && c.name.value in passed') ==>
              |Unpassed(all, passed')| < |Unpassed(all, passed)|
  {
    Smaller(Unpassed(all, passed'), Unpassed(all, passed));
    if c :| c in all && c.name.Some? && c.name.value !in passed && c.name.value in passed' {
      assert c.name.value in Unpassed(all, passed);
      Smaller(Unpassed(all, passed'), Unpassed(all, passed) - {c.name.value});
    }
  }

  lemma Smaller(a: set<string>, b: set<string>)
    requires a <= b
    ensures |a| <= |b|
  {
    if a != {} {
      var x :| x in a;
      Smaller(a - {x}, b - {x});
    }
  }

  // ---- one pass and the chain, as functions ----

  /** What a walk over the configurations leaves: those kept, those whose probes wait for the bus, the
      names, whether anything has passed, and whether all probes could be parsed. */
  datatype Pass = Pass(left: seq<Config>, deferred: seq<Config>, passed: seq<string>, configured: seq<string>,
                       progress: bool, ok: bool)

  /** The probe asks for something on the bus. */
  predicate Asks(c: Config)
    requires Formed(c)
  {
    exists i :: 0 <= i < |c.probe.value| && c.probe.value[i].DbusProbe?
  }

  predicate Dropped(c: Config, passed: seq<string>) {
    !Formed(c) || c.name.value in passed
  }

  function Keep(c: Config, r: Pass): Pass {
    r.(left := [c] + r.left)
  }

  function PassOver(rules: Rules, cs: seq<Config>, passed: seq<string>, configured: seq<string>): Pass {
    if cs == [] then Pass([], [], passed, configured, false, true)
    else
      var c, rest := cs[0], cs[1..];
      if Dropped(c, passed) then PassOver(rules, rest, passed, configured)
      else if c.probe.value == [] then Pass(cs, [], passed, configured, false, false)
      else if Asks(c) then
        var r := PassOver(rules, rest, passed, configured);
        Keep(c, r.(deferred := [c] + r.deferred))
      else if Passes(rules, c, passed) then
        Keep(c, PassOver(rules, rest, passed + Pushed(rules, c), configured + Stored(rules, c)).(progress := true))
      else Keep(c, PassOver(rules, rest, passed, configured))
  }

  /** What a pass drops is malformed or known; what it keeps was neither when the pass started. */
  lemma {:induction false} PassDropsExactly(rules: Rules, cs: seq<Config>, passed: seq<string>, configured: seq<string>)
    ensures var p := PassOver(rules, cs, passed, configured);
            && Within(p.left, cs) && Within(passed, p.passed) && Within(configured, p.configured)
            && (forall c :: c in cs ==> Handled(p.left, p.passed, c))
            && (p.ok ==> forall c :: c in p.left ==> !Dropped(c, passed))
  {
    if cs != [] && !(!Dropped(cs[0], passed) && cs[0].probe.value == []) {
      var c, rest := cs[0], cs[1..];
      assert cs == [c] + rest;
      if !Dropped(c, passed) && !Asks(c) && Passes(rules, c, passed) {
        PassDropsExactly(rules, rest, passed + Pushed(rules, c), configured + Stored(rules, c));
      } else {
        PassDropsExactly(rules, rest, passed, configured);
      }
    }
  }

  /** A pass that makes progress has passed a name that was not passed before. */
  lemma {:induction false} PassGains(rules: Rules, cs: seq<Config>, passed: seq<string>, configured: seq<string>)
    ensures var p := PassOver(rules, cs, passed, configured);
            p.progress ==> exists c :: c in cs && c.name.Some? && c.name.value !in passed && c.name.value in p.passed
  {
    if cs != [] && !(!Dropped(cs[0], passed) && cs[0].probe.value == []) {
      var c, rest := cs[0], cs[1..];
      assert cs == [c] + rest;
      if !Dropped(c, passed) && !Asks(c) && Passes(rules, c, passed) {
        PassDropsExactly(rules, rest, passed + Pushed(rules, c), configured + Stored(rules, c));
        assert c.name.value in Pushed(rules, c);
      } else {
        PassGains(rules, rest, passed, configured);
      }
    }
  }

  lemma UnpassedWithin(cs: seq<Config>, all: seq<Config>, passed: seq<string>)
    requires Within(cs, all)
    ensures |Unpassed(cs, passed)| <= |Unpassed(all, passed)|
  {
    Smaller(Unpassed(cs, passed), Unpassed(all, passed));
  }

  lemma PassProgress(rules: Rules, cs: seq<Config>, passed: seq<string>, configured: seq<string>)
    ensures var p := PassOver(rules, cs, passed + configured, configured);
            p.progress ==> |Unpassed(p.left, p.passed)| < |Unpassed(cs, passed)|
  {
    var p := PassOver(rules, cs, passed + configured, configured);
    PassDropsExactly(rules, cs, passed + configured, configured);
    PassGains(rules, cs, passed + configured, configured);
    UnpassedWithin(p.left, cs, p.passed);
    UnpassedDrops(cs, passed, passed + configured);
    UnpassedDrops(cs, passed + configured, p.passed);
  }

  /** The chain of passes when no probe waits for the bus. */
  function Chain(rules: Rules, cs: seq<Config>, passed: seq<string>, configured: seq<string>): Pass
    decreases |Unpassed(cs, passed)|
  {
    var p := PassOver(rules, cs, passed + configured, configured);
    PassProgress(rules, cs, passed, configured);
    if p.progress then Chain(rules, p.left, p.passed, p.configured) else p
  }

  lemma UnpassedSince(all: seq<Config>, before: seq<string>, start: seq<string>, after: seq<string>)
    requires Within(before, start) && Within(start, after)
    requires exists c :: c in all && c.name.Some? && c.name.value !in start && c.name.value in after
    ensures |Unpassed(all, after)| < |Unpassed(all, before)|
  {
    UnpassedDrops(all, before, start);
    UnpassedDrops(all, start, after);
  }

  /** The chain goes on behind its first pass, with none but immediate probes if those are all it had. */
  lemma ChainNext(rules: Rules, cs: seq<Config>, passed: seq<string>, configured: seq<string>)
    ensures var p := PassOver(rules, cs, passed + configured, configured);
            && Chain(rules, cs, passed, configured)
               == (if p.progress then Chain(rules, p.left, p.passed, p.configured) else p)
            && (Immediate(cs) ==> Immediate(p.left))
  {
    PassDropsExactly(rules, cs, passed + configured, configured);
  }

  /** No probe asks for anything on the bus. */
  predicate Immediate(cs: seq<Config>) {
    forall c :: c in cs && Formed(c) ==> !Asks(c)
  }

  lemma {:induction false} NothingDeferred(rules: Rules, cs: seq<Config>, passed: seq<string>, configured: seq<string>)
    requires Immediate(cs)
    ensures PassOver(rules, cs, passed, configured).deferred == []
  {
    if cs != [] && !(!Dropped(cs[0], passed) && cs[0].probe.value == []) {
      var c, rest := cs[0], cs[1..];
      assert cs == [c] + rest;
      if !Dropped(c, passed) && Passes(rules, c, passed) {
        NothingDeferred(rules, rest, passed + Pushed(rules, c), configured + Stored(rules, c));
      } else {
        NothingDeferred(rules, rest, passed, configured);
      }
    }
  }

  lemma {:induction false} PassSound(rules: Rules, all: seq<Config>, seed: seq<string>, cs: seq<Config>,
                                     passed: seq<string>, configured: seq<string>)
    requires Sound(rules, all, seed, passed, configured) && Within(cs, all) && Within(seed, passed)
    ensures var p := PassOver(rules, cs, passed, configured); Sound(rules, all, seed, p.passed, p.configured)
  {
    if cs != [] && !(!Dropped(cs[0], passed) && cs[0].probe.value == []) {
      var c, rest := cs[0], cs[1..];
      assert cs == [c] + rest;
      if !Dropped(c, passed) && !Asks(c) && Passes(rules, c, passed) {
        SoundStep(rules, all, seed, passed, configured, c);
        PassSound(rules, all, seed, rest, passed + Pushed(rules, c), configured + Stored(rules, c));
      } else {
        PassSound(rules, all, seed, rest, passed, configured);
      }
    }
  }

  /** A pass without progress changes no names, and nothing it keeps passes. */
  lemma {:induction false} PassIdle(rules: Rules, cs: seq<Config>, passed: seq<string>, configured: seq<string>)
    requires Immediate(cs) && (forall c :: c in cs ==> Parsed(c))
    ensures var p := PassOver(rules, cs, passed, configured);
            && p.ok
            && (!p.progress ==>
                  p.passed == passed && p.configured == configured
                  && forall c :: c in p.left ==> !Passes(rules, c, passed))
  {
    if cs != [] {
      var c, rest := cs[0], cs[1..];
      assert cs == [c] + rest;
      if !Dropped(c, passed) && Passes(rules, c, passed) {
        PassIdle(rules, rest, passed + Pushed(rules, c), configured + Stored(rules, c));
      } else {
        PassIdle(rules, rest, passed, configured);
        var r, p := PassOver(rules, rest, passed, configured), PassOver(rules, cs, passed, configured);
        assert Parsed(c);
        assert p == if Dropped(c, passed) then r else Keep(c, r);
      }
    }
  }

  /** The chain, as a function, leaves what every chain leaves. */
  lemma {:induction false} ChainFinished(rules: Rules, all: seq<Config>, seed: seq<string>, cs: seq<Config>,
                                         passed: seq<string>, configured: seq<string>)
    requires Sound(rules, all, seed, passed, configured) && Within(cs, all)
    requires forall c :: c in all ==> Handled(cs, passed, c)
    requires Immediate(all) && forall c :: c in all ==> Parsed(c)
    ensures var r := Chain(rules, cs, passed, configured); Finished(rules, all, seed, r.passed, r.left)
    decreases |Unpassed(cs, passed)|
  {
    var start := passed + configured;
    var p := PassOver(rules, cs, start, configured);
    SoundStart(rules, all, seed, passed, configured);
    PassSound(rules, all, seed, cs, start, configured);
    PassDropsExactly(rules, cs, start, configured);
    PassProgress(rules, cs, passed, configured);
    forall c | c in all ensures Handled(p.left, p.passed, c) {
      assert Handled(cs, passed, c);
    }
    PassIdle(rules, cs, start, configured);
    if p.progress {
      ChainFinished(rules, all, seed, p.left, p.passed, p.configured);
    } else {
      JustifiedWithin(rules, all, seed, p.passed, p.configured);
    }
  }

  lemma JustifiedWithin(rules: Rules, all: seq<Config>, seed: seq<string>, passed: seq<string>, configured: seq<string>)
    requires Sound(rules, all, seed, passed, configured) && Within(configured, passed)
    ensures Within(seed, passed) && forall n :: n in passed ==> Justified(rules, all, seed, passed, n)
  {
    var reached := passed + configured;
    assert forall x :: x in reached <==> x in passed;
    forall n | n in passed ensures Justified(rules, all, seed, passed, n) {
      assert Justified(rules, all, seed, reached, n);
    }
  }

  /** A walk that has kept some, deferred some, and goes on with the rest. */
  function Resumed(kept: seq<Config>, deferred: seq<Config>, progress: bool, r: Pass): Pass {
    r.(left := kept + r.left, deferred := deferred + r.deferred, progress := progress || r.progress)
  }

  /** The names behind a started probe, and whether it has passed: one that is deferred has not yet. */
  function Begun(rules: Rules, c: Config, passed: seq<string>, configured: seq<string>)
    : (bool, seq<string>, seq<string>)
    requires Formed(c)
  {
    if !Asks(c) && Passes(rules, c, passed) then (true, passed + Pushed(rules, c), configured + Stored(rules, c))
    else (false, passed, configured)
  }

  /** One more step of the walk: a configuration is dropped, cannot be parsed, or has its probe started. */
  lemma ResumeDropped(rules: Rules, cs: seq<Config>, it: nat, deferred: seq<Config>, progress: bool,
                      passed: seq<string>, configured: seq<string>)
    requires it < |cs| && Dropped(cs[it], passed)
    ensures var cs' := cs[..it] + cs[it + 1..];
            Resumed(cs[..it], deferred, progress, PassOver(rules, cs[it..], passed, configured))
            == Resumed(cs'[..it], deferred, progress, PassOver(rules, cs'[it..], passed, configured))
  {
    var cs' := cs[..it] + cs[it + 1..];
    assert cs[it..][1..] == cs[it + 1..];
    assert cs'[..it] == cs[..it] && cs'[it..] == cs[it + 1..];
  }

  lemma ResumeUnparsed(rules: Rules, cs: seq<Config>, it: nat, deferred: seq<Config>, progress: bool,
                       passed: seq<string>, configured: seq<string>)
    requires it < |cs| && !Dropped(cs[it], passed) && cs[it].probe.value == []
    ensures Resumed(cs[..it], deferred, progress, PassOver(rules, cs[it..], passed, configured))
            == Pass(cs, deferred, passed, configured, progress, false)
  {
    assert cs[..it] + cs[it..] == cs && deferred + [] == deferred;
  }

  lemma ResumeStarted(rules: Rules, cs: seq<Config>, it: nat, deferred: seq<Config>, progress: bool,
                      passed: seq<string>, configured: seq<string>)
    requires it < |cs| && !Dropped(cs[it], passed) && cs[it].probe.value != []
    ensures var c := cs[it];
            var (p, passed', configured') := Begun(rules, c, passed, configured);
            Resumed(cs[..it], deferred, progress, PassOver(rules, cs[it..], passed, configured))
            == Resumed(cs[..it + 1], if Asks(c) then deferred + [c] else deferred, progress || p,
                       PassOver(rules, cs[it + 1..], passed', configured'))
  {
    assert cs[it..][0] == cs[it] && cs[it..][1..] == cs[it + 1..];
    KeptMore(cs, it);
  }

  lemma ResumeEnd(rules: Rules, cs: seq<Config>, deferred: seq<Config>, progress: bool, passed: seq<string>,
                  configured: seq<string>)
    ensures Resumed(cs[..|cs|], deferred, progress, PassOver(rules, cs[|cs|..], passed, configured))
            == Pass(cs, deferred, passed, configured, progress, true)
  {
    assert cs[..|cs|] + [] == cs && cs[|cs|..] == [] && deferred + [] == deferred;
  }

  lemma KeptMore(cs: seq<Config>, it: nat)
    requires it < |cs|
    ensures forall left: seq<Config> :: cs[..it] + ([cs[it]] + left) == cs[..it + 1] + left
    ensures forall d: seq<Config>, e: seq<Config> :: d + ([cs[it]] + e) == (d + [cs[it]]) + e
  {
    assert cs[..it + 1] == cs[..it] + [cs[it]];
  }

  class PerformScan {
    const rules: Rules
    ghost const all: seq<Config>
    ghost const seed: seq<string>
    var configurations: seq<Config>
    var passedProbes: seq<string>
    /** The names in the system configuration. */
    var configured: seq<string>
    var passed: bool
    var callbacks: nat

    ghost predicate Valid()
      reads this
    {
      && Within(configurations, all)
      && (forall c :: c in all ==> Handled(configurations, passedProbes, c))
      && Sound(rules, all, seed, passedProbes, configured)
    }

    constructor (rules: Rules, configurations: seq<Config>, configured: seq<string>)
      ensures Valid() && this.rules == rules && all == this.configurations == configurations && seed == configured
      ensures passedProbes == [] && this.configured == configured && callbacks == 0
    {
      this.rules, this.configurations, this.configured := rules, configurations, configured;
      all, seed := configurations, configured;
      passedProbes, passed, callbacks := [], false, 0;
    }

    /** A probe that has passed: its names are passed from now on. */
    method UpdateSystemConfiguration(c: Config)
      requires Valid() && c in all && Passes(rules, c, passedProbes) && c.name.value !in seed
      modifies this`passed, this`passedProbes, this`configured
      ensures Valid() && passed
      ensures passedProbes == old(passedProbes) + Pushed(rules, c)
      ensures configured == old(configured) + Stored(rules, c)
    {
      SoundStep(rules, all, seed, passedProbes, configured, c);
      passed := true;
      passedProbes := passedProbes + [c.name.value] + rules.deviceNames(c);
      configured := configured + (rules.deviceNames(c) + rules.restoredNames(c));
      assert passedProbes == old(passedProbes) + Pushed(rules, c);
    }

    /** Progress of one pass: either nothing has passed, or a new name has. */
    ghost predicate Since(start: seq<string>)
      reads this
    {
      && (!passed ==> passedProbes == start && Within(configured, passedProbes))
      && Within(start, passedProbes)
      && (passed ==> exists c :: c in all && Formed(c) && c.name.value !in start && c.name.value in passedProbes)
    }

    ghost predicate Pending(start: seq<string>, c: Config)
    {
      c in all && Formed(c) && c.name.value !in start && c.name.value !in seed
    }

    /** The end of a probe's life: it is evaluated, and applied when it passes. */
    method PerformProbe(c: Config, ghost start: seq<string>)
      requires Valid() && Since(start) && Pending(start, c)
      modifies this`passed, this`passedProbes, this`configured
      ensures Valid() && Since(start) && (old(passed) ==> passed)
      ensures !passed ==> !Passes(rules, c, passedProbes)
      ensures passed == old(passed || Passes(rules, c, passedProbes))
      ensures passedProbes ==
              old(if Passes(rules, c, passedProbes) then passedProbes + Pushed(rules, c) else passedProbes)
      ensures configured == old(if Passes(rules, c, passedProbes) then configured + Stored(rules, c) else configured)
    {
      var ok, foundDevs := DoProbe(rules.bus, passedProbes, c.probe.value);
      if ok {
        UpdateSystemConfiguration(c);
        assert c.name.value in Pushed(rules, c);
      }
    }

    /** Those in front of `it` are well formed and, unless something has passed, do not pass. */
    ghost predicate Tried(it: nat, deferred: seq<Config>)
      reads this
      requires it <= |configurations|
    {
      forall i :: 0 <= i < it ==> (
        && Formed(configurations[i])
        && (configurations[i] in deferred || (!passed ==> !Passes(rules, configurations[i], passedProbes))))
    }

    /** A probe that asks for something on the bus is deferred, any other ends at once. */
    method StartProbe(c: Config, deferred: seq<Config>, ghost start: seq<string>) returns (deferred': seq<Config>)
      requires Valid() && Since(start) && Pending(start, c)
      modifies this`passed, this`passedProbes, this`configured
      ensures Valid() && Since(start) && (old(passed) ==> passed)
      ensures deferred' == if Asks(c) then deferred + [c] else deferred
      ensures !Asks(c) && !passed ==> !Passes(rules, c, passedProbes)
      ensures var (p, passed', configured') := Begun(rules, c, old(passedProbes), old(configured));
              passed == (old(passed) || p) && passedProbes == passed' && configured == configured'
    {
      if exists i :: 0 <= i < |c.probe.value| && c.probe.value[i].DbusProbe? {
        deferred' := deferred + [c];
      } else {
        deferred' := deferred;
        PerformProbe(c, start);
      }
    }

    /** Drops what is malformed or known and starts a probe for each of the rest. A probe that asks
        for nothing on the bus is evaluated at once, the others are left in `deferred`. */
    method ProcessConfigurations(ghost start: seq<string>) returns (ok: bool, deferred: seq<Config>)
      requires Valid() && !passed && passedProbes == start && Within(seed, start) && Within(configured, start)
      modifies this`configurations, this`passed, this`passedProbes, this`configured
      ensures Valid() && Since(start)
      ensures forall c :: c in deferred ==> Pending(start, c)
      ensures ok ==> Tried(|configurations|, deferred)
      ensures (forall c :: c in all ==> Parsed(c)) ==> ok
      ensures Pass(configurations, deferred, passedProbes, configured, passed, ok) ==
              old(PassOver(rules, configurations, passedProbes, configured))
    {
      deferred := [];
      var it := 0;
      ghost var whole := PassOver(rules, configurations, passedProbes, configured);
      assert configurations[0..] == configurations;
      while it < |configurations|
        invariant Underway(whole, start, it, deferred)
        decreases |configurations| - it
      {
        var c := configurations[it];
        if c.probe.None? || c.name.None? || c.name.value in passedProbes {
          Erase(whole, start, it, deferred);
        } else if c.probe.value == [] {
          ResumeUnparsed(rules, configurations, it, deferred, passed, passedProbes, configured);
          assert c in configurations && !Parsed(c);
          return false, deferred;
        } else {
          deferred := StartAt(whole, start, it, deferred);
          it := it + 1;
        }
      }
      ResumeEnd(rules, configurations, deferred, passed, passedProbes, configured);
      ok := true;
    }

    /** The state of the walk at `it`. */
    ghost predicate Underway(whole: Pass, start: seq<string>, it: nat, deferred: seq<Config>)
      reads this
    {
      && it <= |configurations| && Valid() && Since(start) && Within(seed, start)
      && (forall c :: c in deferred ==> Pending(start, c))
      && Tried(it, deferred) && Walked(whole, it, deferred)
    }

    /** A configuration whose probe is started stays. */
    method StartAt(ghost whole: Pass, ghost start: seq<string>, it: nat, deferred: seq<Config>)
      returns (deferred': seq<Config>)
      requires Underway(whole, start, it, deferred) && it < |configurations|
      requires !Dropped(configurations[it], passedProbes) && configurations[it].probe.value != []
      modifies this`passed, this`passedProbes, this`configured
      ensures Underway(whole, start, it + 1, deferred')
    {
      ResumeStarted(rules, configurations, it, deferred, passed, passedProbes, configured);
      assert Pending(start, configurations[it]);
      deferred' := StartProbe(configurations[it], deferred, start);
    }

    /** The walk has come to `it`, on the way to `whole`. */
    ghost predicate Walked(whole: Pass, it: nat, deferred: seq<Config>)
      reads this
    {
      && it <= |configurations|
      && whole == Resumed(configurations[..it], deferred, passed,
         PassOver(rules, configurations[it..], passedProbes, configured))
    }

    /** A configuration that is malformed or known is dropped. */
    method Erase(ghost whole: Pass, ghost start: seq<string>, it: nat, ghost deferred: seq<Config>)
      requires Underway(whole, start, it, deferred) && it < |configurations|
               && Dropped(configurations[it], passedProbes)
      modifies this`configurations
      ensures Underway(whole, start, it, deferred)
              && configurations == old(configurations[..it] + configurations[it + 1..])
    {
      ResumeDropped(rules, configurations, it, deferred, passed, passedProbes, configured);
      forall c | c in all
        ensures Handled(configurations[..it] + configurations[it + 1..], passedProbes, c)
      {
        assert Handled(configurations, passedProbes, c);
      }
      configurations := configurations[..it] + configurations[it + 1..];
    }

    /** The deferred probes end in any order. */
    method FinishProbes(deferred: seq<Config>, ghost start: seq<string>)
      requires Valid() && Since(start) && forall c :: c in deferred ==> Pending(start, c)
      modifies this`passed, this`passedProbes, this`configured
      ensures Valid() && Since(start) && (old(passed) ==> passed)
      ensures !passed ==>
                passedProbes == old(passedProbes) && forall c :: c in deferred ==> !Passes(rules, c, passedProbes)
      ensures deferred == [] ==>
                passed == old(passed) && passedProbes == old(passedProbes) && configured == old(configured)
    {
      var left := deferred;
      while left != []
        invariant Valid() && Since(start) && (old(passed) ==> passed)
        invariant forall c :: c in left ==> c in deferred
        invariant !passed ==> passedProbes == old(passedProbes)
        invariant deferred == [] ==>
                    passed == old(passed) && passedProbes == old(passedProbes) && configured == old(configured)
        invariant !passed ==> forall c :: c in deferred ==> c in left || !Passes(rules, c, passedProbes)
        decreases |left|
      {
        var i :| 0 <= i < |left|;
        PerformProbe(left[i], start);
        left := left[..i] + left[i + 1..];
      }
    }

    /** One pass. */
    method Run() returns (ghost start: seq<string>)
      requires Valid() && !passed
      modifies this`configurations, this`passed, this`passedProbes, this`configured
      ensures Valid() && start == old(passedProbes + configured) && Since(start) && Within(seed, start)
      ensures !passed && (forall c :: c in all ==> Parsed(c)) ==>
                forall c :: c in configurations ==> Formed(c) && !Passes(rules, c, passedProbes)
      ensures old(Immediate(configurations)) ==>
                var p := old(PassOver(rules, configurations, passedProbes + configured, configured));
                configurations == p.left && passedProbes == p.passed && configured == p.configured
                  && passed == p.progress
    {
      if Immediate(configurations) {
        NothingDeferred(rules, configurations, passedProbes + configured, configured);
      }
      SoundStart(rules, all, seed, passedProbes, configured);
      passedProbes := passedProbes + configured;
      start := passedProbes;
      var ok, deferred := ProcessConfigurations(start);
      FinishProbes(deferred, start);
    }

    /** The chain of passes. It ends, and calls back once. */
    method RunToEnd()
      requires Valid()
      modifies this
      ensures Valid() && callbacks == old(callbacks) + 1
      ensures Finished(rules, all, seed, passedProbes, configurations)
      ensures old(Immediate(configurations)) ==>
                var r := old(Chain(rules, configurations, passedProbes, configured));
                configurations == r.left && passedProbes == r.passed && configured == r.configured
      decreases |Unpassed(all, passedProbes)|
    {
      ghost var before := passedProbes;
      passed := false;
      ChainNext(rules, configurations, passedProbes, configured);
      ghost var start := Run();
      if passed {
        UnpassedSince(all, before, start, passedProbes);
        RunToEnd();
      } else {
        callbacks := callbacks + 1;
      }
    }
  }
}

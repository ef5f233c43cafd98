/** When the order of the configurations, and of their probes, can change what a scan chain leaves. */
module ScanOrder {
  import opened Bytes
  import opened Probe
  import opened Scan

  lemma TruePasses(rules: Rules, c: Config, names: seq<string>)
    requires c.name.Some? && c.probe == Some([BoolTrue])
    ensures Passes(rules, c, names) && !Asks(c)
  {
    FoldLast(rules.bus, names, [], BoolTrue);
    assert [] + [BoolTrue] == [BoolTrue];
  }

  lemma FoundPasses(rules: Rules, c: Config, n: string, names: seq<string>)
    requires c.name.Some? && c.probe == Some([Found(n)])
    ensures Passes(rules, c, names) <==> n in names
    ensures !Asks(c)
  {
    FoldLast(rules.bus, names, [], Found(n));
    assert [] + [Found(n)] == [Found(n)];
  }

  /** Once every configuration left is known by name, the chain is over. */
  lemma {:induction false} AllKnown(rules: Rules, cs: seq<Config>, passed: seq<string>, configured: seq<string>)
    requires forall c :: c in cs ==> Dropped(c, passed)
    ensures PassOver(rules, cs, passed, configured) == Pass([], [], passed, configured, false, true)
  {
    if cs != [] {
      assert cs == [cs[0]] + cs[1..];
      AllKnown(rules, cs[1..], passed, configured);
    }
  }

  lemma ChainKnown(rules: Rules, cs: seq<Config>, passed: seq<string>, configured: seq<string>)
    requires forall c :: c in cs ==> Dropped(c, passed + configured)
    ensures Chain(rules, cs, passed, configured).passed == passed + configured
  {
    AllKnown(rules, cs, passed + configured, configured);
  }

  /** The first configuration passes and takes the second one's name at once: the second is never
      probed. */
  lemma SecondDropped(rules: Rules, d: Config, c: Config)
    requires Formed(d) && d.probe == Some([BoolTrue]) && Formed(c) && c.name.value in Pushed(rules, d)
    ensures Chain(rules, [d, c], [], []).passed == Pushed(rules, d) + Stored(rules, d)
  {
    TruePasses(rules, d, []);
    var passed, configured := [] + Pushed(rules, d), [] + Stored(rules, d);
    assert passed == Pushed(rules, d) && configured == Stored(rules, d);
    assert [d, c][1..] == [c] && [c][1..] == [];
    assert PassOver(rules, [c], passed, configured) == Pass([], [], passed, configured, false, true);
    var none: seq<string> := [];
    assert none + none == none;
    assert PassOver(rules, [d, c], [], []) == Pass([d], [], passed, configured, true, true);
    ChainKnown(rules, [d], passed, configured);
  }

  /** The first configuration waits for the second, which takes its name: the first is dropped before
      it can pass. */
  lemma FirstDropped(rules: Rules, c: Config, d: Config)
    requires Formed(d) && d.probe == Some([BoolTrue]) && Formed(c) && c.probe == Some([Found(d.name.value)])
    requires c.name.value in Contributes(rules, d) && c.name != d.name
    ensures Chain(rules, [c, d], [], []).passed == Pushed(rules, d) + Stored(rules, d)
  {
    TruePasses(rules, d, []);
    FoundPasses(rules, c, d.name.value, []);
    var passed, configured := [] + Pushed(rules, d), [] + Stored(rules, d);
    assert passed == Pushed(rules, d) && configured == Stored(rules, d);
    assert [c, d][1..] == [d] && [d][1..] == [];
    var none: seq<string> := [];
    assert none + none == none;
    assert PassOver(rules, [d], [], []) == Pass([d], [], passed, configured, true, true);
    assert PassOver(rules, [c, d], [], []) == Pass([c, d], [], passed, configured, true, true);
    assert d.name.value in passed;
    ChainKnown(rules, [c, d], passed, configured);
  }

  lemma {:induction false} ChainGrows(rules: Rules, cs: seq<Config>, passed: seq<string>, configured: seq<string>)
    ensures Within(passed + configured, Chain(rules, cs, passed, configured).passed)
    decreases |Unpassed(cs, passed)|
  {
    var p := PassOver(rules, cs, passed + configured, configured);
    PassDropsExactly(rules, cs, passed + configured, configured);
    PassProgress(rules, cs, passed, configured);
    if p.progress {
      ChainGrows(rules, p.left, p.passed, p.configured);
    }
  }

  /** A configuration that passes at the start of the chain adds all it contributes. */
  lemma FirstContributes(rules: Rules, b: Config, rest: seq<Config>)
    requires Formed(b) && b.probe == Some([BoolTrue])
    ensures Within(Contributes(rules, b), Chain(rules, [b] + rest, [], []).passed)
  {
    TruePasses(rules, b, []);
    var none: seq<string>, cs := [], [b] + rest;
    assert none + none == none && cs[1..] == rest;
    var q := PassOver(rules, rest, none + Pushed(rules, b), none + Stored(rules, b));
    PassDropsExactly(rules, rest, none + Pushed(rules, b), none + Stored(rules, b));
    var p := PassOver(rules, cs, none, none);
    assert p.progress && p.passed == q.passed && p.configured == q.configured;
    ChainGrows(rules, p.left, p.passed, p.configured);
    assert Chain(rules, cs, none, none) == Chain(rules, p.left, p.passed, p.configured);
  }

  /** When `a` takes the name of `b` but does not add `x`, which `b` adds, the order of the two decides
      whether `x` is passed. */
  lemma OrderMatters(rules: Rules, a: Config, b: Config, x: string)
    requires Formed(a) && Formed(b) && a.probe == b.probe == Some([BoolTrue])
    requires b.name.value in Pushed(rules, a) && x in Contributes(rules, b) && x !in Contributes(rules, a)
    ensures x !in Chain(rules, [a, b], [], []).passed && x in Chain(rules, [b, a], [], []).passed
  {
    SecondDropped(rules, a, b);
    FirstContributes(rules, b, [a]);
    assert [b] + [a] == [b, a];
  }

  /** Two such configurations, always passing: the names left by the two orders. */
  lemma OrderMattersExample(bus: Bus)
    ensures exists rules, a, b :: "X" !in Chain(rules, [a, b], [], []).passed
              && "X" in Chain(rules, [b, a], [], []).passed
  {
    var a, b := Config(Some("A"), Some([BoolTrue])), Config(Some("B"), Some([BoolTrue]));
    var rules := Rules(bus, (c: Config) => if c == a then ["B"] else ["X"], _ => []);
    assert Contributes(rules, a) == ["A", "B"] && Contributes(rules, b) == ["B", "X"] && Pushed(rules, a) == ["A", "B"];
    OrderMatters(rules, a, b, "X");
  }

  // ---- configurations that never pass ----

  lemma FalsePasses(rules: Rules, c: Config, names: seq<string>)
    requires c.name.Some? && c.probe == Some([BoolFalse])
    ensures !Passes(rules, c, names) && !Asks(c)
  {
    FoldLast(rules.bus, names, [], BoolFalse);
    assert [] + [BoolFalse] == [BoolFalse];
  }

  predicate AllFalse(cs: seq<Config>) {
    forall c :: c in cs ==> c.name.Some? && c.probe == Some([BoolFalse])
  }

  /** A walk over them changes nothing but which of them are left. */
  lemma {:induction false} PassFalse(rules: Rules, cs: seq<Config>, passed: seq<string>, configured: seq<string>)
    requires AllFalse(cs)
    ensures var p := PassOver(rules, cs, passed, configured);
            p == Pass(p.left, [], passed, configured, false, true) && AllFalse(p.left)
  {
    if cs != [] {
      var c, rest := cs[0], cs[1..];
      assert cs == [c] + rest;
      FalsePasses(rules, c, passed);
      PassFalse(rules, rest, passed, configured);
    }
  }

  /** Behind others they make no difference to a walk. */
  lemma {:induction false} PassThenFalse(rules: Rules, xs: seq<Config>, cs: seq<Config>, passed: seq<string>,
                                         configured: seq<string>)
    requires Immediate(xs) && AllFalse(cs) && forall x :: x in xs ==> Parsed(x)
    ensures var p, q := PassOver(rules, xs, passed, configured), PassOver(rules, xs + cs, passed, configured);
            && |p.left| <= |q.left| && q.left[..|p.left|] == p.left && AllFalse(q.left[|p.left|..])
            && q == Pass(q.left, [], p.passed, p.configured, p.progress, true)
  {
    if xs == [] {
      assert xs + cs == cs;
      PassFalse(rules, cs, passed, configured);
    } else {
      var x, rest := xs[0], xs[1..];
      assert xs == [x] + rest && (xs + cs)[0] == x && (xs + cs)[1..] == rest + cs;
      assert Parsed(x);
      if !Dropped(x, passed) && Passes(rules, x, passed) {
        PassThenFalse(rules, rest, cs, passed + Pushed(rules, x), configured + Stored(rules, x));
      } else {
        PassThenFalse(rules, rest, cs, passed, configured);
      }
    }
  }

  lemma LeftBehind(rules: Rules, xs: seq<Config>, cs: seq<Config>, passed: seq<string>, configured: seq<string>)
    returns (left: seq<Config>)
    requires Immediate(xs) && AllFalse(cs) && forall x :: x in xs ==> Parsed(x)
    ensures var p := PassOver(rules, xs, passed, configured);
            && AllFalse(left)
            && PassOver(rules, xs + cs, passed, configured) ==
               Pass(p.left + left, [], p.passed, p.configured, p.progress, true)
            && Immediate(p.left) && forall x :: x in p.left ==> Parsed(x)
  {
    var p, q := PassOver(rules, xs, passed, configured), PassOver(rules, xs + cs, passed, configured);
    PassThenFalse(rules, xs, cs, passed, configured);
    LeftStays(rules, xs, passed, configured);
    left := q.left[|p.left|..];
    assert q.left == p.left + left;
  }

  lemma LeftStays(rules: Rules, xs: seq<Config>, passed: seq<string>, configured: seq<string>)
    requires Immediate(xs) && forall x :: x in xs ==> Parsed(x)
    ensures var left := PassOver(rules, xs, passed, configured).left;
            Immediate(left) && forall x :: x in left ==> Parsed(x)
  {
    PassDropsExactly(rules, xs, passed, configured);
  }

  /** Nor to a chain. */
  lemma {:induction false} ChainThenFalse(rules: Rules, xs: seq<Config>, cs: seq<Config>, passed: seq<string>,
                                          configured: seq<string>)
    requires Immediate(xs) && AllFalse(cs) && forall x :: x in xs ==> Parsed(x)
    ensures Chain(rules, xs + cs, passed, configured).passed == Chain(rules, xs, passed, configured).passed
    decreases |Unpassed(xs, passed)|
  {
    var p := PassOver(rules, xs, passed + configured, configured);
    var left := LeftBehind(rules, xs, cs, passed + configured, configured);
    ChainNext(rules, xs, passed, configured);
    ChainNext(rules, xs + cs, passed, configured);
    PassProgress(rules, xs, passed, configured);
    if p.progress {
      ChainThenFalse(rules, p.left, left, p.passed, p.configured);
    }
  }

  function NeverPassing(a: Config): Config {
    Config(a.name, Some([BoolFalse]))
  }

  /** The configurations of `all` with another name than `c` and `d`, never to pass. */
  function Others(all: seq<Config>, c: Config, d: Config): seq<Config> {
    if all == [] then []
    else
      Others(all[..|all| - 1], c, d)
      + if all[|all| - 1].name in {c.name, d.name} then [] else [NeverPassing(all[|all| - 1])]
  }

  lemma {:induction false} OthersAre(all: seq<Config>, c: Config, d: Config, x: Config)
    ensures x in Others(all, c, d) ==> x == NeverPassing(x) && exists a :: a in all && a.name == x.name
    ensures forall a :: a in all && a.name !in {c.name, d.name} ==> NeverPassing(a) in Others(all, c, d)
  {
    if all != [] {
      var init, last := all[..|all| - 1], all[|all| - 1];
      assert all == init + [last];
      OthersAre(init, c, d, x);
      forall a | a in all && a.name !in {c.name, d.name} ensures NeverPassing(a) in Others(all, c, d) {
        assert a in init || a == last;
      }
    }
  }

  // ---- the exact condition ----

  /** What a configuration adds depends on its name only. */
  ghost predicate ByName(rules: Rules) {
    forall c: Config, d: Config :: c.name == d.name ==>
      rules.deviceNames(c) == rules.deviceNames(d) && rules.restoredNames(c) == rules.restoredNames(d)
  }

  predicate Occurs(name: Option<string>, cs: seq<Config>) {
    exists c :: c in cs && c.name == name
  }

  /** Configurations with exactly the names of `all`, and probes that can be parsed and ask nothing of
      the bus. */
  ghost predicate Reprobed(all: seq<Config>, cs: seq<Config>) {
    && (forall c :: c in cs ==> Formed(c) && Parsed(c) && Occurs(c.name, all))
    && (forall a :: a in all ==> Occurs(a.name, cs))
    && Immediate(cs)
  }

  predicate SameNames(a: seq<string>, b: seq<string>) {
    Within(a, b) && Within(b, a)
  }

  /** Whatever their probes and their order, the chain ends in a closed set. */
  ghost predicate AlwaysClosed(rules: Rules, all: seq<Config>) {
    forall cs :: Reprobed(all, cs) ==> Closed(rules, cs, [], Chain(rules, cs, [], []).passed)
  }

  /** Whatever their probes, all orders leave the same names. */
  ghost predicate OrderIrrelevant(rules: Rules, all: seq<Config>) {
    forall cs, cs' :: Reprobed(all, cs) && multiset(cs) == multiset(cs') ==>
      SameNames(Chain(rules, cs, [], []).passed, Chain(rules, cs', [], []).passed)
  }

  lemma StartSound(rules: Rules, all: seq<Config>)
    ensures Sound(rules, all, [], [], [])
  {
  }

  lemma ReprobedCovered(rules: Rules, all: seq<Config>, cs: seq<Config>)
    requires ByName(rules) && NamesCovered(rules, all) && Reprobed(all, cs) && forall a :: a in all ==> Formed(a)
    ensures NamesCovered(rules, cs)
  {
    forall c, d | c in cs && d in cs && c.name.value in Contributes(rules, d)
      ensures Within(Contributes(rules, c), Contributes(rules, d))
    {
      assert Occurs(c.name, all) && Occurs(d.name, all);
      var a :| a in all && a.name == c.name;
      var b :| b in all && b.name == d.name;
      assert Contributes(rules, a) == Contributes(rules, c) && Contributes(rules, b) == Contributes(rules, d);
    }
  }

  lemma ReprobedFinished(rules: Rules, all: seq<Config>, cs: seq<Config>)
    requires Reprobed(all, cs)
    ensures var r := Chain(rules, cs, [], []); Finished(rules, cs, [], r.passed, r.left)
  {
    StartSound(rules, cs);
    ChainFinished(rules, cs, [], cs, [], []);
  }

  lemma CoveredCloses(rules: Rules, all: seq<Config>, cs: seq<Config>)
    requires ByName(rules) && NamesCovered(rules, all) && Reprobed(all, cs) && forall a :: a in all ==> Formed(a)
    ensures Closed(rules, cs, [], Chain(rules, cs, [], []).passed)
  {
    ReprobedCovered(rules, all, cs);
    ReprobedFinished(rules, all, cs);
    var r := Chain(rules, cs, [], []);
    LeastFixedPoint(rules, cs, [], r.passed, r.left);
  }

  lemma CoveredOrders(rules: Rules, all: seq<Config>, cs: seq<Config>, cs': seq<Config>)
    requires ByName(rules) && NamesCovered(rules, all) && Reprobed(all, cs) && forall a :: a in all ==> Formed(a)
    requires multiset(cs) == multiset(cs')
    ensures SameNames(Chain(rules, cs, [], []).passed, Chain(rules, cs', [], []).passed)
  {
    SameReprobed(all, cs, cs');
    ReprobedCovered(rules, all, cs);
    ReprobedFinished(rules, all, cs);
    ReprobedFinished(rules, all, cs');
    var r, r' := Chain(rules, cs, [], []), Chain(rules, cs', [], []);
    OrderDoesNotMatter(rules, cs, cs', [], r.passed, r'.passed, r.left, r'.left);
  }

  lemma SameReprobed(all: seq<Config>, cs: seq<Config>, cs': seq<Config>)
    requires Reprobed(all, cs) && multiset(cs) == multiset(cs')
    ensures Reprobed(all, cs') && forall c :: c in cs <==> c in cs'
  {
    assert forall c :: c in cs <==> c in multiset(cs);
    assert forall c :: c in cs' <==> c in multiset(cs');
    forall a | a in all ensures Occurs(a.name, cs') {
      assert Occurs(a.name, cs);
    }
  }

  /** The first configuration takes the name of the second one, but the name is only restored and so
      comes too late: the second, which waits for the first, passes and adds all it contributes. */
  lemma SecondPasses(rules: Rules, d: Config, c: Config)
    requires Formed(d) && d.probe == Some([BoolTrue]) && Formed(c) && c.probe == Some([Found(d.name.value)])
    requires c.name.value !in Pushed(rules, d)
    ensures Within(Contributes(rules, c), Chain(rules, [d, c], [], []).passed)
  {
    TruePasses(rules, d, []);
    var none: seq<string> := [];
    var passed, configured := none + Pushed(rules, d), none + Stored(rules, d);
    assert passed == Pushed(rules, d) && configured == Stored(rules, d) && none + none == none;
    FoundPasses(rules, c, d.name.value, passed);
    assert [d, c][1..] == [c] && [c][1..] == [];
    var p := PassOver(rules, [d, c], none, none);
    assert PassOver(rules, [c], passed, configured) ==
           Pass([c], [], passed + Pushed(rules, c), configured + Stored(rules, c), true, true);
    assert p.progress && p.passed == passed + Pushed(rules, c) && p.configured == configured + Stored(rules, c);
    ChainGrows(rules, p.left, p.passed, p.configured);
    assert Chain(rules, [d, c], none, none) == Chain(rules, p.left, p.passed, p.configured);
  }

  /** A pair that breaks the premise: with these probes and in this order the chain adds what `d` does and
      no more, and in the other order also what `c` does. */
  lemma UncoveredPair(rules: Rules, c: Config, d: Config)
    returns (c': Config, d': Config, first: seq<Config>, second: seq<Config>)
    requires ByName(rules) && Formed(c) && Formed(d)
    requires c.name.value in Contributes(rules, d) && !Within(Contributes(rules, c), Contributes(rules, d))
    ensures Formed(c') && Formed(d') && Parsed(c') && Parsed(d') && c'.name == c.name && d'.name == d.name
    ensures (first == [c', d'] && second == [d', c']) || (first == [d', c'] && second == [c', d'])
    ensures Immediate(first) && Immediate(second)
    ensures Passes(rules, c', Chain(rules, first, [], []).passed)
    ensures Within(Chain(rules, first, [], []).passed, Contributes(rules, d))
    ensures Within(Contributes(rules, c), Chain(rules, second, [], []).passed)
  {
    d' := Config(d.name, Some([BoolTrue]));
    assert Contributes(rules, d') == Contributes(rules, d);
    if c.name.value in Pushed(rules, d') {
      c' := Config(c.name, Some([BoolTrue]));
      first, second := [d', c'], [c', d'];
      SecondDropped(rules, d', c');
      FirstContributes(rules, c', [d']);
      assert [c'] + [d'] == [c', d'];
      TruePasses(rules, c', Chain(rules, first, [], []).passed);
      TruePasses(rules, d', []);
    } else {
      c' := Config(c.name, Some([Found(d.name.value)]));
      first, second := [c', d'], [d', c'];
      FirstDropped(rules, c', d');
      SecondPasses(rules, d', c');
      FoundPasses(rules, c', d.name.value, Chain(rules, first, [], []).passed);
      TruePasses(rules, d', []);
    }
    assert Contributes(rules, c') == Contributes(rules, c);
  }

  lemma OthersNeverPass(all: seq<Config>, c: Config, d: Config)
    requires forall a :: a in all ==> Formed(a)
    ensures AllFalse(Others(all, c, d)) && forall x :: x in Others(all, c, d) ==> Occurs(x.name, all)
  {
    forall x | x in Others(all, c, d) ensures x.name.Some? && x.probe == Some([BoolFalse]) && Occurs(x.name, all) {
      OthersAre(all, c, d, x);
    }
  }

  predicate PairOf(c: Config, d: Config, pair: seq<Config>) {
    && Immediate(pair) && Occurs(c.name, pair) && Occurs(d.name, pair)
    && forall x :: x in pair ==> Formed(x) && Parsed(x) && (x.name == c.name || x.name == d.name)
  }

  lemma PairReprobed(all: seq<Config>, c: Config, d: Config, pair: seq<Config>, rules: Rules)
    requires (forall a :: a in all ==> Formed(a)) && c in all && d in all && PairOf(c, d, pair)
    ensures Reprobed(all, pair + Others(all, c, d))
  {
    OthersNeverPass(all, c, d);
    forall x | x in pair + Others(all, c, d) ensures Formed(x) && Parsed(x) && Occurs(x.name, all) && !Asks(x) {
      if x in Others(all, c, d) {
        FalsePasses(rules, x, []);
      }
    }
    forall a | a in all ensures Occurs(a.name, pair + Others(all, c, d)) {
      if a.name in {c.name, d.name} {
        var x :| x in pair && x.name == a.name;
        assert x in pair + Others(all, c, d);
      } else {
        OthersAre(all, c, d, a);
        assert NeverPassing(a) in pair + Others(all, c, d);
      }
    }
  }

  /** With the other configurations of `all` behind them, which never pass, nothing changes. */
  lemma PairAmong(rules: Rules, all: seq<Config>, c: Config, d: Config, pair: seq<Config>)
    requires (forall a :: a in all ==> Formed(a)) && c in all && d in all && PairOf(c, d, pair)
    ensures Reprobed(all, pair + Others(all, c, d))
    ensures Chain(rules, pair + Others(all, c, d), [], []).passed == Chain(rules, pair, [], []).passed
  {
    OthersNeverPass(all, c, d);
    PairReprobed(all, c, d, pair, rules);
    ChainThenFalse(rules, pair, Others(all, c, d), [], []);
  }

  /** What the two orders of such a pair refute. */
  lemma TwoOrders(rules: Rules, all: seq<Config>, cs: seq<Config>, cs': seq<Config>, c: Config, some: seq<string>,
                  more: seq<string>)
    requires Reprobed(all, cs) && multiset(cs) == multiset(cs') && c in cs && Formed(c)
    requires some == Chain(rules, cs, [], []).passed && more == Chain(rules, cs', [], []).passed
    requires Passes(rules, c, some) && !Within(Contributes(rules, c), some) && Within(Contributes(rules, c), more)
    ensures !AlwaysClosed(rules, all) && !OrderIrrelevant(rules, all)
  {
    assert !Closed(rules, cs, [], some);
    assert !SameNames(some, more);
  }

  lemma UncoveredOpens(rules: Rules, all: seq<Config>, c: Config, d: Config)
    requires ByName(rules) && (forall a :: a in all ==> Formed(a)) && c in all && d in all && Formed(c) && Formed(d)
    requires c.name.value in Contributes(rules, d) && !Within(Contributes(rules, c), Contributes(rules, d))
    ensures !AlwaysClosed(rules, all) && !OrderIrrelevant(rules, all)
  {
    var c', d', first, second := UncoveredPair(rules, c, d);
    assert c' in first && d' in first && c' in second && d' in second;
    PairAmong(rules, all, c, d, first);
    PairAmong(rules, all, c, d, second);
    assert Contributes(rules, c') == Contributes(rules, c);
    SwappedFront(first, second, Others(all, c, d));
    TwoOrders(rules, all, first + Others(all, c, d), second + Others(all, c, d), c',
              Chain(rules, first, [], []).passed, Chain(rules, second, [], []).passed);
  }

  lemma SwappedFront(first: seq<Config>, second: seq<Config>, rest: seq<Config>)
    requires |first| == |second| == 2 && first[0] == second[1] && first[1] == second[0]
    ensures multiset(first + rest) == multiset(second + rest)
  {
    assert first == [first[0], first[1]] && second == [first[1], first[0]];
  }

  /** The chain ends in a closed set whatever the probes and their order if and only if a configuration
      that adds another one's name adds all that the other one would. */
  lemma ClosedExactly(rules: Rules, all: seq<Config>)
    requires ByName(rules) && forall a :: a in all ==> Formed(a)
    ensures AlwaysClosed(rules, all) <==> NamesCovered(rules, all)
  {
    if NamesCovered(rules, all) {
      forall cs | Reprobed(all, cs) ensures Closed(rules, cs, [], Chain(rules, cs, [], []).passed) {
        CoveredCloses(rules, all, cs);
      }
    } else {
      var c, d :| c in all && d in all && c.name.value in Contributes(rules, d)
        && !Within(Contributes(rules, c), Contributes(rules, d));
      UncoveredOpens(rules, all, c, d);
    }
  }

  /** Under the same condition, and only then, the order never matters: whatever the probes, all orders
      of the configurations leave the same names. */
  lemma OrderExactly(rules: Rules, all: seq<Config>)
    requires ByName(rules) && forall a :: a in all ==> Formed(a)
    ensures OrderIrrelevant(rules, all) <==> NamesCovered(rules, all)
  {
    if NamesCovered(rules, all) {
      forall cs, cs' | Reprobed(all, cs) && multiset(cs) == multiset(cs')
        ensures SameNames(Chain(rules, cs, [], []).passed, Chain(rules, cs', [], []).passed)
      {
        CoveredOrders(rules, all, cs, cs');
      }
    } else {
      var c, d :| c in all && d in all && c.name.value in Contributes(rules, d)
        && !Within(Contributes(rules, c), Contributes(rules, d));
      UncoveredOpens(rules, all, c, d);
    }
  }
}

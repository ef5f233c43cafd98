/** The probe language: token streams, their verdict over a snapshot of the bus, and the devices
    they select. */
module Probe {
  import opened Bytes

  /** A parsed value, by its text. */
  type Value = string
  type Interface = map<string, Value>

  datatype Object = Object(path: string, interfaces: map<string, Interface>)

  datatype Device = Device(interface: Interface, path: string)

  /** One scan's view of the bus. `parse` stands for the JSON parser (None: discarded) and `matches`
      for the comparison of one property, a regular expression for strings. */
  datatype Bus = Bus(objects: seq<Object>, parse: string -> Option<map<string, Value>>, matches: (Value, Value) -> bool)

  datatype Token =
    | BoolTrue
    | BoolFalse
    | OpAnd
    | OpOr
    | MatchOne
    | Found(name: string)
    | DbusProbe(statement: string)

  predicate Satisfies(bus: Bus, interface: Interface, wanted: map<string, Value>) {
    forall p :: p in wanted ==> p in interface && bus.matches(wanted[p], interface[p])
  }

  predicate Selects(bus: Bus, entry: Object, interfaceName: string, wanted: map<string, Value>) {
    interfaceName in entry.interfaces && Satisfies(bus, entry.interfaces[interfaceName], wanted)
  }

  /** The devices among `objects` that a probe selects, in order. */
  function Selected(bus: Bus, objects: seq<Object>, interfaceName: string, wanted: map<string, Value>): (r: seq<Device>)
    ensures r != [] <==> exists i :: 0 <= i < |objects| && Selects(bus, objects[i], interfaceName, wanted)
  {
    if objects == [] then []
    else
      var last := objects[|objects| - 1];
      Selected(bus, objects[..|objects| - 1], interfaceName, wanted)
      + if Selects(bus, last, interfaceName, wanted) then [Device(last.interfaces[interfaceName], last.path)] else []
  }

  method MatchInterface(bus: Bus, interface: Interface, wanted: map<string, Value>) returns (deviceMatches: bool)
    ensures deviceMatches == Satisfies(bus, interface, wanted)
  {
    deviceMatches := true;
    var rest := wanted.Keys;
    while rest != {}
      invariant rest <= wanted.Keys
      invariant deviceMatches <==>
                  forall p :: p in wanted && p !in rest ==> p in interface && bus.matches(wanted[p], interface[p])
    {
      var matchProp :| matchProp in rest;
      if matchProp in interface {
        deviceMatches := deviceMatches && bus.matches(wanted[matchProp], interface[matchProp]);
      } else {
        return false;
      }
      rest := rest - {matchProp};
    }
  }

  predicate HasInterface(objects: seq<Object>, interfaceName: string) {
    exists i :: 0 <= i < |objects| && interfaceName in objects[i].interfaces
  }

  lemma OneMoreObject(bus: Bus, objects: seq<Object>, i: nat, interfaceName: string, wanted: map<string, Value>)
    requires i < |objects|
    ensures Selected(bus, objects[..i + 1], interfaceName, wanted) ==
            Selected(bus, objects[..i], interfaceName, wanted)
            + if Selects(bus, objects[i], interfaceName, wanted)
              then [Device(objects[i].interfaces[interfaceName], objects[i].path)] else []
    ensures HasInterface(objects[..i + 1], interfaceName) <==>
              HasInterface(objects[..i], interfaceName) || interfaceName in objects[i].interfaces
  {
    var some, more := objects[..i], objects[..i + 1];
    assert more == some + [objects[i]] && more[..i] == some;
    if HasInterface(some, interfaceName) {
      var j :| 0 <= j < i && interfaceName in some[j].interfaces;
      assert more[j] == some[j];
    }
    assert more[i] == objects[i];
  }

  /** `d` is the object `o`, seen through the interface. */
  predicate SeenThrough(o: Object, interfaceName: string, d: Device) {
    interfaceName in o.interfaces && d.interface == o.interfaces[interfaceName] && d.path == o.path
  }

  /** `d` is one of the objects, seen through the interface, and has every wanted property with a value
      that matches. */
  predicate Matching(bus: Bus, objects: seq<Object>, interfaceName: string, wanted: map<string, Value>, d: Device) {
    && (exists o :: o in objects && SeenThrough(o, interfaceName, d))
    && forall p :: p in wanted ==> p in d.interface && bus.matches(wanted[p], d.interface[p])
  }

  lemma SeenOneMore(init: seq<Object>, last: Object, interfaceName: string, d: Device)
    ensures (exists o :: o in init + [last] && SeenThrough(o, interfaceName, d)) <==>
              (exists o :: o in init && SeenThrough(o, interfaceName, d)) || SeenThrough(last, interfaceName, d)
  {
  }

  lemma SelectedLast(bus: Bus, init: seq<Object>, last: Object, interfaceName: string, wanted: map<string, Value>,
                     d: Device)
    ensures d in Selected(bus, init + [last], interfaceName, wanted) <==>
              || d in Selected(bus, init, interfaceName, wanted)
              || (Selects(bus, last, interfaceName, wanted) && SeenThrough(last, interfaceName, d))
  {
    assert (init + [last])[..|init|] == init;
  }

  /** What is selected are exactly those devices. */
  lemma {:induction false} SelectedMatching(bus: Bus, objects: seq<Object>, interfaceName: string,
                                            wanted: map<string, Value>, d: Device)
    ensures d in Selected(bus, objects, interfaceName, wanted) <==> Matching(bus, objects, interfaceName, wanted, d)
  {
    if objects != [] {
      var init, last := objects[..|objects| - 1], objects[|objects| - 1];
      assert objects == init + [last];
      SelectedMatching(bus, init, interfaceName, wanted, d);
      SelectedLast(bus, init, last, interfaceName, wanted, d);
      SeenOneMore(init, last, interfaceName, d);
    }
  }

  lemma NewMatching(bus: Bus, interfaceName: string, wanted: map<string, Value>, devices: seq<Device>)
    ensures var devices' := devices + Selected(bus, bus.objects, interfaceName, wanted);
            forall d :: d in devices'[|devices|..] <==> Matching(bus, bus.objects, interfaceName, wanted, d)
  {
    var found := Selected(bus, bus.objects, interfaceName, wanted);
    assert (devices + found)[|devices|..] == found;
    forall d ensures d in found <==> Matching(bus, bus.objects, interfaceName, wanted, d) {
      SelectedMatching(bus, bus.objects, interfaceName, wanted, d);
    }
  }

  /** One object: whether it matches, and whether it has the interface at all. */
  method ProbeObject(bus: Bus, entry: Object, interfaceName: string, wanted: map<string, Value>, devices: seq<Device>)
    returns (foundMatch: bool, foundProbe: bool, devices': seq<Device>)
    ensures foundMatch == Selects(bus, entry, interfaceName, wanted)
    ensures foundProbe <==> interfaceName in entry.interfaces
    ensures devices' ==
            devices + if foundMatch then [Device(entry.interfaces[interfaceName], entry.path)] else []
  {
    foundMatch, foundProbe, devices' := false, interfaceName in entry.interfaces, devices;
    if foundProbe {
      foundMatch := MatchInterface(bus, entry.interfaces[interfaceName], wanted);
      if foundMatch {
        devices' := devices' + [Device(entry.interfaces[interfaceName], entry.path)];
      }
    }
  }

  method ProbeDbus(bus: Bus, interfaceName: string, wanted: map<string, Value>, devices: seq<Device>)
    returns (foundMatch: bool, foundProbe: bool, devices': seq<Device>)
    ensures foundMatch <==> exists i :: 0 <= i < |bus.objects| && Selects(bus, bus.objects[i], interfaceName, wanted)
    ensures foundProbe <==> HasInterface(bus.objects, interfaceName)
    ensures devices' == devices + Selected(bus, bus.objects, interfaceName, wanted)
    ensures forall d :: d in devices'[|devices|..] <==> Matching(bus, bus.objects, interfaceName, wanted, d)
  {
    foundMatch, foundProbe, devices' := false, false, devices;
    var i := 0;
    while i < |bus.objects|
      invariant i <= |bus.objects|
      invariant foundMatch <==> Selected(bus, bus.objects[..i], interfaceName, wanted) != []
      invariant foundProbe <==> HasInterface(bus.objects[..i], interfaceName)
      invariant devices' == devices + Selected(bus, bus.objects[..i], interfaceName, wanted)
    {
      OneMoreObject(bus, bus.objects, i, interfaceName, wanted);
      var found, probe;
      found, probe, devices' := ProbeObject(bus, bus.objects[i], interfaceName, wanted, devices');
      foundMatch, foundProbe := foundMatch || found, foundProbe || probe;
      i := i + 1;
    }
    assert bus.objects[..i] == bus.objects;
    NewMatching(bus, interfaceName, wanted, devices);
  }

  function FindFirst(s: string, c: char): (r: Option<nat>)
    ensures r.Some? ==> r.value < |s| && s[r.value] == c && c !in s[..r.value]
    ensures r.None? ==> c !in s
  {
    if s == [] then None
    else if s[0] == c then Some(0)
    else
      match FindFirst(s[1..], c)
      case None => None
      case Some(i) => Some(i + 1)
  }

  function FindLast(s: string, c: char): (r: Option<nat>)
    ensures r.Some? ==> r.value < |s| && s[r.value] == c && c !in s[r.value + 1..]
    ensures r.None? ==> c !in s
  {
    if s == [] then None
    else if s[|s| - 1] == c then Some(|s| - 1)
    else FindLast(s[..|s| - 1], c)
  }

  /** A D-Bus statement's interface name and wanted properties; None is a syntax error. */
  function Wanted(bus: Bus, statement: string): Option<(string, map<string, Value>)> {
    var open, close := FindFirst(statement, '('), FindLast(statement, ')');
    if open.None? || close.None? || close.value < open.value then None
    else
      match bus.parse(statement[open.value + 1..close.value])
      case None => None
      case Some(wanted) => Some((statement[..open.value], wanted))
  }

  predicate Legal(bus: Bus, t: Token) {
    t.DbusProbe? ==> Wanted(bus, t.statement).Some?
  }

  predicate AllLegal(bus: Bus, tokens: seq<Token>) {
    forall i :: 0 <= i < |tokens| ==> Legal(bus, tokens[i])
  }

  /** The devices one token adds. */
  function TokenDevices(bus: Bus, t: Token): seq<Device> {
    if t.DbusProbe? && Legal(bus, t) then
      var w := Wanted(bus, t.statement).value;
      Selected(bus, bus.objects, w.0, w.1)
    else []
  }

  function Devices(bus: Bus, tokens: seq<Token>): seq<Device> {
    if tokens == [] then [] else Devices(bus, tokens[..|tokens| - 1]) + TokenDevices(bus, tokens[|tokens| - 1])
  }

  /** What an operand says by itself. */
  predicate Holds(bus: Bus, passed: seq<string>, t: Token) {
    match t
    case BoolTrue => true
    case Found(name) => name in passed
    case DbusProbe(_) => TokenDevices(bus, t) != []
    case _ => false
  }

  /** The evaluator's running state. */
  datatype Running = Running(ret: bool, cur: bool, last: Token, first: bool)

  const START := Running(false, true, BoolFalse, true)

  function Operand(bus: Bus, passed: seq<string>, s: Running, t: Token): bool {
    match t
    case OpAnd | OpOr => s.cur
    case MatchOne => s.ret
    case _ => Holds(bus, passed, t)
  }

  function Next(bus: Bus, passed: seq<string>, s: Running, t: Token): Running {
    var cur := Operand(bus, passed, s, t);
    var ret :=
      if s.first then cur
      else if s.last.OpAnd? then cur && s.ret
      else if s.last.OpOr? then cur || s.ret
      else s.ret;
    Running(ret, cur, t, false)
  }

  function Fold(bus: Bus, passed: seq<string>, tokens: seq<Token>): Running {
    if tokens == [] then START else Next(bus, passed, Fold(bus, passed, tokens[..|tokens| - 1]), tokens[|tokens| - 1])
  }

  predicate Verdict(bus: Bus, passed: seq<string>, tokens: seq<Token>) {
    AllLegal(bus, tokens) && Fold(bus, passed, tokens).ret
  }

  const EMPTY_DEVICE := Device(map[], "")

  /** The devices a passing probe is configured for. */
  function Chosen(bus: Bus, tokens: seq<Token>): (r: seq<Device>)
    ensures r != []
    ensures MatchOne in tokens ==> |r| == 1
  {
    var found := Devices(bus, tokens);
    if found == [] then [EMPTY_DEVICE]
    else if MatchOne in tokens then [found[|found| - 1]]
    else found
  }

  /** A D-Bus statement, evaluated. */
  method ProbeStatement(bus: Bus, statement: string, devices: seq<Device>)
    returns (legal: bool, cur: bool, devices': seq<Device>)
    ensures legal == Legal(bus, DbusProbe(statement))
    ensures legal ==> cur == (TokenDevices(bus, DbusProbe(statement)) != [])
    ensures legal ==> devices' == devices + TokenDevices(bus, DbusProbe(statement))
  {
    legal, cur, devices' := false, false, devices;
    var open, close := FindFirst(statement, '('), FindLast(statement, ')');
    if open.None? || close.None? || close.value < open.value {
      return;
    }
    var json := bus.parse(statement[open.value + 1..close.value]);
    if json.None? {
      return;
    }
    var foundProbe;
    cur, foundProbe, devices' := ProbeDbus(bus, statement[..open.value], json.value, devices);
    legal := true;
  }

  /** The evaluator's state after the tokens `some`. */
  predicate Evaluated(bus: Bus, passed: seq<string>, some: seq<Token>, s: Running, devices: seq<Device>,
                      matchOne: bool)
  {
    AllLegal(bus, some) && s == Fold(bus, passed, some) && devices == Devices(bus, some)
      && (matchOne <==> MatchOne in some)
  }

  lemma NothingYet(bus: Bus, passed: seq<string>, tokens: seq<Token>)
    ensures Evaluated(bus, passed, tokens[..0], START, [], false)
  {
  }

  lemma Refused(bus: Bus, tokens: seq<Token>, i: nat)
    requires i < |tokens| && !Legal(bus, tokens[i])
    ensures !AllLegal(bus, tokens)
  {
  }

  lemma Extended(bus: Bus, passed: seq<string>, tokens: seq<Token>, i: nat)
    requires i < |tokens|
    ensures forall s, devices, matchOne ::
              (Evaluated(bus, passed, tokens[..i], s, devices, matchOne) && Legal(bus, tokens[i])) ==>
                Evaluated(bus, passed, tokens[..i + 1], Next(bus, passed, s, tokens[i]),
                          devices + TokenDevices(bus, tokens[i]), matchOne || tokens[i] == MatchOne)
  {
    assert tokens[..i + 1][..i] == tokens[..i];
  }

  /** The operand a token leaves, given the running result. */
  method EvaluateToken(bus: Bus, passedProbes: seq<string>, token: Token, s: Running, devices: seq<Device>)
    returns (legal: bool, cur: bool, foundDevs: seq<Device>)
    ensures legal == Legal(bus, token)
    ensures legal ==> cur == Operand(bus, passedProbes, s, token)
    ensures legal ==> foundDevs == devices + TokenDevices(bus, token)
  {
    legal, cur, foundDevs := true, s.cur, devices;
    match token
    case BoolFalse => cur := false;
    case BoolTrue => cur := true;
    case MatchOne => cur := s.ret;
    case OpAnd =>
    case OpOr =>
    case Found(name) => cur := name in passedProbes;
    case DbusProbe(statement) => legal, cur, foundDevs := ProbeStatement(bus, statement, devices);
  }

  /** AND and OR take effect on the operand behind them; the first operand stands for itself. */
  method Combine(before: bool, cur: bool, lastCommand: Token, isFirst: bool) returns (ret: bool, first: bool)
    ensures ret ==
            if isFirst then cur
            else if lastCommand.OpAnd? then cur && before
            else if lastCommand.OpOr? then cur || before
            else before
    ensures !first
  {
    ret, first := before, isFirst;
    if lastCommand.OpAnd? {
      ret := cur && ret;
    } else if lastCommand.OpOr? {
      ret := cur || ret;
    }
    if first {
      ret, first := cur, false;
    }
  }

  method DoProbe(bus: Bus, passedProbes: seq<string>, probeCommand: seq<Token>)
    returns (ret: bool, foundDevs: seq<Device>)
    ensures ret == Verdict(bus, passedProbes, probeCommand)
    ensures ret ==> foundDevs == Chosen(bus, probeCommand)
  {
    ret, foundDevs := false, [];
    var matchOne, cur, lastCommand, first := false, true, BoolFalse, true;
    var i := 0;
    NothingYet(bus, passedProbes, probeCommand);
    while i < |probeCommand|
      invariant i <= |probeCommand|
      invariant Evaluated(bus, passedProbes, probeCommand[..i], Running(ret, cur, lastCommand, first), foundDevs,
                matchOne)
    {
      var token := probeCommand[i];
      var legal;
      legal, cur, foundDevs := EvaluateToken(bus, passedProbes, token, Running(ret, cur, lastCommand, first),
        foundDevs);
      Extended(bus, passedProbes, probeCommand, i);
      if !legal {
        Refused(bus, probeCommand, i);
        return false, foundDevs;
      }
      matchOne := matchOne || token == MatchOne;
      ret, first := Combine(ret, cur, lastCommand, first);
      lastCommand := token;
      i := i + 1;
    }
    assert probeCommand[..i] == probeCommand;
    if ret && foundDevs == [] {
      foundDevs := [EMPTY_DEVICE];
    }
    if matchOne && ret {
      foundDevs := [foundDevs[|foundDevs| - 1]];
    }
  }

  /** Passing more probes never turns a verdict to false. */
  lemma {:induction false} FoldMonotone(bus: Bus, passed: seq<string>, passed': seq<string>, tokens: seq<Token>)
    requires forall n :: n in passed ==> n in passed'
    ensures Fold(bus, passed, tokens).ret ==> Fold(bus, passed', tokens).ret
    ensures Fold(bus, passed, tokens).cur ==> Fold(bus, passed', tokens).cur
    ensures tokens != [] ==> Fold(bus, passed, tokens).last == Fold(bus, passed', tokens).last
    ensures Fold(bus, passed, tokens).first == (tokens == []) == Fold(bus, passed', tokens).first
  {
    if tokens != [] {
      FoldMonotone(bus, passed, passed', tokens[..|tokens| - 1]);
    }
  }

  lemma VerdictMonotone(bus: Bus, passed: seq<string>, passed': seq<string>, tokens: seq<Token>)
    requires forall n :: n in passed ==> n in passed'
    requires Verdict(bus, passed, tokens)
    ensures Verdict(bus, passed', tokens)
  {
    FoldMonotone(bus, passed, passed', tokens);
  }

  /** The grammar of a probe: operands joined by AND and OR, evaluated from the left, with MATCH_ONE
      allowed after any of them. */
  datatype Expr =
    | Leaf(operand: Token)
    | And(left: Expr, operand: Token)
    | Or(left: Expr, operand: Token)
    | One(left: Expr)

  predicate IsOperand(t: Token) {
    t.BoolTrue? || t.BoolFalse? || t.Found? || t.DbusProbe?
  }

  predicate WellFormed(e: Expr) {
    match e
    case Leaf(t) => IsOperand(t)
    case And(left, t) => WellFormed(left) && IsOperand(t)
    case Or(left, t) => WellFormed(left) && IsOperand(t)
    case One(left) => WellFormed(left)
  }

  function Tokens(e: Expr): seq<Token> {
    match e
    case Leaf(t) => [t]
    case And(left, t) => Tokens(left) + [OpAnd, t]
    case Or(left, t) => Tokens(left) + [OpOr, t]
    case One(left) => Tokens(left) + [MatchOne]
  }

  /** What an expression means. */
  predicate Meaning(bus: Bus, passed: seq<string>, e: Expr) {
    match e
    case Leaf(t) => Holds(bus, passed, t)
    case And(left, t) => Meaning(bus, passed, left) && Holds(bus, passed, t)
    case Or(left, t) => Meaning(bus, passed, left) || Holds(bus, passed, t)
    case One(left) => Meaning(bus, passed, left)
  }

  lemma FoldLast(bus: Bus, passed: seq<string>, tokens: seq<Token>, t: Token)
    ensures Fold(bus, passed, tokens + [t]) == Next(bus, passed, Fold(bus, passed, tokens), t)
  {
    assert (tokens + [t])[..|tokens|] == tokens;
  }

  lemma FoldLastTwo(bus: Bus, passed: seq<string>, tokens: seq<Token>, t: Token, u: Token)
    ensures Fold(bus, passed, tokens + [t, u]) == Next(bus, passed, Next(bus, passed, Fold(bus, passed, tokens), t), u)
  {
    FoldLast(bus, passed, tokens, t);
    FoldLast(bus, passed, tokens + [t], u);
    assert tokens + [t] + [u] == tokens + [t, u];
  }

  /** The single pass over the tokens computes the meaning of the expression. */
  lemma {:induction false} FoldMeaning(bus: Bus, passed: seq<string>, e: Expr)
    requires WellFormed(e)
    ensures Fold(bus, passed, Tokens(e)).ret == Meaning(bus, passed, e)
    ensures !Fold(bus, passed, Tokens(e)).first
    ensures !Fold(bus, passed, Tokens(e)).last.OpAnd? && !Fold(bus, passed, Tokens(e)).last.OpOr?
  {
    match e
    case Leaf(t) => FoldLast(bus, passed, [], t); assert [] + [t] == [t];
    case And(left, t) => FoldMeaning(bus, passed, left); FoldLastTwo(bus, passed, Tokens(left), OpAnd, t);
    case Or(left, t) => FoldMeaning(bus, passed, left); FoldLastTwo(bus, passed, Tokens(left), OpOr, t);
    case One(left) => FoldMeaning(bus, passed, left); FoldLast(bus, passed, Tokens(left), MatchOne);
  }

  lemma VerdictIsMeaning(bus: Bus, passed: seq<string>, e: Expr)
    requires WellFormed(e)
    ensures Verdict(bus, passed, Tokens(e)) <==> AllLegal(bus, Tokens(e)) && Meaning(bus, passed, e)
  {
    FoldMeaning(bus, passed, e);
  }
}

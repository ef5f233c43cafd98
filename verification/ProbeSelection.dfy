/** What a D-Bus statement selects, in terms of the objects on the bus: every wanted property narrows the
    choice, and a probe made of one statement passes if something is left. */
module ProbeSelection {
  import opened Bytes
  import opened Probe

  /** The objects that have the interface, seen through it, in order. */
  function Having(objects: seq<Object>, interfaceName: string): seq<Device> {
    if objects == [] then []
    else
      (if interfaceName in objects[0].interfaces then [Device(objects[0].interfaces[interfaceName], objects[0].path)]
       else [])
      + Having(objects[1..], interfaceName)
  }

  /** The devices whose property `p` is there and matches `v`, in order. */
  function Narrowed(bus: Bus, devices: seq<Device>, p: string, v: Value): seq<Device> {
    if devices == [] then []
    else
      (if p in devices[0].interface && bus.matches(v, devices[0].interface[p]) then [devices[0]] else [])
      + Narrowed(bus, devices[1..], p, v)
  }

  lemma {:induction false} HavingLast(objects: seq<Object>, o: Object, interfaceName: string)
    ensures Having(objects + [o], interfaceName) == Having(objects, interfaceName) + Having([o], interfaceName)
  {
    if objects == [] {
      assert objects + [o] == [o];
    } else {
      assert (objects + [o])[1..] == objects[1..] + [o];
      HavingLast(objects[1..], o, interfaceName);
    }
  }

  lemma {:induction false} NarrowedConcat(bus: Bus, some: seq<Device>, more: seq<Device>, p: string, v: Value)
    ensures Narrowed(bus, some + more, p, v) == Narrowed(bus, some, p, v) + Narrowed(bus, more, p, v)
  {
    if some == [] {
      assert some + more == more;
    } else {
      assert (some + more)[1..] == some[1..] + more;
      NarrowedConcat(bus, some[1..], more, p, v);
    }
  }

  /** With nothing wanted, exactly the objects with the interface are found. */
  lemma {:induction false} NothingWanted(bus: Bus, objects: seq<Object>, interfaceName: string)
    ensures Selected(bus, objects, interfaceName, map[]) == Having(objects, interfaceName)
  {
    if objects != [] {
      var init, last := objects[..|objects| - 1], objects[|objects| - 1];
      assert objects == init + [last];
      NothingWanted(bus, init, interfaceName);
      HavingLast(init, last, interfaceName);
      assert [last][1..] == [];
    }
  }

  lemma SelectsMore(bus: Bus, o: Object, interfaceName: string, wanted: map<string, Value>, p: string, v: Value)
    requires p !in wanted
    ensures Selects(bus, o, interfaceName, wanted[p := v]) <==>
              && Selects(bus, o, interfaceName, wanted)
              && p in o.interfaces[interfaceName] && bus.matches(v, o.interfaces[interfaceName][p])
  {
    var more := wanted[p := v];
    assert forall q :: q in more <==> q in wanted || q == p;
    assert forall q :: q in wanted ==> more[q] == wanted[q];
  }

  /** One more wanted property keeps exactly those devices that have it with a value that matches. */
  lemma {:induction false} WantedNarrows(bus: Bus, objects: seq<Object>, interfaceName: string,
                                         wanted: map<string, Value>, p: string, v: Value)
    requires p !in wanted
    ensures Selected(bus, objects, interfaceName, wanted[p := v]) ==
            Narrowed(bus, Selected(bus, objects, interfaceName, wanted), p, v)
  {
    if objects != [] {
      var init, last := objects[..|objects| - 1], objects[|objects| - 1];
      WantedNarrows(bus, init, interfaceName, wanted, p, v);
      SelectsMore(bus, last, interfaceName, wanted, p, v);
      var d := if Selects(bus, last, interfaceName, wanted)
               then [Device(last.interfaces[interfaceName], last.path)] else [];
      NarrowedConcat(bus, Selected(bus, init, interfaceName, wanted), d, p, v);
      assert d != [] ==> d[1..] == [];
    }
  }

  /** An object that lacks a wanted property is not found. */
  lemma LackingIsNotFound(bus: Bus, objects: seq<Object>, interfaceName: string, wanted: map<string, Value>, p: string,
                          d: Device)
    requires p in wanted && p !in d.interface
    ensures d !in Selected(bus, objects, interfaceName, wanted)
  {
    SelectedMatching(bus, objects, interfaceName, wanted, d);
  }

  lemma {:induction false} FirstOf(name: string, c: char, rest: string)
    requires c !in name
    ensures FindFirst(name + [c] + rest, c) == Some(|name|)
  {
    if name != [] {
      assert (name + [c] + rest)[1..] == name[1..] + [c] + rest;
      FirstOf(name[1..], c, rest);
    }
  }

  lemma LastOf(front: string, c: char)
    ensures FindLast(front + [c], c) == Some(|front|)
  {
  }

  /** A statement `name(args)` asks for the properties its arguments spell. */
  lemma StatementWanted(bus: Bus, name: string, args: string)
    requires '(' !in name
    ensures Wanted(bus, name + ['('] + args + [')']) ==
            match bus.parse(args) case None => None case Some(wanted) => Some((name, wanted))
  {
    var s := name + ['('] + args + [')'];
    assert s == name + ['('] + (args + [')']);
    FirstOf(name, '(', args + [')']);
    LastOf(name + ['('] + args, ')');
    assert s[..|name|] == name && s[|name| + 1..|s| - 1] == args;
  }

  /** A probe that is one statement passes if and only if an object has the interface and every wanted
      property, with a value that matches, and is then applied to exactly those objects. */
  lemma StatementVerdict(bus: Bus, passed: seq<string>, name: string, args: string)
    requires '(' !in name
    ensures var probe := [DbusProbe(name + ['('] + args + [')'])];
            match bus.parse(args)
            case None => !Verdict(bus, passed, probe)
            case Some(wanted) =>
              && (Verdict(bus, passed, probe) <==> exists d :: Matching(bus, bus.objects, name, wanted, d))
              && (Verdict(bus, passed, probe) ==> Chosen(bus, probe) == Selected(bus, bus.objects, name, wanted))
  {
    var t := DbusProbe(name + ['('] + args + [')']);
    StatementWanted(bus, name, args);
    if bus.parse(args).None? {
      assert !Legal(bus, [t][0]);
    } else {
      var found := Selected(bus, bus.objects, name, bus.parse(args).value);
      OneToken(bus, passed, t);
      assert found != [] ==> found[0] in found;
      forall d ensures d in found <==> Matching(bus, bus.objects, name, bus.parse(args).value, d) {
        SelectedMatching(bus, bus.objects, name, bus.parse(args).value, d);
      }
    }
  }

  lemma OneToken(bus: Bus, passed: seq<string>, t: Token)
    requires t.DbusProbe? && Legal(bus, t)
    ensures Verdict(bus, passed, [t]) <==> TokenDevices(bus, t) != []
    ensures Devices(bus, [t]) == TokenDevices(bus, t)
  {
    assert [t][..0] == [] && [t][0] == t;
    assert Fold(bus, passed, []) == START;
  }

  /** With MATCH_ONE behind the statement only the last of those objects is kept. */
  lemma MatchOneKeepsLast(bus: Bus, passed: seq<string>, name: string, args: string, wanted: map<string, Value>,
                          front: seq<Device>, last: Device)
    requires '(' !in name && bus.parse(args) == Some(wanted)
    requires Selected(bus, bus.objects, name, wanted) == front + [last]
    ensures var probe := [DbusProbe(name + ['('] + args + [')']), MatchOne];
            Verdict(bus, passed, probe) && Chosen(bus, probe) == [last]
  {
    var t := DbusProbe(name + ['('] + args + [')']);
    var probe := [t, MatchOne];
    StatementWanted(bus, name, args);
    OneToken(bus, passed, t);
    FoldLast(bus, passed, [t], MatchOne);
    assert [t] + [MatchOne] == probe && probe[..1] == [t];
    assert AllLegal(bus, probe);
    assert Devices(bus, probe) == front + [last];
    assert probe[1] == MatchOne;
  }

  /** A probe without statements is applied once, to no device. */
  lemma NoStatementNoDevice(bus: Bus, passed: seq<string>, name: string)
    ensures Verdict(bus, passed, [BoolTrue]) && !Verdict(bus, passed, [BoolFalse])
    ensures Verdict(bus, passed, [Found(name)]) <==> name in passed
    ensures Chosen(bus, [BoolTrue]) == Chosen(bus, [Found(name)]) == [Device(map[], "")]
  {
    FoldLast(bus, passed, [], BoolTrue);
    FoldLast(bus, passed, [], BoolFalse);
    FoldLast(bus, passed, [], Found(name));
    assert [] + [BoolTrue] == [BoolTrue] && [] + [BoolFalse] == [BoolFalse] && [] + [Found(name)] == [Found(name)];
    assert Devices(bus, [BoolTrue]) == Devices(bus, []) && Devices(bus, [Found(name)]) == Devices(bus, []);
  }
}

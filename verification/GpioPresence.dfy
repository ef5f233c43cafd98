/** GPIO presence detection: a device is announced while all its pins are at their active level, and
    pins are watched while some device needs them. */
module GpioPresence {
  datatype Polarity = ActiveHigh | ActiveLow

  type Pins = map<string, Polarity>
  type States = map<string, bool>

  /** The pin's cached level is its active one. */
  predicate Active(states: States, pin: string, polarity: Polarity) {
    pin in states && states[pin] == polarity.ActiveHigh?
  }

  /** All pins are known and active. */
  predicate Present(pins: Pins, states: States) {
    forall p :: p in pins ==> Active(states, p, pins[p])
  }

  /** The name at `i` is not mentioned again. */
  predicate LastMention(names: seq<string>, i: nat)
    requires i < |names|
  {
    forall j :: i < j < |names| ==> names[j] != names[i]
  }

  /** Every name has the polarity of its last mention: active low for 0, active high otherwise. */
  predicate LastCounts(polarity: Pins, names: seq<string>, values: seq<nat>)
    requires |names| == |values|
  {
    forall i :: 0 <= i < |names| && LastMention(names, i) ==>
      names[i] in polarity && polarity[names[i]] == if values[i] == 0 then ActiveLow else ActiveHigh
  }

  lemma OneMoreMention(polarity: Pins, names: seq<string>, values: seq<nat>, name: string, value: nat)
    requires |names| == |values| && LastCounts(polarity, names, values)
    ensures LastCounts(polarity[name := if value == 0 then ActiveLow else ActiveHigh], names + [name], values + [value])
  {
    var more := names + [name];
    forall i | 0 <= i < |names| && LastMention(more, i) ensures names[i] != name && LastMention(names, i) {
      assert more[|names|] == name && forall j :: 0 <= j < |names| ==> more[j] == names[j];
    }
  }

  /** What asking the system for a line leads to. */
  datatype Line = NotFound | RequestFails | Watched

  class DevicePresence {
    const gpioPolarity: Pins
    /** Whether the detected interface is published. */
    var detected: bool

    constructor (gpioNames: seq<string>, gpioValues: seq<nat>)
      requires |gpioNames| == |gpioValues|
      ensures !detected
      ensures gpioPolarity.Keys == (set n | n in gpioNames)
      ensures LastCounts(gpioPolarity, gpioNames, gpioValues)
    {
      detected := false;
      var polarity: Pins := map[];
      var i := 0;
      while i < |gpioNames|
        invariant i <= |gpioNames|
        invariant polarity.Keys == (set n | n in gpioNames[..i])
        invariant LastCounts(polarity, gpioNames[..i], gpioValues[..i])
      {
        assert gpioNames[..i + 1] == gpioNames[..i] + [gpioNames[i]];
        assert gpioValues[..i + 1] == gpioValues[..i] + [gpioValues[i]];
        OneMoreMention(polarity, gpioNames[..i], gpioValues[..i], gpioNames[i], gpioValues[i]);
        polarity := polarity[gpioNames[i] := if gpioValues[i] == 0 then ActiveLow else ActiveHigh];
        i := i + 1;
      }
      assert gpioNames[..i] == gpioNames && gpioValues[..i] == gpioValues;
      gpioPolarity := polarity;
    }

    /** The interface is published exactly while the device is present. */
    predicate UpToDate(states: States)
      reads this
    {
      gpioPolarity != map[] ==> (detected <==> Present(gpioPolarity, states))
    }

    method IsPresent(gpioState: States) returns (present: bool)
      ensures present == Present(gpioPolarity, gpioState)
      ensures present <==> forall pin :: pin in gpioPolarity ==>
                             pin in gpioState && (gpioState[pin] <==> gpioPolarity[pin] == ActiveHigh)
    {
      var rest := gpioPolarity.Keys;
      while rest != {}
        invariant rest <= gpioPolarity.Keys
        invariant forall p :: p in gpioPolarity && p !in rest ==> Active(gpioState, p, gpioPolarity[p])
        decreases |rest|
      {
        var name :| name in rest;
        rest := rest - {name};
        if name !in gpioState {
          return false;
        }
        var state := gpioState[name];
        if state && gpioPolarity[name] == ActiveLow {
          return false;
        }
        if !state && gpioPolarity[name] == ActiveHigh {
          return false;
        }
      }
      present := true;
    }

    method UpdateGPIOPresence(gpioLine: string, gpioState: States)
      modifies this`detected
      ensures detected == if gpioLine in gpioPolarity then Present(gpioPolarity, gpioState) else old(detected)
    {
      if gpioLine !in gpioPolarity {
        return;
      }
      var present := IsPresent(gpioState);
      if present && !detected {
        detected := true;
      }
      if !present && detected {
        detected := false;
      }
    }
  }

  /** A level change of a pin a device does not have says nothing about the device. */
  lemma OtherPin(pins: Pins, states: States, pin: string, level: bool)
    requires pin !in pins
    ensures Present(pins, states[pin := level]) <==> Present(pins, states)
  {
  }

  class GPIOPresenceManager {
    var gpioState: States
    var presenceMap: map<string, DevicePresence>
    var gpioLines: set<string>
    var fdios: set<string>

    /** Each path has its own device, and each device is announced as it should be. */
    ghost predicate Valid()
      reads this, presenceMap.Values
    {
      && (forall a, b :: a in presenceMap && b in presenceMap && a != b ==> presenceMap[a] != presenceMap[b])
      && (forall a :: a in presenceMap ==> presenceMap[a].UpToDate(gpioState))
    }

    /** Pins some device has. */
    ghost predicate Needed(pin: string)
      reads this, presenceMap.Values
    {
      exists a :: a in presenceMap && pin in presenceMap[a].gpioPolarity
    }

    /** Every needed pin is watched. */
    ghost predicate Covered()
      reads this, presenceMap.Values
    {
      (forall pin :: Needed(pin) ==> pin in gpioLines) && fdios == gpioLines
    }

    constructor ()
      ensures Valid() && Covered() && presenceMap == map[] && gpioState == map[]
    {
      gpioState, presenceMap, gpioLines, fdios := map[], map[], {}, {};
    }

    /** A new device, or a new version of one: what is known of its pins counts at once. */
    method AddConfig(obj: string, config: DevicePresence, lines: string -> Line)
      requires Valid() && config !in presenceMap.Values && !config.detected
      modifies this`presenceMap, this`gpioLines, this`fdios, config`detected
      ensures Valid() && presenceMap == old(presenceMap)[obj := config]
      ensures old(Covered()) && (forall pin :: pin in config.gpioPolarity ==> lines(pin) == Watched) ==>
                Covered() && fdios == gpioLines
      ensures old(fdios) <= fdios && old(gpioLines) <= gpioLines
    {
      presenceMap := presenceMap[obj := config];
      RestorePresence(config);
      WatchLines(config, lines);
    }

    method RestorePresence(config: DevicePresence)
      requires !config.detected
      modifies config`detected
      ensures config.UpToDate(gpioState)
    {
      var rest := config.gpioPolarity.Keys;
      while rest != {}
        invariant rest <= config.gpioPolarity.Keys
        invariant (forall p :: p in config.gpioPolarity && p !in rest ==> p !in gpioState) ==> !config.detected
        invariant (exists p :: p in config.gpioPolarity && p !in rest && p in gpioState) ==>
                    config.detected == Present(config.gpioPolarity, gpioState)
        decreases |rest|
      {
        var gpioName :| gpioName in rest;
        rest := rest - {gpioName};
        if gpioName in gpioState {
          config.UpdateGPIOPresence(gpioName, gpioState);
        }
      }
      if p :| p in config.gpioPolarity {
        assert (exists q :: q in config.gpioPolarity && q in gpioState)
               || !Active(gpioState, p, config.gpioPolarity[p]);
      }
    }

    /** Starts watching the pins that are not watched yet; the first failure ends it. */
    method WatchLines(config: DevicePresence, lines: string -> Line)
      modifies this`gpioLines, this`fdios
      ensures old(gpioLines) <= gpioLines && old(fdios) <= fdios
      ensures (forall pin :: pin in config.gpioPolarity ==> lines(pin) == Watched) ==>
                gpioLines == old(gpioLines) + config.gpioPolarity.Keys
                  && (old(fdios == gpioLines) ==> fdios == gpioLines)
    {
      var rest := config.gpioPolarity.Keys;
      while rest != {}
        invariant rest <= config.gpioPolarity.Keys
        invariant old(gpioLines) <= gpioLines && old(fdios) <= fdios
        invariant gpioLines == old(gpioLines) + (config.gpioPolarity.Keys - rest)
        invariant old(fdios == gpioLines) ==> fdios == gpioLines
        decreases |rest|
      {
        var gpioName :| gpioName in rest;
        rest := rest - {gpioName};
        if gpioName in gpioLines {
          continue;
        }
        if lines(gpioName) == NotFound {
          return;
        }
        gpioLines := gpioLines + {gpioName};
        if lines(gpioName) == RequestFails {
          return;
        }
        if gpioName !in fdios {
          fdios := fdios + {gpioName};
        }
      }
    }

    /** A level change reaches every device that has the pin. */
    method UpdatePresence(gpioLine: string, state: bool)
      requires Valid()
      modifies this`gpioState, set d | d in presenceMap.Values :: d`detected
      ensures Valid() && gpioState == old(gpioState)[gpioLine := state]
      ensures old(Covered()) ==> Covered()
    {
      gpioState := gpioState[gpioLine := state];
      var rest := presenceMap.Keys;
      while rest != {}
        invariant rest <= presenceMap.Keys && gpioState == old(gpioState)[gpioLine := state]
        invariant forall a :: a in rest ==> presenceMap[a].UpToDate(old(gpioState))
        invariant forall a :: a in presenceMap && a !in rest ==> presenceMap[a].UpToDate(gpioState)
        decreases |rest|
      {
        var obj :| obj in rest;
        rest := rest - {obj};
        var config := presenceMap[obj];
        assert config in presenceMap.Values;
        if gpioLine !in config.gpioPolarity {
          OtherPin(config.gpioPolarity, old(gpioState), gpioLine, state);
        }
        config.UpdateGPIOPresence(gpioLine, gpioState);
      }
    }

    method NeededPins() returns (gpiosNeeded: set<string>)
      ensures forall pin :: pin in gpiosNeeded <==> Needed(pin)
    {
      gpiosNeeded := {};
      var rest := presenceMap.Keys;
      while rest != {}
        invariant rest <= presenceMap.Keys
        invariant forall pin :: pin in gpiosNeeded <==>
                    exists a :: a in presenceMap && a !in rest && pin in presenceMap[a].gpioPolarity
        decreases |rest|
      {
        var obj :| obj in rest;
        rest := rest - {obj};
        gpiosNeeded := gpiosNeeded + presenceMap[obj].gpioPolarity.Keys;
      }
    }

    /** A device is forgotten, and with it the pins no other device needs. The source leaves it open
        what happens to a line that has no descriptor. */
    method RemoveConfig(objPath: string)
      requires Valid() && gpioLines <= fdios
      modifies this`presenceMap, this`gpioLines, this`fdios
      ensures Valid() && presenceMap == old(presenceMap) - {objPath}
      ensures objPath in old(presenceMap) ==> forall pin :: pin in gpioLines <==> pin in old(gpioLines) && Needed(pin)
      ensures objPath !in old(presenceMap) ==> gpioLines == old(gpioLines) && fdios == old(fdios)
      ensures old(Covered()) ==>
                Covered() && (objPath in old(presenceMap) ==> forall pin :: pin in gpioLines <==> Needed(pin))
    {
      if objPath !in presenceMap {
        return;
      }
      presenceMap := presenceMap - {objPath};
      var gpiosNeeded := NeededPins();
      ReleaseLines(gpiosNeeded);
      forall a | a in presenceMap ensures presenceMap[a] == old(presenceMap)[a] && presenceMap[a].UpToDate(gpioState) {
      }
    }

    method ReleaseLines(gpiosNeeded: set<string>)
      requires gpioLines <= fdios
      modifies this`gpioLines, this`fdios
      ensures gpioLines == old(gpioLines) * gpiosNeeded
      ensures fdios == old(fdios) - (old(gpioLines) - gpiosNeeded)
    {
      var trackedGPIOs := gpioLines;
      while trackedGPIOs != {}
        invariant trackedGPIOs <= old(gpioLines)
        invariant gpioLines == old(gpioLines) - ((old(gpioLines) - trackedGPIOs) - gpiosNeeded)
        invariant fdios == old(fdios) - ((old(gpioLines) - trackedGPIOs) - gpiosNeeded)
        decreases |trackedGPIOs|
      {
        var trackedGPIO :| trackedGPIO in trackedGPIOs;
        trackedGPIOs := trackedGPIOs - {trackedGPIO};
        if trackedGPIO in gpiosNeeded {
          continue;
        }
        gpioLines := gpioLines - {trackedGPIO};
        fdios := fdios - {trackedGPIO};
      }
    }
  }
}

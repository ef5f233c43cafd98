/** What a passing probe does to the system configuration: devices seen before get their records back,
    the others are given the lowest numbers that are still free. */
module SystemConfiguration {
  import opened Bytes
  import opened Decimals
  import opened Probe

  /** A record, as far as it matters here. `exposes` is the "Exposes" array, with its null entries. */
  datatype Record = Record(name: Option<string>, exposes: Option<seq<Option<string>>>)

  /** How a configuration whose probe has passed names its devices. `recordName` is a device's record
      key, `deviceName` what its name template becomes for a device and a number, `filled` its other fields. */
  datatype Naming = Naming(probeName: string, recordName: Interface -> string,
                           deviceName: (Device, nat) -> string, filled: (Device, nat) -> Option<seq<Option<string>>>)

  /** The entries that are not null, in order. */
  function PruneExposes(exposes: seq<Option<string>>): seq<Option<string>> {
    if exposes == [] then []
    else PruneExposes(exposes[..|exposes| - 1]) + if exposes[|exposes| - 1].Some? then [exposes[|exposes| - 1]] else []
  }

  function PruneRecordExposes(record: Record): Record {
    if record.exposes.None? then record else record.(exposes := Some(PruneExposes(record.exposes.value)))
  }

  const INT_MAX := 0x7FFF_FFFF

  function DigitCount(s: string): (n: nat)
    ensures n <= |s| && (n < |s| ==> !IsDigit(s[n])) && forall i :: 0 <= i < n ==> IsDigit(s[i])
  {
    if s != [] && IsDigit(s[0]) then 1 + DigitCount(s[1..]) else 0
  }

  /** The number `s` starts with, None when there is none or an int does not hold it. */
  function LeadingNumber(s: string): Option<int> {
    var negative := s != [] && s[0] == '-';
    var digits := if negative then s[1..] else s;
    var n := DigitCount(digits);
    var v: int := DecimalValue(digits[..n]);
    if n == 0 then None
    else if negative then (if v > INT_MAX + 1 then None else Some(-v))
    else if v > INT_MAX then None
    else Some(v)
  }

  /** The number in a restored record's name, at the place of the template's first variable. */
  function Recovered(probeName: string, record: Record): Option<int> {
    var at := FindFirst(probeName, '$');
    if at.None? || record.name.None? || at.value > |record.name.value| then None
    else LeadingNumber(record.name.value[at.value..])
  }

  predicate Increasing(s: seq<nat>) {
    forall i, j :: 0 <= i < j < |s| ==> s[i] < s[j]
  }

  lemma IncreasingAppend(s: seq<nat>, x: nat)
    requires Increasing(s) && forall y :: y in s ==> y < x
    ensures Increasing(s + [x])
  {
    assert forall i :: 0 <= i < |s| ==> (s + [x])[i] in s;
  }

  /** `s` without the number `x`. */
  function Without(s: seq<nat>, x: int): (r: seq<nat>)
    requires Increasing(s)
    ensures Increasing(r) && |s| - 1 <= |r| <= |s| && forall y :: y in r <==> y in s && y != x
  {
    if s == [] then []
    else
      var init, last := s[..|s| - 1], s[|s| - 1];
      assert s == init + [last];
      if last == x then init
      else
        IncreasingAppend(Without(init, x), last);
        Without(init, x) + [last]
  }

  /** Known devices' keys. */
  predicate Known(system: map<string, Record>, lastJson: map<string, Record>, key: string) {
    key in system || key in lastJson
  }

  function KnownRecord(system: map<string, Record>, lastJson: map<string, Record>, key: string): Record
    requires Known(system, lastJson, key)
  {
    if key in system then system[key] else PruneRecordExposes(lastJson[key])
  }

  /** The devices among `devices` no record is known for, in order. */
  function Unknown(c: Naming, system: map<string, Record>, lastJson: map<string, Record>,
                   devices: seq<Device>): (r: seq<Device>)
    ensures |r| <= |devices|
  {
    if devices == [] then []
    else
      var last := devices[|devices| - 1];
      Unknown(c, system, lastJson, devices[..|devices| - 1])
      + if Known(system, lastJson, c.recordName(last.interface)) then [] else [last]
  }

  /** `n` is the number of a restored device among `devices`. */
  predicate Taken(c: Naming, system: map<string, Record>, lastJson: map<string, Record>, devices: seq<Device>, n: int) {
    exists i :: 0 <= i < |devices| && TakenBy(c, system, lastJson, devices[i], n)
  }

  predicate TakenBy(c: Naming, system: map<string, Record>, lastJson: map<string, Record>, d: Device, n: int) {
    var key := c.recordName(d.interface);
    Known(system, lastJson, key) && Recovered(c.probeName, KnownRecord(system, lastJson, key)) == Some(n)
  }

  /** `indexes` are the numbers 1..n that no restored device has, in order. */
  ghost predicate FreeIndexes(c: Naming, system: map<string, Record>, lastJson: map<string, Record>,
                              devices: seq<Device>, n: nat, indexes: seq<nat>)
  {
    Increasing(indexes) && forall x :: x in indexes <==> 1 <= x <= n && !Taken(c, system, lastJson, devices, x)
  }

  ghost predicate IsIota(s: seq<nat>, n: nat) {
    |s| == n && Increasing(s) && forall x :: x in s <==> 1 <= x <= n
  }

  function Iota(n: nat): (s: seq<nat>)
    ensures IsIota(s, n)
  {
    if n == 0 then []
    else
      IncreasingAppend(Iota(n - 1), n);
      Iota(n - 1) + [n]
  }

  /** Record keys of the devices a record is known for. */
  function KnownKeys(c: Naming, system: map<string, Record>, lastJson: map<string, Record>,
                     devices: seq<Device>): set<string>
  {
    set i | 0 <= i < |devices| && Known(system, lastJson, c.recordName(devices[i].interface)) ::
      c.recordName(devices[i].interface)
  }

  /** The configuration with the known devices' records in it. */
  function Restored(c: Naming, system: map<string, Record>, lastJson: map<string, Record>,
                    devices: seq<Device>): map<string, Record>
  {
    if devices == [] then system
    else
      var before := Restored(c, system, lastJson, devices[..|devices| - 1]);
      var key := c.recordName(devices[|devices| - 1].interface);
      if Known(system, lastJson, key) then before[key := KnownRecord(system, lastJson, key)] else before
  }

  lemma {:induction false} RestoredIs(c: Naming, system: map<string, Record>, lastJson: map<string, Record>,
                                      devices: seq<Device>, key: string)
    ensures var r := Restored(c, system, lastJson, devices);
            && (key in r <==> key in system || key in KnownKeys(c, system, lastJson, devices))
            && (key in r ==> Known(system, lastJson, key) && r[key] == KnownRecord(system, lastJson, key))
  {
    if devices != [] {
      var init := devices[..|devices| - 1];
      RestoredIs(c, system, lastJson, init, key);
      assert forall i :: 0 <= i < |init| ==> devices[i] == init[i];
      assert KnownKeys(c, system, lastJson, devices) == KnownKeys(c, system, lastJson, init)
        + if Known(system, lastJson, c.recordName(devices[|devices| - 1].interface))
          then {c.recordName(devices[|devices| - 1].interface)} else {};
    }
  }

  lemma {:induction false} PruneFirst(e: Option<string>, rest: seq<Option<string>>)
    ensures PruneExposes([e] + rest) == (if e.Some? then [e] else []) + PruneExposes(rest) && PruneExposes([]) == []
  {
    var s := [e] + rest;
    if rest == [] {
      assert s[..0] == [];
    } else {
      PruneFirst(e, rest[..|rest| - 1]);
      assert s[..|s| - 1] == [e] + rest[..|rest| - 1];
    }
  }

  /** A found device's record is the one in the configuration, as it is; if there is none, the last
      boot's, without the null entries of its "Exposes". */
  lemma RestoredRecords(c: Naming, system: map<string, Record>, lastJson: map<string, Record>, devices: seq<Device>,
                        i: nat)
    requires i < |devices|
    ensures var key, r := c.recordName(devices[i].interface), Restored(c, system, lastJson, devices);
            && (key in system ==> key in r && r[key] == system[key])
            && (key !in system && key in lastJson ==>
                  && key in r && r[key].name == lastJson[key].name
                  && r[key].exposes == match lastJson[key].exposes case None => None
                                       case Some(e) => Some(PruneExposes(e)))
            && (key !in system && key !in lastJson ==> key !in r)
  {
    RestoredIs(c, system, lastJson, devices, c.recordName(devices[i].interface));
  }

  function NewRecord(c: Naming, d: Device, n: nat): Record {
    Record(Some(c.deviceName(d, n)), c.filled(d, n))
  }

  /** The configuration with records for new devices, numbered `numbers`. */
  function Named(c: Naming, system: map<string, Record>, devices: seq<Device>, numbers: seq<nat>): map<string, Record>
    requires |devices| == |numbers|
  {
    if devices == [] then system
    else
      var n := |devices| - 1;
      var front := Named(c, system, devices[..n], numbers[..n]);
      front[c.recordName(devices[n].interface) := NewRecord(c, devices[n], numbers[n])]
  }

  function NewNames(c: Naming, devices: seq<Device>, numbers: seq<nat>): (r: seq<string>)
    requires |devices| == |numbers|
    ensures |r| == |devices| && forall i :: 0 <= i < |r| ==> r[i] == c.deviceName(devices[i], numbers[i])
  {
    seq(|devices|, i requires 0 <= i < |devices| => c.deviceName(devices[i], numbers[i]))
  }

  /** Record keys of the new devices that expose anything. */
  function ExposingKeys(c: Naming, devices: seq<Device>, numbers: seq<nat>): set<string>
    requires |devices| == |numbers|
  {
    set i | 0 <= i < |devices| && c.filled(devices[i], numbers[i]).Some? :: c.recordName(devices[i].interface)
  }

  lemma ExposingKeysMore(c: Naming, devices: seq<Device>, numbers: seq<nat>, d: Device, n: nat)
    requires |devices| == |numbers|
    ensures ExposingKeys(c, devices + [d], numbers + [n]) ==
            ExposingKeys(c, devices, numbers) + if c.filled(d, n).Some? then {c.recordName(d.interface)} else {}
  {
    var ds, ns := devices + [d], numbers + [n];
    assert forall i :: 0 <= i < |devices| ==> ds[i] == devices[i] && ns[i] == numbers[i];
    assert ds[|devices|] == d && ns[|devices|] == n;
  }

  /** `numbers` are in order, and are the lowest of 1..n that no restored device has. */
  ghost predicate LowestFree(c: Naming, system: map<string, Record>, lastJson: map<string, Record>,
                             devices: seq<Device>, n: nat, numbers: seq<nat>)
  {
    && Increasing(numbers)
    && (forall x :: x in numbers ==> 1 <= x <= n && !Taken(c, system, lastJson, devices, x))
    && (forall x, y :: 1 <= x <= n && !Taken(c, system, lastJson, devices, x) && x !in numbers && y in numbers ==>
         y < x)
  }

  lemma FrontOfFree(c: Naming, system: map<string, Record>, lastJson: map<string, Record>, devices: seq<Device>, n: nat,
                    free: seq<nat>, i: nat)
    requires FreeIndexes(c, system, lastJson, devices, n, free) && i <= |free|
    ensures LowestFree(c, system, lastJson, devices, n, free[..i])
  {
    var front := free[..i];
    assert forall x :: x in front ==> x in free;
    assert forall j :: 0 <= j < i ==> free[j] in front;
    forall x, y | 1 <= x <= n && !Taken(c, system, lastJson, devices, x) && x !in front && y in front ensures y < x {
      assert x in free;
      var j :| 0 <= j < |free| && free[j] == x;
      var k :| 0 <= k < |front| && front[k] == y;
      assert free[k] == y;
    }
  }

  lemma TakenMore(c: Naming, system: map<string, Record>, lastJson: map<string, Record>, devices: seq<Device>, i: nat,
                  x: int)
    requires i < |devices|
    ensures Taken(c, system, lastJson, devices[..i + 1], x) <==>
              Taken(c, system, lastJson, devices[..i], x) || TakenBy(c, system, lastJson, devices[i], x)
  {
    var some, more := devices[..i], devices[..i + 1];
    assert more == some + [devices[i]];
    if Taken(c, system, lastJson, some, x) {
      var j :| 0 <= j < |some| && TakenBy(c, system, lastJson, some[j], x);
      assert more[j] == some[j];
    }
    assert more[i] == devices[i];
  }

  lemma KnownKeysMore(c: Naming, system: map<string, Record>, lastJson: map<string, Record>, devices: seq<Device>,
                      i: nat)
    requires i < |devices|
    ensures KnownKeys(c, system, lastJson, devices[..i + 1]) == KnownKeys(c, system, lastJson, devices[..i])
            + if Known(system, lastJson, c.recordName(devices[i].interface))
              then {c.recordName(devices[i].interface)} else {}
  {
    var some, more := devices[..i], devices[..i + 1];
    assert forall j :: 0 <= j < i ==> more[j] == some[j];
    assert more[i] == devices[i];
  }

  /** The number the device at hand no longer leaves free. */
  function Number(c: Naming, system: map<string, Record>, lastJson: map<string, Record>, d: Device): Option<int> {
    var key := c.recordName(d.interface);
    if Known(system, lastJson, key) then Recovered(c.probeName, KnownRecord(system, lastJson, key)) else None
  }

  /** One device more: its number, if it is restored, is the one that is no longer free. */
  lemma OneMoreDevice(c: Naming, system: map<string, Record>, lastJson: map<string, Record>, devices: seq<Device>,
                      i: nat, n: nat, indexes: seq<nat>)
    requires i < |devices| && FreeIndexes(c, system, lastJson, devices[..i], n, indexes)
    ensures var number := Number(c, system, lastJson, devices[i]);
            var left := if number.Some? then Without(indexes, number.value) else indexes;
            FreeIndexes(c, system, lastJson, devices[..i + 1], n, left) && |left| + 1 >= |indexes|
  {
    var number := Number(c, system, lastJson, devices[i]);
    var left := if number.Some? then Without(indexes, number.value) else indexes;
    forall x ensures x in left <==> 1 <= x <= n && !Taken(c, system, lastJson, devices[..i + 1], x) {
      TakenMore(c, system, lastJson, devices, i, x);
      assert TakenBy(c, system, lastJson, devices[i], x) <==> number == Some(x);
    }
  }

  /** What has been restored after some of the devices. */
  ghost predicate Restoring(c: Naming, system: map<string, Record>, lastJson: map<string, Record>, some: seq<Device>,
                            n: nat,
                            left: seq<Device>, indexes: seq<nat>, now: map<string, Record>)
  {
    && left == Unknown(c, system, lastJson, some)
    && FreeIndexes(c, system, lastJson, some, n, indexes)
    && |indexes| + |some| >= n + |left|
    && now == Restored(c, system, lastJson, some)
  }

  lemma RestoreStep(c: Naming, system: map<string, Record>, lastJson: map<string, Record>, devices: seq<Device>, i: nat,
                    left: seq<Device>, indexes: seq<nat>, now: map<string, Record>)
    requires i < |devices| && Restoring(c, system, lastJson, devices[..i], |devices|, left, indexes, now)
    ensures var key := c.recordName(devices[i].interface);
            && (Known(system, lastJson, key) <==> key in now || key in lastJson)
            && (key in now ==> now[key] == KnownRecord(system, lastJson, key))
            && (Known(system, lastJson, key) && key !in now ==>
                 KnownRecord(system, lastJson, key) == PruneRecordExposes(lastJson[key]))
    ensures var key := c.recordName(devices[i].interface);
            if Known(system, lastJson, key) then
              var number := Recovered(c.probeName, KnownRecord(system, lastJson, key));
              Restoring(c, system, lastJson, devices[..i + 1], |devices|, left,
                if number.Some? then Without(indexes, number.value) else indexes,
                        now[key := KnownRecord(system, lastJson, key)])
            else
              Restoring(c, system, lastJson, devices[..i + 1], |devices|, left + [devices[i]], indexes, now)
  {
    RestoredIs(c, system, lastJson, devices[..i], c.recordName(devices[i].interface));
    NextDevice(c, system, lastJson, devices, i);
    OneMoreDevice(c, system, lastJson, devices, i, |devices|, indexes);
  }

  /** What one more device adds to the devices without a record, and to the records. */
  lemma NextDevice(c: Naming, system: map<string, Record>, lastJson: map<string, Record>, devices: seq<Device>, i: nat)
    requires i < |devices|
    ensures var key := c.recordName(devices[i].interface);
            var some, more := devices[..i], devices[..i + 1];
            && Unknown(c, system, lastJson, more) ==
               Unknown(c, system, lastJson, some) + (if Known(system, lastJson, key) then [] else [devices[i]])
            && Restored(c, system, lastJson, more) ==
               if Known(system, lastJson, key)
                 then Restored(c, system, lastJson, some)[key := KnownRecord(system, lastJson, key)]
               else Restored(c, system, lastJson, some)
  {
    assert devices[..i + 1][..i] == devices[..i];
  }

  class Inventory {
    var systemConfiguration: map<string, Record>
    var lastJson: map<string, Record>
    var missing: set<string>
    var passedProbes: seq<string>

    /** The number of a restored record is no longer free. */
    method RecordDiscoveredIdentifiers(probeName: string, record: Record, indexes: seq<nat>) returns (left: seq<nat>)
      requires Increasing(indexes)
      ensures left == match Recovered(probeName, record) case None => indexes case Some(n) => Without(indexes, n)
    {
      var indexIdx := FindFirst(probeName, '$');
      if indexIdx.None? {
        return indexes;
      }
      if record.name.None? {
        return indexes;
      }
      if indexIdx.value > |record.name.value| {
        return indexes;
      }
      var index := LeadingNumber(record.name.value[indexIdx.value..]);
      if index.None? {
        return indexes;
      }
      left := Without(indexes, index.value);
    }

    /** A device's record is looked up, here and in the last boot's; its number is taken. */
    method RestoreDevice(c: Naming, recordName: string, indexes: seq<nat>) returns (known: bool, left: seq<nat>)
      requires Increasing(indexes)
      modifies this`systemConfiguration, this`missing
      ensures known == Known(old(systemConfiguration), lastJson, recordName)
      ensures known ==>
                var record := KnownRecord(old(systemConfiguration), lastJson, recordName);
                && systemConfiguration == old(systemConfiguration)[recordName := record]
                && missing == old(missing) - {recordName}
                && left == match Recovered(c.probeName, record) case None => indexes case Some(n) => Without(indexes, n)
      ensures !known ==> systemConfiguration == old(systemConfiguration) && missing == old(missing) && left == indexes
    {
      if recordName !in systemConfiguration {
        if recordName !in lastJson {
          return false, indexes;
        }
        systemConfiguration := systemConfiguration[recordName := PruneRecordExposes(lastJson[recordName])];
      }
      missing := missing - {recordName};
      left := RecordDiscoveredIdentifiers(c.probeName, systemConfiguration[recordName], indexes);
      known := true;
    }

    /** Devices whose record is known get it back; the others stay in `left`, and the numbers the
        restored ones do not use in `indexes`. */
    method RestorePersistedConfigurations(c: Naming, foundDevices: seq<Device>, all: seq<nat>)
      returns (left: seq<Device>, indexes: seq<nat>)
      requires IsIota(all, |foundDevices|)
      modifies this`systemConfiguration, this`missing
      ensures left == Unknown(c, old(systemConfiguration), lastJson, foundDevices)
      ensures FreeIndexes(c, old(systemConfiguration), lastJson, foundDevices, |foundDevices|, indexes)
      ensures |left| <= |indexes|
      ensures systemConfiguration == Restored(c, old(systemConfiguration), lastJson, foundDevices)
      ensures missing == old(missing) - KnownKeys(c, old(systemConfiguration), lastJson, foundDevices)
    {
      left, indexes := [], all;
      ghost var system, absent := systemConfiguration, missing;
      var i := 0;
      while i < |foundDevices|
        invariant i <= |foundDevices|
        invariant Restoring(c, system, lastJson, foundDevices[..i], |foundDevices|, left, indexes, systemConfiguration)
        invariant missing == absent - KnownKeys(c, system, lastJson, foundDevices[..i])
      {
        var device := foundDevices[i];
        var recordName := c.recordName(device.interface);
        RestoreStep(c, system, lastJson, foundDevices, i, left, indexes, systemConfiguration);
        KnownKeysMore(c, system, lastJson, foundDevices, i);
        var known;
        known, indexes := RestoreDevice(c, recordName, indexes);
        if !known {
          left := left + [device];
        }
        i := i + 1;
      }
      assert foundDevices[..i] == foundDevices;
    }

    /** A device no record is known for: it gets the next free number. */
    method UpdateSystemConfigurationForDevice(c: Naming, device: Device, indexes: seq<nat>) returns (left: seq<nat>)
      requires indexes != []
      modifies this`systemConfiguration, this`missing, this`passedProbes
      ensures left == indexes[1..]
      ensures systemConfiguration ==
              old(systemConfiguration)[c.recordName(device.interface) := NewRecord(c, device, indexes[0])]
      ensures systemConfiguration[c.recordName(device.interface)] ==
              Record(Some(c.deviceName(device, indexes[0])), c.filled(device, indexes[0]))
      ensures passedProbes == old(passedProbes) + [c.deviceName(device, indexes[0])]
      ensures missing == old(missing) -
              if NewRecord(c, device, indexes[0]).exposes.Some? then {c.recordName(device.interface)} else {}
    {
      var recordName := c.recordName(device.interface);
      var foundDeviceIdx := indexes[0];
      left := indexes[1..];
      var deviceName := c.deviceName(device, foundDeviceIdx);
      var record := Record(Some(deviceName), c.filled(device, foundDeviceIdx));
      passedProbes := passedProbes + [deviceName];
      systemConfiguration := systemConfiguration[recordName := record];
      if record.exposes.None? {
        return;
      }
      systemConfiguration := systemConfiguration[recordName := record];
      missing := missing - {recordName};
    }

    /** The loop over the devices that are new. */
    method NameDevices(c: Naming, left: seq<Device>, free: seq<nat>) returns (numbers: seq<nat>)
      requires |left| <= |free|
      modifies this`systemConfiguration, this`missing, this`passedProbes
      ensures numbers == free[..|left|]
      ensures systemConfiguration == Named(c, old(systemConfiguration), left, numbers)
      ensures passedProbes == old(passedProbes) + NewNames(c, left, numbers)
      ensures missing == old(missing) - ExposingKeys(c, left, numbers)
    {
      var indexes := free;
      numbers := [];
      var i := 0;
      while i < |left|
        invariant i <= |left| && numbers == free[..i] && indexes == free[i..]
        invariant systemConfiguration == Named(c, old(systemConfiguration), left[..i], numbers)
        invariant passedProbes == old(passedProbes) + NewNames(c, left[..i], numbers)
        invariant missing == old(missing) - ExposingKeys(c, left[..i], numbers)
      {
        ExposingKeysMore(c, left[..i], numbers, left[i], indexes[0]);
        assert left[..i + 1] == left[..i] + [left[i]];
        assert left[..i + 1][..i] == left[..i];
        assert (numbers + [indexes[0]])[..i] == numbers;
        numbers := numbers + [indexes[0]];
        indexes := UpdateSystemConfigurationForDevice(c, left[i], indexes);
        i := i + 1;
      }
      assert left[..i] == left;
    }

    /** A passing probe is applied. `numbers` are the numbers its new devices were given. */
    method UpdateSystemConfiguration(c: Naming, foundDevices: seq<Device>) returns (numbers: seq<nat>)
      modifies this
      ensures lastJson == old(lastJson)
      ensures var unknown := Unknown(c, old(systemConfiguration), lastJson, foundDevices);
              && |numbers| == |unknown|
              && systemConfiguration ==
                 Named(c, Restored(c, old(systemConfiguration), lastJson, foundDevices), unknown, numbers)
              && passedProbes == old(passedProbes) + [c.probeName] + NewNames(c, unknown, numbers)
              && missing ==
                 old(missing) - KnownKeys(c, old(systemConfiguration), lastJson, foundDevices)
                 - ExposingKeys(c, unknown, numbers)
      ensures LowestFree(c, old(systemConfiguration), lastJson, foundDevices, |foundDevices|, numbers)
      ensures Applies(Application(c, foundDevices, numbers), lastJson, old(systemConfiguration), systemConfiguration)
    {
      passedProbes := passedProbes + [c.probeName];
      var indexes := Iota(|foundDevices|);
      var left;
      left, indexes := RestorePersistedConfigurations(c, foundDevices, indexes);
      ghost var free := indexes;
      numbers := NameDevices(c, left, indexes);
      FrontOfFree(c, old(systemConfiguration), lastJson, foundDevices, |foundDevices|, free, |left|);
    }
  }

  /** The template's number can be read back from every name it makes. */
  ghost predicate Numbered(c: Naming) {
    forall d, n: nat, exposes :: n <= INT_MAX ==>
      Recovered(c.probeName, Record(Some(c.deviceName(d, n)), exposes)) == Some(n)
  }

  /** With such a template no new device has the name of another one or of a restored one. */
  lemma NewNamesAreFresh(c: Naming, system: map<string, Record>, lastJson: map<string, Record>, devices: seq<Device>,
                         numbers: seq<nat>)
    requires Numbered(c) && |devices| <= INT_MAX
    requires |numbers| == |Unknown(c, system, lastJson, devices)|
    requires LowestFree(c, system, lastJson, devices, |devices|, numbers)
    ensures var names := NewNames(c, Unknown(c, system, lastJson, devices), numbers);
            && (forall i, j :: 0 <= i < j < |names| ==> names[i] != names[j])
            && (forall i, j :: 0 <= i < |names| && 0 <= j < |devices| ==>
                  Known(system, lastJson, c.recordName(devices[j].interface)) ==>
                  KnownRecord(system, lastJson, c.recordName(devices[j].interface)).name != Some(names[i]))
  {
    var unknown := Unknown(c, system, lastJson, devices);
    var names := NewNames(c, unknown, numbers);
    forall i, j | 0 <= i < j < |names| ensures names[i] != names[j] {
      assert numbers[i] in numbers && numbers[j] in numbers;
      assert Recovered(c.probeName, Record(Some(c.deviceName(unknown[i], numbers[i])), None)) == Some(numbers[i]);
      assert Recovered(c.probeName, Record(Some(c.deviceName(unknown[j], numbers[j])), None)) == Some(numbers[j]);
    }
    forall i, j | 0 <= i < |names| && 0 <= j < |devices| && Known(system, lastJson, c.recordName(devices[j].interface))
      ensures KnownRecord(system, lastJson, c.recordName(devices[j].interface)).name != Some(names[i])
    {
      var record := KnownRecord(system, lastJson, c.recordName(devices[j].interface));
      assert numbers[i] in numbers;
      assert Recovered(c.probeName, Record(Some(c.deviceName(unknown[i], numbers[i])), record.exposes)) ==
             Some(numbers[i]);
      assert !TakenBy(c, system, lastJson, devices[j], numbers[i]);
    }
  }

  lemma {:induction false} DigitRun(s: string, rest: string)
    requires (forall i :: 0 <= i < |s| ==> IsDigit(s[i])) && (rest != [] ==> !IsDigit(rest[0]))
    ensures DigitCount(s + rest) == |s|
  {
    if s == [] {
      assert s + rest == rest;
    } else {
      assert (s + rest)[1..] == s[1..] + rest;
      DigitRun(s[1..], rest);
    }
  }

  const UINT64_LIMIT := 0x1_0000_0000_0000_0000

  predicate IsHexDigit(c: char) {
    IsDigit(c) || 'a' <= c <= 'f' || 'A' <= c <= 'F'
  }

  function HexDigitValue(c: char): nat
    requires IsHexDigit(c)
  {
    if IsDigit(c) then DigitValue(c)
    else if 'a' <= c <= 'f' then c as int - 'a' as int + 10
    else c as int - 'A' as int + 10
  }

  function HexValue(s: string): nat
    requires forall i :: 0 <= i < |s| ==> IsHexDigit(s[i])
  {
    if s == [] then 0 else 16 * HexValue(s[..|s| - 1]) + HexDigitValue(s[|s| - 1])
  }

  function HexText(s: string): nat
    requires |s| > 2 && forall i :: 2 <= i < |s| ==> IsHexDigit(s[i])
  {
    HexValue(s[2..])
  }

  /** A finished text that is taken for a number: decimal, or hexadecimal behind 0x, in 64 bits, but not
      decimal with two leading zeros. */
  predicate ParsesAsNumber(s: string) {
    if "0x" <= s then
      |s| > 2 && (forall i :: 2 <= i < |s| ==> IsHexDigit(s[i])) && HexText(s) < UINT64_LIMIT
    else s != [] && !("00" <= s) && (forall i :: 0 <= i < |s| ==> IsDigit(s[i])) && DecimalValue(s) < UINT64_LIMIT
  }

  /** The device name a finished template gives: a number is no name. */
  function FinishedName(text: string): string {
    if ParsesAsNumber(text) then "" else text
  }

  /** A template of a fixed text, the number, and a fixed text that does not start with a digit: the
      number can be read back exactly if the whole is not itself taken for a number. */
  lemma NumberReadBack(probeName: string, prefix: string, n: nat, suffix: string, exposes: Option<seq<Option<string>>>)
    requires FindFirst(probeName, '$') == Some(|prefix|) && (suffix != [] ==> !IsDigit(suffix[0])) && n <= INT_MAX
    ensures var text := prefix + (ToDecimal(n) + suffix);
            Recovered(probeName, Record(Some(FinishedName(text)), exposes)) == Some(n) <==> !ParsesAsNumber(text)
  {
    var name := prefix + (ToDecimal(n) + suffix);
    if ParsesAsNumber(name) {
      assert ""[0..] == "";
    } else {
      assert name[|prefix|..] == ToDecimal(n) + suffix;
      LeadingDecimal(n, suffix);
    }
  }

  lemma LeadingDecimal(n: nat, suffix: string)
    requires (suffix != [] ==> !IsDigit(suffix[0])) && n <= INT_MAX
    ensures LeadingNumber(ToDecimal(n) + suffix) == Some(n)
  {
    var text := ToDecimal(n) + suffix;
    DigitRun(ToDecimal(n), suffix);
    DecimalRoundTrip(n);
    assert text[..|ToDecimal(n)|] == ToDecimal(n) && text[0] == ToDecimal(n)[0];
  }

  lemma WholeNumber(n: nat)
    ensures var digits := ToDecimal(n);
            && DigitCount(digits) == |digits| > 0 && digits[..|digits|] == digits && digits[0] != '-'
            && (forall i :: 0 <= i < |digits| ==> IsDigit(digits[i])) && DecimalValue(digits) == n
  {
    var digits := ToDecimal(n);
    DecimalRoundTrip(n);
    DigitRun(digits, "");
    assert digits + "" == digits && IsDigit(digits[0]);
  }

  /** An int holds exactly these. */
  lemma NumbersRead(n: nat)
    ensures n <= 2147483647 ==> LeadingNumber(ToDecimal(n)) == Some(n)
    ensures n > 2147483647 ==> LeadingNumber(ToDecimal(n)) == None
  {
    WholeNumber(n);
  }

  lemma NegativesRead(n: nat)
    ensures n <= 2147483648 ==> LeadingNumber("-" + ToDecimal(n)) == Some(0 - n)
    ensures n > 2147483648 ==> LeadingNumber("-" + ToDecimal(n)) == None
  {
    WholeNumber(n);
    assert ("-" + ToDecimal(n))[1..] == ToDecimal(n);
  }

  /** A text that starts neither with a digit nor with a minus and a digit starts with no number. */
  lemma NoNumber(s: string)
    requires s != [] ==> s[0] !in "0123456789"
    requires |s| >= 2 && s[0] == '-' ==> s[1] !in "0123456789"
    ensures LeadingNumber(s) == None
  {
    assert s != [] ==> !IsDigit(s[0]);
    assert |s| >= 2 && s[0] == '-' ==> s[1..][0] == s[1] && !IsDigit(s[1]);
  }

  /** And 64 bits exactly these. */
  lemma NumbersTaken(n: nat)
    ensures FinishedName(ToDecimal(n)) == if n <= 18446744073709551615 then "" else ToDecimal(n)
  {
    var digits := ToDecimal(n);
    DecimalRoundTrip(n);
    assert !("0x" <= digits) by {
      assert |digits| >= 2 ==> IsDigit(digits[1]);
    }
    assert !("00" <= digits);
  }

  /** The value of a hexadecimal digit. */
  function HexOf(c: char): int {
    if c in "0123456789" then c as int - 48
    else if c in "abcdef" then c as int - 87
    else if c in "ABCDEF" then c as int - 55
    else -1
  }

  lemma HexDigits(c: char)
    ensures IsHexDigit(c) <==> HexOf(c) >= 0
    ensures IsHexDigit(c) ==> HexDigitValue(c) == HexOf(c)
  {
  }

  /** A further digit counts once, those in front of it sixteen times as much as before. */
  lemma HexLast(s: string, c: char)
    requires HexOf(c) >= 0 && forall i :: 0 <= i < |s| ==> IsHexDigit(s[i])
    ensures IsHexDigit(c) && HexValue(s + [c]) == 16 * HexValue(s) + HexOf(c) && HexValue([]) == 0
  {
    HexDigits(c);
    assert (s + [c])[..|s|] == s;
  }

  /** Behind "0x" a text of hexadecimal digits is taken for a number if 64 bits hold it, and no other. */
  lemma HexTaken(digits: string)
    ensures FinishedName("0x" + digits) == "" <==>
              && digits != "" && (forall c :: c in digits ==> HexOf(c) >= 0)
              && (forall i :: 0 <= i < |digits| ==> IsHexDigit(digits[i]))
              && HexValue(digits) <= 18446744073709551615
  {
    AllHex(digits);
    HexParses(digits);
    assert |"0x" + digits| >= 2;
  }

  lemma HexParses(digits: string)
    ensures ParsesAsNumber("0x" + digits) <==>
              && digits != "" && (forall i :: 0 <= i < |digits| ==> IsHexDigit(digits[i]))
              && HexValue(digits) < UINT64_LIMIT
  {
    var s := "0x" + digits;
    assert s[2..] == digits && s[..2] == "0x";
    assert forall i :: 2 <= i < |s| ==> s[i] == digits[i - 2];
    assert forall i :: 0 <= i < |digits| ==> digits[i] == s[i + 2];
  }

  lemma AllHex(digits: string)
    ensures (forall i :: 0 <= i < |digits| ==> IsHexDigit(digits[i])) <==> forall c :: c in digits ==> HexOf(c) >= 0
  {
    forall c | c in digits ensures IsHexDigit(c) <==> HexOf(c) >= 0 {
      HexDigits(c);
    }
    if forall i :: 0 <= i < |digits| ==> IsHexDigit(digits[i]) {
      assert forall c :: c in digits ==> IsHexDigit(c);
    }
  }

  /** So a template that is nothing but the number leaves the device without a name. */
  lemma BareNumberIsNoName(n: nat)
    requires 0 < n < UINT64_LIMIT
    ensures FinishedName(ToDecimal(n)) == ""
  {
    DecimalRoundTrip(n);
    assert ToDecimal(n)[0] != '0';
  }

  lemma {:induction false} NamedIs(c: Naming, system: map<string, Record>, devices: seq<Device>, numbers: seq<nat>,
                                   key: string)
    requires |devices| == |numbers|
    ensures key in system && (forall i :: 0 <= i < |devices| ==> c.recordName(devices[i].interface) != key) ==>
              key in Named(c, system, devices, numbers) && Named(c, system, devices, numbers)[key] == system[key]
    ensures (exists i :: 0 <= i < |devices| && c.recordName(devices[i].interface) == key) ==>
              key in Named(c, system, devices, numbers)
              && exists i :: 0 <= i < |devices|
                   && Named(c, system, devices, numbers)[key] == NewRecord(c, devices[i], numbers[i])
  {
    if devices != [] {
      NamedIs(c, system, devices[..|devices| - 1], numbers[..|devices| - 1], key);
    }
  }

  lemma {:induction false} UnknownIs(c: Naming, system: map<string, Record>, lastJson: map<string, Record>,
                                     devices: seq<Device>, d: Device)
    ensures d in Unknown(c, system, lastJson, devices) <==>
              d in devices && !Known(system, lastJson, c.recordName(d.interface))
  {
    if devices != [] {
      assert devices == devices[..|devices| - 1] + [devices[|devices| - 1]];
      UnknownIs(c, system, lastJson, devices[..|devices| - 1], d);
    }
  }

  /** After the update a record that was known is as it was, and every device found has a record. */
  lemma EveryDeviceHasARecord(c: Naming, system: map<string, Record>, lastJson: map<string, Record>,
                              devices: seq<Device>, numbers: seq<nat>, i: nat)
    requires i < |devices| && |numbers| == |Unknown(c, system, lastJson, devices)|
    ensures var key := c.recordName(devices[i].interface);
            var after :=
              Named(c, Restored(c, system, lastJson, devices), Unknown(c, system, lastJson, devices), numbers);
            && key in after
            && (Known(system, lastJson, key) ==> after[key] == KnownRecord(system, lastJson, key))
  {
    var key := c.recordName(devices[i].interface);
    var unknown := Unknown(c, system, lastJson, devices);
    RestoredIs(c, system, lastJson, devices, key);
    NamedIs(c, Restored(c, system, lastJson, devices), unknown, numbers, key);
    UnknownIs(c, system, lastJson, devices, devices[i]);
    if Known(system, lastJson, key) {
      assert key in KnownKeys(c, system, lastJson, devices);
      forall j | 0 <= j < |unknown| ensures c.recordName(unknown[j].interface) != key {
        UnknownIs(c, system, lastJson, devices, unknown[j]);
      }
    } else {
      assert devices[i] in unknown;
      var j :| 0 <= j < |unknown| && unknown[j] == devices[i];
    }
  }

  /** There is one way to take the lowest free numbers. */
  lemma {:induction false} LowestFreeIsUnique(c: Naming, system: map<string, Record>, lastJson: map<string, Record>,
                                              devices: seq<Device>,
                                              n: nat, a: seq<nat>, b: seq<nat>, i: nat)
    requires LowestFree(c, system, lastJson, devices, n, a) && LowestFree(c, system, lastJson, devices, n, b)
    requires |a| == |b| && i <= |a|
    ensures a[..i] == b[..i]
  {
    if i > 0 {
      LowestFreeIsUnique(c, system, lastJson, devices, n, a, b, i - 1);
      NotBelow(c, system, lastJson, devices, n, a, b, i - 1);
      NotBelow(c, system, lastJson, devices, n, b, a, i - 1);
      assert a[..i] == a[..i - 1] + [a[i - 1]] && b[..i] == b[..i - 1] + [b[i - 1]];
    }
  }

  lemma NotBelow(c: Naming, system: map<string, Record>, lastJson: map<string, Record>, devices: seq<Device>,
                 n: nat, a: seq<nat>, b: seq<nat>, i: nat)
    requires LowestFree(c, system, lastJson, devices, n, a) && LowestFree(c, system, lastJson, devices, n, b)
    requires |a| == |b| && i < |a| && a[..i] == b[..i]
    ensures b[i] <= a[i]
  {
    var x := a[i];
    assert x in a && b[i] in b;
    forall j | 0 <= j < i ensures b[j] < x {
      assert a[..i][j] == b[..i][j];
    }
    if x in b {
      var j :| 0 <= j < |b| && b[j] == x;
      assert j >= i;
    }
  }

  /** Two states of the configuration that hold the same for a device's key. */
  predicate Alike(system: map<string, Record>, system': map<string, Record>, lastJson: map<string, Record>,
                  key: string)
  {
    && (Known(system, lastJson, key) <==> Known(system', lastJson, key))
    && (Known(system, lastJson, key) ==> KnownRecord(system, lastJson, key) == KnownRecord(system', lastJson, key))
  }

  /** The names a probe's devices get depend on their own records only: whatever other
      configurations have added meanwhile, they are the same. */
  lemma NamesAreFixed(c: Naming, system: map<string, Record>, system': map<string, Record>,
                      lastJson: map<string, Record>,
                      devices: seq<Device>, numbers: seq<nat>, numbers': seq<nat>)
    requires forall i :: 0 <= i < |devices| ==> Alike(system, system', lastJson, c.recordName(devices[i].interface))
    requires |numbers| == |Unknown(c, system, lastJson, devices)|
             && |numbers'| == |Unknown(c, system', lastJson, devices)|
    requires LowestFree(c, system, lastJson, devices, |devices|, numbers)
    requires LowestFree(c, system', lastJson, devices, |devices|, numbers')
    ensures NewNames(c, Unknown(c, system, lastJson, devices), numbers) ==
            NewNames(c, Unknown(c, system', lastJson, devices), numbers')
  {
    UnknownAlike(c, system, system', lastJson, devices);
    forall x ensures Taken(c, system, lastJson, devices, x) <==> Taken(c, system', lastJson, devices, x) {
      assert forall i :: 0 <= i < |devices| ==>
               TakenBy(c, system, lastJson, devices[i], x) == TakenBy(c, system', lastJson, devices[i], x);
    }
    assert LowestFree(c, system, lastJson, devices, |devices|, numbers');
    LowestFreeIsUnique(c, system, lastJson, devices, |devices|, numbers, numbers', |numbers|);
    assert numbers[..|numbers|] == numbers && numbers'[..|numbers|] == numbers';
  }

  lemma {:induction false} UnknownAlike(c: Naming, system: map<string, Record>, system': map<string, Record>,
                                        lastJson: map<string, Record>,
                                        devices: seq<Device>)
    requires forall i :: 0 <= i < |devices| ==> Alike(system, system', lastJson, c.recordName(devices[i].interface))
    ensures Unknown(c, system, lastJson, devices) == Unknown(c, system', lastJson, devices)
  {
    if devices != [] {
      UnknownAlike(c, system, system', lastJson, devices[..|devices| - 1]);
    }
  }

  // ---- the names given during a chain ----

  /** One passing probe applied to the configuration. */
  datatype Application = Application(c: Naming, devices: seq<Device>, numbers: seq<nat>)

  /** What `UpdateSystemConfiguration` does to the configuration. */
  ghost predicate Applies(a: Application, lastJson: map<string, Record>, system: map<string, Record>,
                          system': map<string, Record>)
  {
    && |a.numbers| == |Unknown(a.c, system, lastJson, a.devices)|
    && LowestFree(a.c, system, lastJson, a.devices, |a.devices|, a.numbers)
    && system' ==
       Named(a.c, Restored(a.c, system, lastJson, a.devices), Unknown(a.c, system, lastJson, a.devices), a.numbers)
  }

  /** Probes applied one after the other. */
  ghost predicate Run(lastJson: map<string, Record>, systems: seq<map<string, Record>>, applied: seq<Application>) {
    |systems| == |applied| + 1 && forall i :: 0 <= i < |applied| ==> StepAt(lastJson, systems, applied, i)
  }

  ghost predicate StepAt(lastJson: map<string, Record>, systems: seq<map<string, Record>>, applied: seq<Application>,
                         i: nat)
    requires i < |applied| && |systems| == |applied| + 1
  {
    Applies(applied[i], lastJson, systems[i], systems[i + 1])
  }

  predicate UsesKey(a: Application, key: string) {
    exists i :: 0 <= i < |a.devices| && a.c.recordName(a.devices[i].interface) == key
  }

  /** Record keys of different configurations differ. */
  ghost predicate KeysApart(applied: seq<Application>) {
    forall i, j, key :: 0 <= i < |applied| && 0 <= j < |applied| && i != j && UsesKey(applied[i], key) ==>
      !UsesKey(applied[j], key)
  }

  lemma OtherKeysAlike(a: Application, lastJson: map<string, Record>, system: map<string, Record>,
                       system': map<string, Record>, key: string)
    requires Applies(a, lastJson, system, system') && !UsesKey(a, key)
    ensures Alike(system, system', lastJson, key)
  {
    var unknown := Unknown(a.c, system, lastJson, a.devices);
    var restored := Restored(a.c, system, lastJson, a.devices);
    RestoredIs(a.c, system, lastJson, a.devices, key);
    forall i | 0 <= i < |unknown| ensures a.c.recordName(unknown[i].interface) != key {
      UnknownIs(a.c, system, lastJson, a.devices, unknown[i]);
      var j :| 0 <= j < |a.devices| && a.devices[j] == unknown[i];
    }
    NamedOther(a.c, restored, unknown, a.numbers, key);
  }

  lemma {:induction false} NamedOther(c: Naming, system: map<string, Record>, devices: seq<Device>, numbers: seq<nat>,
                                      key: string)
    requires |devices| == |numbers| && forall i :: 0 <= i < |devices| ==> c.recordName(devices[i].interface) != key
    ensures var after := Named(c, system, devices, numbers);
            (key in after <==> key in system) && (key in system ==> after[key] == system[key])
  {
    if devices != [] {
      NamedOther(c, system, devices[..|devices| - 1], numbers[..|devices| - 1], key);
    }
  }

  lemma {:induction false} UntouchedAlike(lastJson: map<string, Record>, systems: seq<map<string, Record>>,
                                          applied: seq<Application>, n: nat, key: string)
    requires Run(lastJson, systems, applied) && n <= |applied| && forall i :: 0 <= i < n ==> !UsesKey(applied[i], key)
    ensures Alike(systems[0], systems[n], lastJson, key)
  {
    if n > 0 {
      assert StepAt(lastJson, systems, applied, n - 1);
      UntouchedAlike(lastJson, systems, applied, n - 1, key);
      OtherKeysAlike(applied[n - 1], lastJson, systems[n - 1], systems[n], key);
    }
  }

  /** In any run of passing probes, each one's devices get the names they would have got had it been
      the first: the names a configuration adds do not depend on the others or on the order. */
  lemma NamesDuringChain(lastJson: map<string, Record>, systems: seq<map<string, Record>>, applied: seq<Application>,
                         n: nat, numbers: seq<nat>)
    requires Run(lastJson, systems, applied) && KeysApart(applied) && n < |applied|
    requires var a := applied[n];
             && |numbers| == |Unknown(a.c, systems[0], lastJson, a.devices)|
             && LowestFree(a.c, systems[0], lastJson, a.devices, |a.devices|, numbers)
    ensures var a := applied[n];
            assert StepAt(lastJson, systems, applied, n);
            NewNames(a.c, Unknown(a.c, systems[n], lastJson, a.devices), a.numbers)
            == NewNames(a.c, Unknown(a.c, systems[0], lastJson, a.devices), numbers)
  {
    var a := applied[n];
    forall i | 0 <= i < |a.devices| ensures Alike(systems[0], systems[n], lastJson,
      a.c.recordName(a.devices[i].interface)) {
      var key := a.c.recordName(a.devices[i].interface);
      assert UsesKey(a, key);
      UntouchedAlike(lastJson, systems, applied, n, key);
    }
    assert StepAt(lastJson, systems, applied, n);
    NamesAreFixed(a.c, systems[0], systems[n], lastJson, a.devices, numbers, a.numbers);
  }
}

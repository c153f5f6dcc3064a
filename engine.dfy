/**
  The console's behaviour as functions of its state: what each keypad line,
  each daemon document and each device update does to the pending buffers,
  the alarm state, the session flags, the devices' current values and the
  two command logs. The class in console.dfy is proved to follow these
  functions; the lemmas here state what they promise.
 */
module Engine {
  import opened Wrappers
  import opened Text
  import opened Json
  import opened Config

  /** systemState: ST_NOALARM or ST_ALARM. */
  datatype AlarmState = NoAlarm | InAlarm

  /** The two byte sources: the keypad controller's serial line and the daemon's socket. */
  datatype Source = Serial | Daemon

  /**
    Everything the console changes: the pending input of each source, the alarm
    state with the alarm that raised it, the keypad session flags, the last
    daemon status, the devices (whose current values change) and the commands
    written so far to the serial line and to the daemon.
   */
  datatype State = State(
    serialBuf: string,
    tcpBuf: string,
    systemState: AlarmState,
    lastAlarm: Option<string>,
    pinValid: bool,
    arduinoOnline: bool,
    pilightStatus: Option<string>,
    devices: seq<(string, Device)>,
    serialOut: seq<string>,
    tcpOut: seq<string>)

  /**
    The globals main sets up before it registers with the daemon: empty
    buffers, no alarm, controller offline, no valid pin, no status yet.
   */
  function Initial(devices: seq<(string, Device)>): State
  {
    State("", "", NoAlarm, None, false, false, None, devices, [], [])
  }

  /**
    Names are unique in both descriptor tables, an alarm is remembered exactly
    while the system is in alarm state, and the remembered alarm is configured.
   */
  ghost predicate Inv(cfg: Settings, st: State)
  {
    && UniqueKeys(st.devices)
    && UniqueKeys(cfg.alarms)
    && (st.systemState == InAlarm <==> st.lastAlarm.Some?)
    && (st.lastAlarm.Some? ==> Lookup(cfg.alarms, st.lastAlarm.value).Some?)
  }

  // ---------------------------------------------------------------------------
  // readHandle
  // ---------------------------------------------------------------------------

  /** One read of `bytes` from `src`: a non-empty read is appended up to its first NUL. */
  function Feed(st: State, src: Source, bytes: string): State
  {
    if |bytes| == 0 then st
    else if src == Serial then st.(serialBuf := st.serialBuf + CString(bytes))
    else st.(tcpBuf := st.tcpBuf + CString(bytes))
  }

  /** A read appends exactly the bytes read to its own source's buffer and touches nothing else. */
  lemma FeedAppendsToItsSource(st: State, src: Source, bytes: string)
    requires '\0' !in bytes
    ensures var r := Feed(st, src, bytes);
      && r.serialBuf == (if src == Serial then st.serialBuf + bytes else st.serialBuf)
      && r.tcpBuf == (if src == Daemon then st.tcpBuf + bytes else st.tcpBuf)
      && r == st.(serialBuf := r.serialBuf, tcpBuf := r.tcpBuf)
  {
    CStringWhole(bytes);
  }

  // ---------------------------------------------------------------------------
  // the keypad half of parseStrings
  // ---------------------------------------------------------------------------

  /** The devices that carry a keypad key, in configuration order. */
  function Keyed(devices: seq<(string, Device)>): (r: seq<(string, Device)>)
    ensures forall k :: 0 <= k < |r| ==> r[k].1.key.Some? && r[k] in devices
    ensures forall i :: 0 <= i < |devices| && devices[i].1.key.Some? ==> devices[i] in r
  {
    if devices == [] then []
    else
      var p := devices[..|devices| - 1];
      var e := devices[|devices| - 1];
      assert forall i :: 0 <= i < |p| ==> p[i] == devices[i];
      Keyed(p) + (if e.1.key.Some? then [e] else [])
  }

  /** The positions of the keyed devices, in configuration order. */
  function KeyedPositions(devices: seq<(string, Device)>): seq<int>
  {
    if devices == [] then []
    else KeyedPositions(devices[..|devices| - 1]) + (if devices[|devices| - 1].1.key.Some? then [|devices| - 1] else [])
  }

  /** The keyed positions are in range, strictly increasing, and include every keyed device. */
  lemma {:induction false} KeyedPositionsIncrease(devices: seq<(string, Device)>)
    ensures forall k :: 0 <= k < |KeyedPositions(devices)| ==> 0 <= KeyedPositions(devices)[k] < |devices|
    ensures forall k1, k2 :: 0 <= k1 < k2 < |KeyedPositions(devices)| ==> KeyedPositions(devices)[k1] < KeyedPositions(devices)[k2]
    ensures forall i :: 0 <= i < |devices| && devices[i].1.key.Some? ==> i in KeyedPositions(devices)
  {
    if devices != [] {
      var p := devices[..|devices| - 1];
      KeyedPositionsIncrease(p);
      var rp := KeyedPositions(p);
      var r := KeyedPositions(devices);
      assert r == rp + (if devices[|devices| - 1].1.key.Some? then [|devices| - 1] else []);
      assert forall k :: 0 <= k < |rp| ==> r[k] == rp[k];
      forall k1, k2 | 0 <= k1 < k2 < |r|
        ensures r[k1] < r[k2]
      {
        if k2 < |rp| {
          assert rp[k1] < rp[k2];
        } else {
          assert rp[k1] < |p|;
        }
      }
      forall i | 0 <= i < |devices| && devices[i].1.key.Some?
        ensures i in r
      {
        if i < |p| {
          assert p[i] == devices[i];
          assert i in rp;
        } else {
          assert r[|r| - 1] == i;
        }
      }
    }
  }

  /**
    Keyed is exactly the subsequence of the configuration at the keyed
    positions: in configuration order, each keyed device once.
   */
  lemma {:induction false} KeyedInOrder(devices: seq<(string, Device)>)
    ensures var r := KeyedPositions(devices);
      && |r| == |Keyed(devices)|
      && (forall k :: 0 <= k < |r| ==> 0 <= r[k] < |devices| && Keyed(devices)[k] == devices[r[k]])
      && (forall k1, k2 :: 0 <= k1 < k2 < |r| ==> r[k1] < r[k2])
      && (forall i :: 0 <= i < |devices| && devices[i].1.key.Some? ==> i in r)
  {
    KeyedPositionsIncrease(devices);
    if devices != [] {
      var p := devices[..|devices| - 1];
      var e := devices[|devices| - 1];
      KeyedInOrder(p);
      var rp := KeyedPositions(p);
      var r := KeyedPositions(devices);
      var kp := Keyed(p);
      var kd := Keyed(devices);
      assert kd == kp + (if e.1.key.Some? then [e] else []);
      assert r == rp + (if e.1.key.Some? then [|devices| - 1] else []);
      forall k | 0 <= k < |r|
        ensures kd[k] == devices[r[k]]
      {
        if k < |rp| {
          assert r[k] == rp[k] && kd[k] == kp[k] && p[rp[k]] == devices[rp[k]];
        }
      }
    }
  }

  /** The erase loop run when the controller goes offline after a valid pin. */
  function EraseMenu(devices: seq<(string, Device)>): seq<string>
  {
    if devices == [] then []
    else
      var e := devices[|devices| - 1];
      EraseMenu(devices[..|devices| - 1]) + (if e.1.key.Some? then [EraseLine(e.1)] else [])
  }

  /** The loop that shows the toggle keys after a valid pin. */
  function ToggleMenu(devices: seq<(string, Device)>): seq<string>
  {
    if devices == [] then []
    else
      var e := devices[|devices| - 1];
      ToggleMenu(devices[..|devices| - 1]) + (if e.1.key.Some? then [MenuLine(e.1)] else [])
  }

  /** Both menu loops produce one line per keyed device, in configuration order, for the same rows. */
  lemma {:induction false} MenusFollowKeyedDevices(devices: seq<(string, Device)>)
    ensures |ToggleMenu(devices)| == |Keyed(devices)| && |EraseMenu(devices)| == |Keyed(devices)|
    ensures forall k :: 0 <= k < |Keyed(devices)| ==>
      ToggleMenu(devices)[k] == MenuLine(Keyed(devices)[k].1) &&
      EraseMenu(devices)[k] == EraseLine(Keyed(devices)[k].1)
  {
    if devices != [] {
      var p := devices[..|devices| - 1];
      assert forall i :: 0 <= i < |p| ==> p[i] == devices[i];
      MenusFollowKeyedDevices(p);
    }
  }

  /** The alarm loop run on a valid pin in alarm state: a reset request for the remembered alarm. */
  function ResetRequests(alarms: seq<(string, Alarm)>, last: Option<string>): seq<string>
  {
    if alarms == [] then []
    else
      var e := alarms[|alarms| - 1];
      ResetRequests(alarms[..|alarms| - 1], last) +
        (if last == Some(e.0) then [ControlCommand(e.0, e.1.valueKey, e.1.resetValue)] else [])
  }

  lemma {:induction false} ResetRequestsNone(alarms: seq<(string, Alarm)>, name: string)
    requires forall i :: 0 <= i < |alarms| ==> alarms[i].0 != name
    ensures ResetRequests(alarms, Some(name)) == []
  {
    if alarms != [] {
      ResetRequestsNone(alarms[..|alarms| - 1], name);
    }
  }

  /** A configured alarm with a unique name gets exactly one reset request. */
  lemma {:induction false} ResetRequestsSingle(alarms: seq<(string, Alarm)>, name: string, a: Alarm)
    requires UniqueKeys(alarms) && Lookup(alarms, name) == Some(a)
    ensures ResetRequests(alarms, Some(name)) == [ControlCommand(name, a.valueKey, a.resetValue)]
  {
    var p := alarms[..|alarms| - 1];
    var e := alarms[|alarms| - 1];
    assert forall i :: 0 <= i < |p| ==> p[i] == alarms[i];
    if e.0 == name {
      LookupUnique(alarms, |alarms| - 1);
      ResetRequestsNone(p, name);
    } else {
      assert UniqueKeys(p);
      ResetRequestsSingle(p, name, a);
    }
  }

  /** The control command for one toggled device; none when it has no current value yet. */
  function ToggleRequest(name: string, d: Device): seq<string>
  {
    match d.currentValue
    case Some(v) => [ControlCommand(name, d.valueKey, NextToggle(d.toggles, Canonical(d.translate, v)))]
    case None => []
  }

  /** The toggle loop: every device whose key is the input is toggled, in configuration order. */
  function ToggleRequests(devices: seq<(string, Device)>, input: string): seq<string>
  {
    if devices == [] then []
    else
      var e := devices[|devices| - 1];
      ToggleRequests(devices[..|devices| - 1], input) + (if e.1.key == Some(input) then ToggleRequest(e.0, e.1) else [])
  }

  lemma {:induction false} ToggleRequestsNone(devices: seq<(string, Device)>, input: string)
    requires forall i :: 0 <= i < |devices| ==> devices[i].1.key != Some(input)
    ensures ToggleRequests(devices, input) == []
  {
    if devices != [] {
      ToggleRequestsNone(devices[..|devices| - 1], input);
    }
  }

  /** When exactly one device carries the key, exactly that device is toggled. */
  lemma {:induction false} ToggleRequestsSingle(devices: seq<(string, Device)>, input: string, i: int)
    requires 0 <= i < |devices| && devices[i].1.key == Some(input)
    requires forall j :: 0 <= j < |devices| && j != i ==> devices[j].1.key != Some(input)
    ensures ToggleRequests(devices, input) == ToggleRequest(devices[i].0, devices[i].1)
  {
    var p := devices[..|devices| - 1];
    assert forall j :: 0 <= j < |p| ==> p[j] == devices[j];
    if i == |devices| - 1 {
      ToggleRequestsNone(p, input);
    } else {
      ToggleRequestsSingle(p, input, i);
    }
  }

  /** The toggle commands of the devices at positions `ps`, in the order of `ps`. */
  function TogglesAt(devices: seq<(string, Device)>, ps: seq<int>): seq<string>
    requires forall j :: 0 <= j < |ps| ==> 0 <= ps[j] < |devices|
  {
    if ps == [] then []
    else TogglesAt(devices, ps[..|ps| - 1]) + ToggleRequest(devices[ps[|ps| - 1]].0, devices[ps[|ps| - 1]].1)
  }

  lemma {:induction false} TogglesAtPrefix(devices: seq<(string, Device)>, m: int, ps: seq<int>)
    requires 0 <= m <= |devices|
    requires forall j :: 0 <= j < |ps| ==> 0 <= ps[j] < m
    ensures TogglesAt(devices, ps) == TogglesAt(devices[..m], ps)
  {
    if ps != [] {
      TogglesAtPrefix(devices, m, ps[..|ps| - 1]);
    }
  }

  /** `ps` lists, in increasing order, exactly the positions of the devices whose key is `input`. */
  ghost predicate KeyPositions(devices: seq<(string, Device)>, input: string, ps: seq<int>)
  {
    && (forall j :: 0 <= j < |ps| ==> 0 <= ps[j] < |devices| && devices[ps[j]].1.key == Some(input))
    && (forall j, l :: 0 <= j < l < |ps| ==> ps[j] < ps[l])
    && (forall i :: 0 <= i < |devices| && devices[i].1.key == Some(input) ==> i in ps)
  }

  /** Dropping the last device: its position, if listed, is the last one listed. */
  lemma KeyPositionsOfPrefix(devices: seq<(string, Device)>, input: string, ps: seq<int>)
    requires devices != [] && KeyPositions(devices, input, ps)
    ensures var n := |devices| - 1;
      if devices[n].1.key == Some(input) then
        ps != [] && ps[|ps| - 1] == n && KeyPositions(devices[..n], input, ps[..|ps| - 1])
      else KeyPositions(devices[..n], input, ps)
  {
    var n := |devices| - 1;
    var p := devices[..n];
    if devices[n].1.key == Some(input) {
      assert n in ps;
      var last := |ps| - 1;
      var k :| 0 <= k < |ps| && ps[k] == n;
      assert ps[k] <= ps[last];
      var q := ps[..last];
      forall i | 0 <= i < n && p[i].1.key == Some(input)
        ensures i in q
      {
        var j :| 0 <= j < |ps| && ps[j] == i;
        assert q[j] == i;
      }
    }
  }

  /**
    The toggle loop sends, in configuration order, the toggle command of every
    device whose key is the input: `ps` lists those devices' positions in
    increasing order.
   */
  lemma {:induction false} ToggleRequestsInOrder(devices: seq<(string, Device)>, input: string, ps: seq<int>)
    requires KeyPositions(devices, input, ps)
    ensures ToggleRequests(devices, input) == TogglesAt(devices, ps)
  {
    if devices != [] {
      var n := |devices| - 1;
      KeyPositionsOfPrefix(devices, input, ps);
      if devices[n].1.key == Some(input) {
        var q := ps[..|ps| - 1];
        ToggleRequestsInOrder(devices[..n], input, q);
        TogglesAtPrefix(devices, n, q);
      } else {
        ToggleRequestsInOrder(devices[..n], input, ps);
        TogglesAtPrefix(devices, n, ps);
      }
    }
  }

  /** One line from the keypad controller. */
  function KeypadLine(cfg: Settings, st: State, seg: string): State
  {
    if Contains(seg, "OFFLINE") then
      if st.pinValid then st.(arduinoOnline := false, serialOut := st.serialOut + EraseMenu(st.devices), pinValid := false)
      else st.(arduinoOnline := false)
    else if Contains(seg, "ONLINE") then
      st.(arduinoOnline := true)
    else if seg == cfg.pin then
      if st.systemState == InAlarm then st.(pinValid := true, tcpOut := st.tcpOut + ResetRequests(cfg.alarms, st.lastAlarm))
      else st.(pinValid := true, serialOut := st.serialOut + ToggleMenu(st.devices))
    else if st.pinValid then
      st.(tcpOut := st.tcpOut + ToggleRequests(st.devices, seg))
    else
      st
  }

  /** The keypad lines of one buffer, handled in order. */
  function KeypadLines(cfg: Settings, st: State, segs: seq<string>): State
  {
    if segs == [] then st else KeypadLine(cfg, KeypadLines(cfg, st, segs[..|segs| - 1]), segs[|segs| - 1])
  }

  /** "OFFLINE" marks the controller offline and, after a valid pin, erases the menu and ends the session. */
  lemma OfflineEndsSession(cfg: Settings, st: State, seg: string)
    requires Contains(seg, "OFFLINE")
    ensures KeypadLine(cfg, st, seg) ==
      st.(arduinoOnline := false, pinValid := false,
          serialOut := st.serialOut + if st.pinValid then EraseMenu(st.devices) else [])
  {
  }

  /** "ONLINE" (without "OFFLINE") only marks the controller online. */
  lemma OnlineOnlyMarksOnline(cfg: Settings, st: State, seg: string)
    requires !Contains(seg, "OFFLINE") && Contains(seg, "ONLINE")
    ensures KeypadLine(cfg, st, seg) == st.(arduinoOnline := true)
  {
  }

  /** The pin in alarm state sends exactly one command to the daemon: reset the alarm that fired. */
  lemma PinInAlarmRequestsOneReset(cfg: Settings, st: State)
    requires Inv(cfg, st) && st.systemState == InAlarm
    requires !Contains(cfg.pin, "OFFLINE") && !Contains(cfg.pin, "ONLINE")
    ensures var name := st.lastAlarm.value;
      var a := Lookup(cfg.alarms, name).value;
      KeypadLine(cfg, st, cfg.pin) ==
        st.(pinValid := true, tcpOut := st.tcpOut + [ControlCommand(name, a.valueKey, a.resetValue)])
  {
    var name := st.lastAlarm.value;
    ResetRequestsSingle(cfg.alarms, name, Lookup(cfg.alarms, name).value);
  }

  /** The pin outside alarm state shows one toggle-key line per keyed device and sends nothing to the daemon. */
  lemma PinShowsToggleMenu(cfg: Settings, st: State)
    requires st.systemState == NoAlarm
    requires !Contains(cfg.pin, "OFFLINE") && !Contains(cfg.pin, "ONLINE")
    ensures var r := KeypadLine(cfg, st, cfg.pin);
      && r == st.(pinValid := true, serialOut := r.serialOut)
      && |r.serialOut| == |st.serialOut| + |Keyed(st.devices)|
      && r.serialOut[..|st.serialOut|] == st.serialOut
      && forall k :: 0 <= k < |Keyed(st.devices)| ==> r.serialOut[|st.serialOut| + k] == MenuLine(Keyed(st.devices)[k].1)
  {
    MenusFollowKeyedDevices(st.devices);
  }

  /** Without a valid pin, any other keypad input changes nothing. */
  lemma NoPinNoToggle(cfg: Settings, st: State, seg: string)
    requires !st.pinValid && seg != cfg.pin
    requires !Contains(seg, "OFFLINE") && !Contains(seg, "ONLINE")
    ensures KeypadLine(cfg, st, seg) == st
  {
  }

  /**
    With a valid pin, the key of exactly one device toggles it: one command
    asking for the toggle value other than its canonical current value.
    When several devices share the key, ToggleRequestsInOrder gives the
    commands of all of them, in configuration order.
   */
  lemma KeyTogglesDevice(cfg: Settings, st: State, seg: string, i: int)
    requires st.pinValid && seg != cfg.pin
    requires !Contains(seg, "OFFLINE") && !Contains(seg, "ONLINE")
    requires 0 <= i < |st.devices| && st.devices[i].1.key == Some(seg)
    requires forall j :: 0 <= j < |st.devices| && j != i ==> st.devices[j].1.key != Some(seg)
    requires st.devices[i].1.currentValue.Some?
    ensures var (name, d) := st.devices[i];
      var canonical := Canonical(d.translate, d.currentValue.value);
      KeypadLine(cfg, st, seg) ==
        st.(tcpOut := st.tcpOut + [ControlCommand(name, d.valueKey, NextToggle(d.toggles, canonical))])
  {
    ToggleRequestsSingle(st.devices, seg, i);
  }

  /** Only the pin makes the pin valid. */
  lemma OnlyPinValidates(cfg: Settings, st: State, seg: string)
    requires !st.pinValid && KeypadLine(cfg, st, seg).pinValid
    ensures seg == cfg.pin
  {
  }

  // ---------------------------------------------------------------------------
  // handleDevice
  // ---------------------------------------------------------------------------

  /** json_object_set(configNode, "currentvalue", ...) on the device called `name`. */
  function SetCurrentValue(devices: seq<(string, Device)>, name: string, v: string): (r: seq<(string, Device)>)
  {
    seq(|devices|, i requires 0 <= i < |devices| =>
      if devices[i].0 == name then (name, devices[i].1.(currentValue := Some(v))) else devices[i])
  }

  /** Writing a current value changes that device's current value and nothing else. */
  lemma SetCurrentValueEffect(devices: seq<(string, Device)>, name: string, d: Device, v: string)
    requires UniqueKeys(devices) && Lookup(devices, name) == Some(d)
    ensures var r := SetCurrentValue(devices, name, v);
      && UniqueKeys(r)
      && Lookup(r, name) == Some(d.(currentValue := Some(v)))
      && forall n :: n != name ==> Lookup(r, n) == Lookup(devices, n)
  {
    var r := SetCurrentValue(devices, name, v);
    assert forall k :: 0 <= k < |r| ==> r[k].0 == devices[k].0;
    var i := LookupIndex(devices, name);
    assert r[i] == (name, d.(currentValue := Some(v)));
    LookupUnique(r, i);
    forall n | n != name ensures Lookup(r, n) == Lookup(devices, n) {
      if Lookup(devices, n).Some? {
        var k := LookupIndex(devices, n);
        assert r[k] == devices[k];
        LookupUnique(devices, k);
        LookupUnique(r, k);
      } else {
        assert forall k :: 0 <= k < |r| ==> r[k].0 != n;
      }
    }
  }

  /** Sends the final display line of handleDevice, padded, unless it is empty. */
  function Emit(st: State, line: string): State
  {
    if line == [] then st else st.(serialOut := st.serialOut + [Padded(line)])
  }

  /** Case 1 of handleDevice: a value showing the trigger raises the alarm; returns the state and the alert line. */
  function AlarmTrigger(st: State, name: string, a: Alarm, v: string): (State, string)
  {
    if Contains(v, a.triggerValue) then
      (st.(systemState := InAlarm, lastAlarm := Some(name), serialOut := st.serialOut + [Clear, PromptLine(AlarmLevel)]),
       AlertLine(a.friendlyName))
    else (st, "")
  }

  /** Case 2: a value showing the reset value in alarm state clears it; `line` is the line drawn so far. */
  function AlarmReset(st: State, a: Alarm, v: string, line: string): (State, string)
  {
    if Contains(v, a.resetValue) && st.systemState == InAlarm then
      (st.(systemState := NoAlarm, lastAlarm := None,
           serialOut := st.serialOut + [Clear, PromptLine(AlarmLevel)],
           tcpOut := st.tcpOut + [RequestValues]),
       ValueLine(AlarmLevel - 1, 0, a.friendlyName, v))
    else (st, line)
  }

  /** The alarm state machine for one update of the alarm `name` whose value reads `v`. */
  function AlarmUpdate(st: State, name: string, a: Alarm, v: string): State
  {
    var (s1, line1) := AlarmTrigger(st, name, a, v);
    var (s2, line2) := AlarmReset(s1, a, v, line1);
    Emit(s2, line2)
  }

  /** A device-class name whose value reads `v`: store it, and draw it unless an alarm is showing. */
  function DeviceValueUpdate(st: State, name: string, d: Device, v: string): State
  {
    var s1 := st.(devices := SetCurrentValue(st.devices, name, v));
    if st.systemState != InAlarm then
      Emit(s1.(serialOut := s1.serialOut + [PromptLine(0)]), ValueLine(0, Int32(d.line), d.friendlyName, v))
    else s1
  }

  /** One name of an update: resolved against the devices first, then the alarms. */
  function DeviceUpdate(cfg: Settings, st: State, name: string, values: Option<Json>): State
  {
    match Lookup(st.devices, name)
    case Some(d) =>
      (match DisplayValue(d.translate, d.valueKey, values)
       case Some(v) => DeviceValueUpdate(st, name, d, v)
       case None => st)
    case None =>
      match Lookup(cfg.alarms, name)
      case Some(a) =>
        (match DisplayValue(a.translate, a.valueKey, values)
         case Some(v) => AlarmUpdate(st, name, a, v)
         case None => st)
      case None => st
  }

  /** A device update touches only the devices, the alarm state and the two command logs. */
  lemma DeviceUpdateFrame(cfg: Settings, st: State, name: string, values: Option<Json>)
    ensures var r := DeviceUpdate(cfg, st, name, values);
      r == st.(devices := r.devices, systemState := r.systemState, lastAlarm := r.lastAlarm,
               serialOut := r.serialOut, tcpOut := r.tcpOut)
  {
    match Lookup(st.devices, name) {
      case Some(d) =>
      case None =>
        match Lookup(cfg.alarms, name) {
          case Some(a) =>
            match DisplayValue(a.translate, a.valueKey, values) {
              case Some(v) => AlarmUpdateFrame(st, name, a, v);
              case None =>
            }
          case None =>
        }
    }
  }

  lemma AlarmUpdateFrame(st: State, name: string, a: Alarm, v: string)
    ensures var r := AlarmUpdate(st, name, a, v);
      r == st.(systemState := r.systemState, lastAlarm := r.lastAlarm, serialOut := r.serialOut, tcpOut := r.tcpOut)
  {
  }

  /** The loop of handleDevice over the "devices" array; entries that are not strings are skipped. */
  function UpdateNames(cfg: Settings, st: State, names: seq<Json>, values: Option<Json>): State
  {
    if names == [] then st
    else
      var s := UpdateNames(cfg, st, names[..|names| - 1], values);
      match names[|names| - 1]
      case JStr(name) => DeviceUpdate(cfg, s, name, values)
      case _ => s
  }

  /** handleDevice(update). */
  function HandleUpdate(cfg: Settings, st: State, update: Json): State
  {
    UpdateNames(cfg, st, Items(Member(Some(update), "devices")), Member(Some(update), "values"))
  }

  /** The updates of a snapshot, handled in order. */
  function HandleUpdates(cfg: Settings, st: State, updates: seq<Json>): State
  {
    if updates == [] then st else HandleUpdate(cfg, HandleUpdates(cfg, st, updates[..|updates| - 1]), updates[|updates| - 1])
  }

  /** A name configured as a device is a device, whether or not an alarm has the same name. */
  lemma DevicesTakePrecedence(cfg: Settings, st: State, name: string, values: Option<Json>)
    requires Lookup(st.devices, name).Some?
    ensures var r := DeviceUpdate(cfg, st, name, values);
      r.systemState == st.systemState && r.lastAlarm == st.lastAlarm && r.tcpOut == st.tcpOut
  {
  }

  /** A name that is neither a device nor an alarm changes nothing and sends nothing. */
  lemma UnknownNameIgnored(cfg: Settings, st: State, name: string, values: Option<Json>)
    requires Lookup(st.devices, name).None? && Lookup(cfg.alarms, name).None?
    ensures DeviceUpdate(cfg, st, name, values) == st
  {
  }

  /**
    A device update always records the formatted value as the device's current
    value, leaving every other device as it was; it draws the prompt and the
    padded value line only outside alarm state.
   */
  lemma DeviceUpdateStoresValue(cfg: Settings, st: State, name: string, values: Option<Json>, d: Device, v: string)
    requires UniqueKeys(st.devices)
    requires Lookup(st.devices, name) == Some(d)
    requires DisplayValue(d.translate, d.valueKey, values) == Some(v)
    ensures var r := DeviceUpdate(cfg, st, name, values);
      && Lookup(r.devices, name) == Some(d.(currentValue := Some(v)))
      && (forall n :: n != name ==> Lookup(r.devices, n) == Lookup(st.devices, n))
      && r.serialOut == st.serialOut +
           (if st.systemState == InAlarm then []
            else [PromptLine(0), Padded(ValueLine(0, Int32(d.line), d.friendlyName, v))])
      && r == st.(devices := r.devices, serialOut := r.serialOut)
  {
    assert DeviceUpdate(cfg, st, name, values) == DeviceValueUpdate(st, name, d, v);
    SetCurrentValueEffect(st.devices, name, d, v);
    assert ValueLine(0, Int32(d.line), d.friendlyName, v) != [];
  }

  /** An alarm whose value shows its trigger (and not its reset) raises the alarm state and remembers the alarm. */
  lemma AlarmTriggers(cfg: Settings, st: State, name: string, values: Option<Json>, a: Alarm, v: string)
    requires Lookup(st.devices, name).None? && Lookup(cfg.alarms, name) == Some(a)
    requires DisplayValue(a.translate, a.valueKey, values) == Some(v)
    requires Contains(v, a.triggerValue) && !Contains(v, a.resetValue)
    ensures DeviceUpdate(cfg, st, name, values) ==
      st.(systemState := InAlarm, lastAlarm := Some(name),
          serialOut := st.serialOut + [Clear, PromptLine(AlarmLevel), Padded(AlertLine(a.friendlyName))])
  {
    assert AlertLine(a.friendlyName) != [];
  }

  /**
    An alarm whose value shows its reset value while the system is in alarm
    state clears the alarm state and the remembered alarm and asks the daemon
    for fresh values.
   */
  lemma AlarmResets(cfg: Settings, st: State, name: string, values: Option<Json>, a: Alarm, v: string)
    requires Lookup(st.devices, name).None? && Lookup(cfg.alarms, name) == Some(a)
    requires DisplayValue(a.translate, a.valueKey, values) == Some(v)
    requires st.systemState == InAlarm && !Contains(v, a.triggerValue) && Contains(v, a.resetValue)
    ensures DeviceUpdate(cfg, st, name, values) ==
      st.(systemState := NoAlarm, lastAlarm := None,
          serialOut := st.serialOut + [Clear, PromptLine(AlarmLevel), Padded(ValueLine(AlarmLevel - 1, 0, a.friendlyName, v))],
          tcpOut := st.tcpOut + [RequestValues])
  {
    assert ValueLine(AlarmLevel - 1, 0, a.friendlyName, v) != [];
  }

  /**
    A value showing both the trigger and the reset value raises the alarm and
    clears it again in the same update: the display is redrawn twice, the
    reset line is drawn, and the daemon is asked for fresh values.
   */
  lemma AlarmTriggerAndReset(st: State, name: string, a: Alarm, v: string)
    requires Contains(v, a.triggerValue) && Contains(v, a.resetValue)
    ensures AlarmUpdate(st, name, a, v) ==
      st.(systemState := NoAlarm, lastAlarm := None,
          serialOut := st.serialOut + [Clear, PromptLine(AlarmLevel), Clear, PromptLine(AlarmLevel),
                                       Padded(ValueLine(AlarmLevel - 1, 0, a.friendlyName, v))],
          tcpOut := st.tcpOut + [RequestValues])
  {
    assert ValueLine(AlarmLevel - 1, 0, a.friendlyName, v) != [];
  }

  /** Outside alarm state, an alarm value showing neither trigger changes and sends nothing. */
  lemma QuietAlarmIgnored(cfg: Settings, st: State, name: string, values: Option<Json>, a: Alarm, v: string)
    requires Lookup(st.devices, name).None? && Lookup(cfg.alarms, name) == Some(a)
    requires DisplayValue(a.translate, a.valueKey, values) == Some(v)
    requires !Contains(v, a.triggerValue) && (st.systemState == NoAlarm || !Contains(v, a.resetValue))
    ensures DeviceUpdate(cfg, st, name, values) == st
  {
  }

  /** A command handleDevice may write to the display: the clear command, a pin prompt, or a full padded row. */
  ghost predicate DisplayCommand(c: string)
  {
    || c == Clear
    || c == PromptLine(0)
    || c == PromptLine(AlarmLevel)
    || (|c| == LineWidth + 1 && c[LineWidth] == '\n')
  }

  /** `after` is `before` followed by display commands only. */
  ghost predicate DisplayExtends(before: seq<string>, after: seq<string>)
  {
    && |before| <= |after| && after[..|before|] == before
    && forall k :: |before| <= k < |after| ==> DisplayCommand(after[k])
  }

  lemma DisplayExtendsTrans(a: seq<string>, b: seq<string>, c: seq<string>)
    requires DisplayExtends(a, b) && DisplayExtends(b, c)
    ensures DisplayExtends(a, c)
  {
    assert c[..|a|] == c[..|b|][..|a|];
  }

  lemma DisplayExtendsAppend(a: seq<string>, cs: seq<string>)
    requires forall k :: 0 <= k < |cs| ==> DisplayCommand(cs[k])
    ensures DisplayExtends(a, a + cs)
  {
    assert (a + cs)[..|a|] == a;
  }

  lemma AlarmUpdateDisplay(st: State, name: string, a: Alarm, v: string)
    ensures DisplayExtends(st.serialOut, AlarmUpdate(st, name, a, v).serialOut)
  {
    var (s1, line1) := AlarmTrigger(st, name, a, v);
    var (s2, line2) := AlarmReset(s1, a, v, line1);
    DisplayExtendsAppend(st.serialOut, [Clear, PromptLine(AlarmLevel)]);
    DisplayExtendsAppend(s1.serialOut, [Clear, PromptLine(AlarmLevel)]);
    DisplayExtendsAppend(s2.serialOut, [Padded(line2)]);
    DisplayExtendsAppend(st.serialOut, []);
    DisplayExtendsAppend(s1.serialOut, []);
    DisplayExtendsAppend(s2.serialOut, []);
    DisplayExtendsTrans(st.serialOut, s1.serialOut, s2.serialOut);
    DisplayExtendsTrans(st.serialOut, s2.serialOut, Emit(s2, line2).serialOut);
  }

  lemma DeviceValueUpdateDisplay(st: State, name: string, d: Device, v: string)
    ensures DisplayExtends(st.serialOut, DeviceValueUpdate(st, name, d, v).serialOut)
  {
    var line := ValueLine(0, Int32(d.line), d.friendlyName, v);
    assert line != [];
    DisplayExtendsAppend(st.serialOut, [PromptLine(0), Padded(line)]);
    DisplayExtendsAppend(st.serialOut, []);
  }

  /**
    Every command one name's update writes to the display is the clear
    command, a pin prompt, or a line of exactly LineWidth bytes and a
    newline; what was written before is kept.
   */
  lemma DisplayLinesFixedWidth(cfg: Settings, st: State, name: string, values: Option<Json>)
    ensures DisplayExtends(st.serialOut, DeviceUpdate(cfg, st, name, values).serialOut)
  {
    DisplayExtendsAppend(st.serialOut, []);
    match Lookup(st.devices, name) {
      case Some(d) =>
        match DisplayValue(d.translate, d.valueKey, values) {
          case Some(v) => DeviceValueUpdateDisplay(st, name, d, v);
          case None =>
        }
      case None =>
        match Lookup(cfg.alarms, name) {
          case Some(a) =>
            match DisplayValue(a.translate, a.valueKey, values) {
              case Some(v) => AlarmUpdateDisplay(st, name, a, v);
              case None =>
            }
          case None =>
        }
    }
  }

  /** Over all the names of an update, handleDevice only appends display commands. */
  lemma {:induction false} UpdateNamesDisplay(cfg: Settings, st: State, names: seq<Json>, values: Option<Json>)
    ensures DisplayExtends(st.serialOut, UpdateNames(cfg, st, names, values).serialOut)
  {
    if names == [] {
      DisplayExtendsAppend(st.serialOut, []);
    } else {
      var s := UpdateNames(cfg, st, names[..|names| - 1], values);
      UpdateNamesDisplay(cfg, st, names[..|names| - 1], values);
      match names[|names| - 1] {
        case JStr(name) =>
          DisplayLinesFixedWidth(cfg, s, name, values);
          DisplayExtendsTrans(st.serialOut, s.serialOut, DeviceUpdate(cfg, s, name, values).serialOut);
        case _ =>
      }
    }
  }

  /** handleDevice keeps what the display was sent and appends only the clear command, prompts and full rows. */
  lemma HandleUpdateDisplay(cfg: Settings, st: State, update: Json)
    ensures DisplayExtends(st.serialOut, HandleUpdate(cfg, st, update).serialOut)
  {
    UpdateNamesDisplay(cfg, st, Items(Member(Some(update), "devices")), Member(Some(update), "values"));
  }

  lemma AlarmUpdateKeepsInv(cfg: Settings, st: State, name: string, a: Alarm, v: string)
    requires Inv(cfg, st) && Lookup(cfg.alarms, name) == Some(a)
    ensures Inv(cfg, AlarmUpdate(st, name, a, v))
  {
    var (s1, line1) := AlarmTrigger(st, name, a, v);
    assert Inv(cfg, s1);
    var (s2, line2) := AlarmReset(s1, a, v, line1);
    assert Inv(cfg, s2);
  }

  lemma DeviceValueUpdateKeepsInv(cfg: Settings, st: State, name: string, d: Device, v: string)
    requires Inv(cfg, st) && Lookup(st.devices, name) == Some(d)
    ensures Inv(cfg, DeviceValueUpdate(st, name, d, v))
  {
    SetCurrentValueEffect(st.devices, name, d, v);
  }

  /** A device update keeps the invariant: the alarm state and the remembered alarm move together. */
  lemma DeviceUpdateKeepsInv(cfg: Settings, st: State, name: string, values: Option<Json>)
    requires Inv(cfg, st)
    ensures Inv(cfg, DeviceUpdate(cfg, st, name, values))
  {
    match Lookup(st.devices, name) {
      case Some(d) =>
        match DisplayValue(d.translate, d.valueKey, values) {
          case Some(v) => DeviceValueUpdateKeepsInv(cfg, st, name, d, v);
          case None =>
        }
      case None =>
        match Lookup(cfg.alarms, name) {
          case Some(a) =>
            match DisplayValue(a.translate, a.valueKey, values) {
              case Some(v) => AlarmUpdateKeepsInv(cfg, st, name, a, v);
              case None =>
            }
          case None =>
        }
    }
  }

  lemma {:induction false} UpdateNamesKeepInv(cfg: Settings, st: State, names: seq<Json>, values: Option<Json>)
    requires Inv(cfg, st)
    ensures Inv(cfg, UpdateNames(cfg, st, names, values))
  {
    if names != [] {
      UpdateNamesKeepInv(cfg, st, names[..|names| - 1], values);
      var s := UpdateNames(cfg, st, names[..|names| - 1], values);
      match names[|names| - 1]
      case JStr(name) => DeviceUpdateKeepsInv(cfg, s, name, values);
      case _ =>
    }
  }

  lemma {:induction false} HandleUpdatesKeepInv(cfg: Settings, st: State, updates: seq<Json>)
    requires Inv(cfg, st)
    ensures Inv(cfg, HandleUpdates(cfg, st, updates))
  {
    if updates != [] {
      var u := updates[|updates| - 1];
      HandleUpdatesKeepInv(cfg, st, updates[..|updates| - 1]);
      var s := HandleUpdates(cfg, st, updates[..|updates| - 1]);
      UpdateNamesKeepInv(cfg, s, Items(Member(Some(u), "devices")), Member(Some(u), "values"));
    }
  }

  /** Updates never touch the pending input, the keypad session or the daemon status. */
  lemma {:induction false} UpdatesKeepSession(cfg: Settings, st: State, names: seq<Json>, values: Option<Json>)
    ensures var r := UpdateNames(cfg, st, names, values);
      && r.serialBuf == st.serialBuf && r.tcpBuf == st.tcpBuf
      && r.pinValid == st.pinValid && r.arduinoOnline == st.arduinoOnline
      && r.pilightStatus == st.pilightStatus
  {
    if names != [] {
      UpdatesKeepSession(cfg, st, names[..|names| - 1], values);
      var s := UpdateNames(cfg, st, names[..|names| - 1], values);
      match names[|names| - 1]
      case JStr(name) => DeviceUpdateFrame(cfg, s, name, values);
      case _ =>
    }
  }

  lemma {:induction false} SnapshotKeepsSession(cfg: Settings, st: State, updates: seq<Json>)
    ensures var r := HandleUpdates(cfg, st, updates);
      && r.serialBuf == st.serialBuf && r.tcpBuf == st.tcpBuf
      && r.pinValid == st.pinValid && r.arduinoOnline == st.arduinoOnline
      && r.pilightStatus == st.pilightStatus
  {
    if updates != [] {
      var u := updates[|updates| - 1];
      var s := HandleUpdates(cfg, st, updates[..|updates| - 1]);
      SnapshotKeepsSession(cfg, st, updates[..|updates| - 1]);
      UpdatesKeepSession(cfg, s, Items(Member(Some(u), "devices")), Member(Some(u), "values"));
    }
  }

  // ---------------------------------------------------------------------------
  // the daemon half of parseStrings
  // ---------------------------------------------------------------------------

  /** The update documents a snapshot carries: "message" present and "values" an array. */
  function SnapshotUpdates(doc: Json): seq<Json>
  {
    if Member(Some(doc), "message").Some? then Items(Member(Some(doc), "values")) else []
  }

  /** The document is an update: "origin" a string containing "update" and "devices" an array. */
  predicate IsUpdate(doc: Json)
  {
    && (match Member(Some(doc), "origin") case Some(JStr(o)) => Contains(o, "update") case _ => false)
    && Member(Some(doc), "devices").Some? && Member(Some(doc), "devices").value.JArr?
  }

  /** The status a document reports, or `previous` when it reports none. */
  function StatusOf(doc: Json, previous: Option<string>): Option<string>
  {
    match Member(Some(doc), "status")
    case Some(JStr(s)) => Some(s)
    case _ => previous
  }

  /** One line from the daemon; `parse` is the JSON parser, None for text that does not parse. */
  function DaemonLine(cfg: Settings, parse: string -> Option<Json>, st: State, seg: string): State
  {
    match parse(seg)
    case Some(JObj(m)) =>
      var doc := JObj(m);
      var s1 := st.(pilightStatus := StatusOf(doc, st.pilightStatus));
      var s2 := HandleUpdates(cfg, s1, SnapshotUpdates(doc));
      if IsUpdate(doc) then HandleUpdate(cfg, s2, doc) else s2
    case _ => st
  }

  /** The daemon lines of one buffer, handled in order. */
  function DaemonLines(cfg: Settings, parse: string -> Option<Json>, st: State, segs: seq<string>): State
  {
    if segs == [] then st else DaemonLine(cfg, parse, DaemonLines(cfg, parse, st, segs[..|segs| - 1]), segs[|segs| - 1])
  }

  /** A line that is not a JSON object is dropped without effect. */
  lemma NonObjectLineIgnored(cfg: Settings, parse: string -> Option<Json>, st: State, seg: string)
    requires parse(seg).None? || !parse(seg).value.JObj?
    ensures DaemonLine(cfg, parse, st, seg) == st
  {
  }

  /** A status string is remembered, and no daemon line touches the keypad session or the pending input. */
  lemma DaemonLineKeepsSession(cfg: Settings, parse: string -> Option<Json>, st: State, seg: string)
    ensures var r := DaemonLine(cfg, parse, st, seg);
      && r.serialBuf == st.serialBuf && r.tcpBuf == st.tcpBuf
      && r.pinValid == st.pinValid && r.arduinoOnline == st.arduinoOnline
      && r.pilightStatus == if parse(seg).Some? && parse(seg).value.JObj? then StatusOf(parse(seg).value, st.pilightStatus)
                             else st.pilightStatus
  {
    match parse(seg)
    case Some(JObj(m)) =>
      var doc := JObj(m);
      var s1 := st.(pilightStatus := StatusOf(doc, st.pilightStatus));
      var s2 := HandleUpdates(cfg, s1, SnapshotUpdates(doc));
      SnapshotKeepsSession(cfg, s1, SnapshotUpdates(doc));
      UpdatesKeepSession(cfg, s2, Items(Member(Some(doc), "devices")), Member(Some(doc), "values"));
    case _ =>
  }

  lemma DaemonLineKeepsInv(cfg: Settings, parse: string -> Option<Json>, st: State, seg: string)
    requires Inv(cfg, st)
    ensures Inv(cfg, DaemonLine(cfg, parse, st, seg))
  {
    match parse(seg)
    case Some(JObj(m)) =>
      var doc := JObj(m);
      var s1 := st.(pilightStatus := StatusOf(doc, st.pilightStatus));
      HandleUpdatesKeepInv(cfg, s1, SnapshotUpdates(doc));
      var s2 := HandleUpdates(cfg, s1, SnapshotUpdates(doc));
      UpdateNamesKeepInv(cfg, s2, Items(Member(Some(doc), "devices")), Member(Some(doc), "values"));
    case _ =>
  }

  lemma {:induction false} DaemonLinesKeepInv(cfg: Settings, parse: string -> Option<Json>, st: State, segs: seq<string>)
    requires Inv(cfg, st)
    ensures Inv(cfg, DaemonLines(cfg, parse, st, segs))
  {
    if segs != [] {
      DaemonLinesKeepInv(cfg, parse, st, segs[..|segs| - 1]);
      DaemonLineKeepsInv(cfg, parse, DaemonLines(cfg, parse, st, segs[..|segs| - 1]), segs[|segs| - 1]);
    }
  }

  // ---------------------------------------------------------------------------
  // parseStrings: framing
  // ---------------------------------------------------------------------------

  /** The keypad half: once the buffer holds a newline, every token is handled and the buffer emptied. */
  function ParseSerial(cfg: Settings, st: State): State
  {
    if '\n' in st.serialBuf then KeypadLines(cfg, st, Segments(st.serialBuf)).(serialBuf := "") else st
  }

  /** The daemon half, likewise. */
  function ParseDaemon(cfg: Settings, parse: string -> Option<Json>, st: State): State
  {
    if '\n' in st.tcpBuf then DaemonLines(cfg, parse, st, Segments(st.tcpBuf)).(tcpBuf := "") else st
  }

  /** parseStrings: the keypad buffer, then the daemon buffer. */
  function ParseStrings(cfg: Settings, parse: string -> Option<Json>, st: State): State
  {
    ParseDaemon(cfg, parse, ParseSerial(cfg, st))
  }

  /** A complete line followed by an unterminated one gives both as tokens. */
  lemma SegmentsOfTwoLines(a: string, b: string)
    requires a != [] && '\n' !in a && b != [] && '\n' !in b
    ensures Segments(a + "\n" + b) == [a, b]
  {
    SegmentsSplit(a, b);
    SegmentsOfLine(a);
    SegmentsOfLine(b);
  }

  /** A line received twice gives two equal tokens. */
  lemma SegmentsOfRepeatedLine(m: string)
    requires m != [] && '\n' !in m
    ensures Segments(m + "\n" + m + "\n") == [m, m]
  {
    assert m + "\n" + m + "\n" == m + "\n" + (m + "\n");
    SegmentsSplit(m, m + "\n");
    assert m + "\n" == m + "\n" + "";
    SegmentsSplit(m, "");
    SegmentsOfLine(m);
  }

  lemma KeypadLinesPair(cfg: Settings, st: State, a: string, b: string)
    ensures KeypadLines(cfg, st, [a, b]) == KeypadLine(cfg, KeypadLine(cfg, st, a), b)
  {
    assert [a, b][..1] == [a];
    assert [a][..0] == [];
    assert KeypadLines(cfg, st, [a]) == KeypadLine(cfg, st, a);
  }

  /** Without a newline in either buffer nothing is handled and nothing changes. */
  lemma NoNewlineNoDispatch(cfg: Settings, parse: string -> Option<Json>, st: State)
    requires '\n' !in st.serialBuf && '\n' !in st.tcpBuf
    ensures ParseStrings(cfg, parse, st) == st
  {
  }

  /** Without a newline in the serial buffer the keypad half handles nothing and changes nothing. */
  lemma SerialNoNewlineNoDispatch(cfg: Settings, st: State)
    requires '\n' !in st.serialBuf
    ensures ParseSerial(cfg, st) == st
  {
  }

  /** Without a newline in the socket buffer the daemon half handles nothing and changes nothing. */
  lemma DaemonNoNewlineNoDispatch(cfg: Settings, parse: string -> Option<Json>, st: State)
    requires '\n' !in st.tcpBuf
    ensures ParseDaemon(cfg, parse, st) == st
  {
  }

  /** A keypad buffer without a newline waits, and parseStrings only works on the socket buffer. */
  lemma SerialWaitsForNewline(cfg: Settings, parse: string -> Option<Json>, st: State)
    requires '\n' !in st.serialBuf
    ensures ParseStrings(cfg, parse, st) == ParseDaemon(cfg, parse, st)
  {
    SerialNoNewlineNoDispatch(cfg, st);
  }

  /**
    Two keypad messages, the second not yet terminated, are both handled, in
    order, and the buffer is then empty: the unterminated fragment is not kept
    for the next read.
   */
  lemma TrailingFragmentHandledAndDropped(cfg: Settings, st: State, a: string, b: string)
    requires a != [] && '\n' !in a && b != [] && '\n' !in b
    requires st.serialBuf == a + "\n" + b
    ensures ParseSerial(cfg, st) == KeypadLine(cfg, KeypadLine(cfg, st, a), b).(serialBuf := "")
  {
    SegmentsOfTwoLines(a, b);
    KeypadLinesPair(cfg, st, a, b);
  }

  /** The same message received twice is handled twice. */
  lemma RepeatedMessageHandledTwice(cfg: Settings, st: State, m: string)
    requires m != [] && '\n' !in m
    requires st.serialBuf == m + "\n" + m + "\n"
    ensures ParseSerial(cfg, st) == KeypadLine(cfg, KeypadLine(cfg, st, m), m).(serialBuf := "")
  {
    SegmentsOfRepeatedLine(m);
    KeypadLinesPair(cfg, st, m, m);
  }

  lemma DaemonLinesPair(cfg: Settings, parse: string -> Option<Json>, st: State, a: string, b: string)
    ensures DaemonLines(cfg, parse, st, [a, b]) == DaemonLine(cfg, parse, DaemonLine(cfg, parse, st, a), b)
  {
    assert [a, b][..1] == [a];
    assert [a][..0] == [];
    assert DaemonLines(cfg, parse, st, [a]) == DaemonLine(cfg, parse, st, a);
  }

  /** The daemon half likewise handles a complete line and an unterminated one, then empties the buffer. */
  lemma DaemonFragmentHandledAndDropped(cfg: Settings, parse: string -> Option<Json>, st: State, a: string, b: string)
    requires a != [] && '\n' !in a && b != [] && '\n' !in b
    requires st.tcpBuf == a + "\n" + b
    ensures ParseDaemon(cfg, parse, st) == DaemonLine(cfg, parse, DaemonLine(cfg, parse, st, a), b).(tcpBuf := "")
  {
    SegmentsOfTwoLines(a, b);
    DaemonLinesPair(cfg, parse, st, a, b);
  }

  /** The same daemon message received twice is handled twice. */
  lemma DaemonMessageHandledTwice(cfg: Settings, parse: string -> Option<Json>, st: State, m: string)
    requires m != [] && '\n' !in m
    requires st.tcpBuf == m + "\n" + m + "\n"
    ensures ParseDaemon(cfg, parse, st) == DaemonLine(cfg, parse, DaemonLine(cfg, parse, st, m), m).(tcpBuf := "")
  {
    SegmentsOfRepeatedLine(m);
    DaemonLinesPair(cfg, parse, st, m, m);
  }

  /** Handling the keypad buffer keeps the invariant. */
  lemma {:induction false} KeypadLinesKeepInv(cfg: Settings, st: State, segs: seq<string>)
    requires Inv(cfg, st)
    ensures Inv(cfg, KeypadLines(cfg, st, segs))
    ensures KeypadLines(cfg, st, segs).devices == st.devices
  {
    if segs != [] {
      KeypadLinesKeepInv(cfg, st, segs[..|segs| - 1]);
    }
  }

  /** parseStrings keeps the invariant. */
  lemma ParseStringsKeepsInv(cfg: Settings, parse: string -> Option<Json>, st: State)
    requires Inv(cfg, st)
    ensures Inv(cfg, ParseStrings(cfg, parse, st))
  {
    if '\n' in st.serialBuf {
      KeypadLinesKeepInv(cfg, st, Segments(st.serialBuf));
    }
    var s := ParseSerial(cfg, st);
    if '\n' in s.tcpBuf {
      DaemonLinesKeepInv(cfg, parse, s, Segments(s.tcpBuf));
    }
  }
}

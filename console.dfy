/**
  The console program itself: its global state as the fields of one object,
  and readHandle, parseStrings and handleDevice as methods that change those
  fields step by step, each proved to do what the Engine functions say.
  The two command logs stand for what sendCommand writes to the serial line
  and to the daemon's socket.
 */
module PilightConsole {
  import opened Wrappers
  import opened Text
  import opened Json
  import opened Config
  import opened Engine

  /** BUFFER_SIZE: readHandle reads at most BufferSize - 2 bytes at a time. */
  const BufferSize: nat := 1024

  class Console {
    /** The pin code and the alarms of the configuration, read once at start-up. */
    const settings: Settings

    var serialString: string
    var tcpString: string
    var systemState: AlarmState
    var lastAlarm: Option<string>
    var pinValid: bool
    var arduinoOnline: bool
    var pilightStatus: Option<string>
    /** globalDevices: the only part of the configuration written at run time (the current values). */
    var devices: seq<(string, Device)>
    var serialOut: seq<string>
    var tcpOut: seq<string>

    /** The object's state as an Engine state. */
    ghost function Abs(): State
      reads this
    {
      State(serialString, tcpString, systemState, lastAlarm, pinValid, arduinoOnline,
            pilightStatus, devices, serialOut, tcpOut)
    }

    ghost predicate Valid()
      reads this
    {
      Inv(settings, Abs())
    }

    /** The globals main sets up before it registers with the daemon: no alarm, controller offline, empty buffers. */
    constructor (cfg: Settings, devs: seq<(string, Device)>)
      requires UniqueKeys(cfg.alarms) && UniqueKeys(devs)
      ensures settings == cfg && Abs() == Initial(devs)
      ensures Valid()
    {
      settings := cfg;
      serialString := "";
      tcpString := "";
      systemState := NoAlarm;
      lastAlarm := None;
      pinValid := false;
      arduinoOnline := false;
      pilightStatus := None;
      devices := devs;
      serialOut := [];
      tcpOut := [];
    }

    /** sendCommand: the command is written to the serial line or to the daemon. */
    method SendCommand(to: Source, command: string)
      modifies this
      ensures Abs() == if to == Serial then old(Abs()).(serialOut := old(serialOut) + [command])
                       else old(Abs()).(tcpOut := old(tcpOut) + [command])
    {
      if to == Serial {
        serialOut := serialOut + [command];
      } else {
        tcpOut := tcpOut + [command];
      }
    }

    /**
      readHandle: `bytes` is what read() returned on the descriptor of `src`;
      it is appended, up to its first NUL, to that source's buffer, and its
      length is returned.
     */
    method ReadHandle(src: Source, bytes: string) returns (rdlen: int)
      requires |bytes| <= BufferSize - 2
      modifies this
      ensures rdlen == |bytes|
      ensures Abs() == Feed(old(Abs()), src, bytes)
      ensures Valid() <==> old(Valid())
    {
      rdlen := |bytes|;
      if rdlen > 0 {
        // strncat: copy up to the first NUL
        var n := 0;
        while n < rdlen && bytes[n] != '\0'
          invariant 0 <= n <= rdlen
          invariant '\0' !in bytes[..n]
        {
          assert bytes[..n + 1] == bytes[..n] + [bytes[n]];
          n := n + 1;
        }
        CopiedPrefix(bytes, n);
        if src == Serial {
          serialString := serialString + bytes[..n];
        } else {
          tcpString := tcpString + bytes[..n];
        }
      }
    }

    /** parseStrings: every complete keypad line, then every complete daemon line. */
    method ParseStrings(parse: string -> Option<Json>)
      requires Valid()
      modifies this
      ensures Abs() == Engine.ParseStrings(settings, parse, old(Abs()))
      ensures Valid()
    {
      ParseSerialInput();
      ParseDaemonInput(parse);
      ParseStringsKeepsInv(settings, parse, old(Abs()));
    }

    /** The keypad half of parseStrings: strtok on the serial buffer, each token handled, the buffer emptied. */
    method ParseSerialInput()
      modifies this
      ensures Abs() == ParseSerial(settings, old(Abs()))
    {
      if '\n' in serialString {
        var segs := Segments(serialString);
        var i := 0;
        while i < |segs|
          invariant 0 <= i <= |segs|
          invariant Abs() == KeypadLines(settings, old(Abs()), segs[..i])
        {
          assert segs[..i + 1][..i] == segs[..i];
          HandleKeypadLine(segs[i]);
          i := i + 1;
        }
        assert segs[..|segs|] == segs;
        serialString := "";
      }
    }

    /** The daemon half of parseStrings, likewise on the socket buffer. */
    method ParseDaemonInput(parse: string -> Option<Json>)
      modifies this
      ensures Abs() == ParseDaemon(settings, parse, old(Abs()))
    {
      if '\n' in tcpString {
        var segs := Segments(tcpString);
        var i := 0;
        while i < |segs|
          invariant 0 <= i <= |segs|
          invariant Abs() == DaemonLines(settings, parse, old(Abs()), segs[..i])
        {
          assert segs[..i + 1][..i] == segs[..i];
          HandleDaemonLine(parse, segs[i]);
          i := i + 1;
        }
        assert segs[..|segs|] == segs;
        tcpString := "";
      }
    }

    /** One token of the serial buffer: OFFLINE, ONLINE, the pin, or a toggle key. */
    method HandleKeypadLine(seg: string)
      modifies this
      ensures Abs() == KeypadLine(settings, old(Abs()), seg)
    {
      if Contains(seg, "OFFLINE") {
        arduinoOnline := false;
        if pinValid {
          EraseToggleKeys();
          pinValid := false;
        }
      } else if Contains(seg, "ONLINE") {
        arduinoOnline := true;
      } else if seg == settings.pin {
        pinValid := true;
        if systemState == InAlarm {
          RequestAlarmReset();
        } else {
          ShowToggleKeys();
        }
      } else if pinValid {
        ToggleDevices(seg);
      }
    }

    /** Blanks the toggle key of every keyed device. */
    method EraseToggleKeys()
      modifies this
      ensures Abs() == old(Abs()).(serialOut := old(serialOut) + EraseMenu(devices))
    {
      var devs := devices;
      for i := 0 to |devs|
        invariant Abs() == old(Abs()).(serialOut := old(serialOut) + EraseMenu(devs[..i]))
      {
        assert devs[..i + 1][..i] == devs[..i];
        if devs[i].1.key.Some? {
          SendCommand(Serial, EraseLine(devs[i].1));
        }
      }
      assert devs[..|devs|] == devs;
    }

    /** Shows the toggle key of every keyed device in the last column of its row. */
    method ShowToggleKeys()
      modifies this
      ensures Abs() == old(Abs()).(serialOut := old(serialOut) + ToggleMenu(devices))
    {
      var devs := devices;
      for i := 0 to |devs|
        invariant Abs() == old(Abs()).(serialOut := old(serialOut) + ToggleMenu(devs[..i]))
      {
        assert devs[..i + 1][..i] == devs[..i];
        if devs[i].1.key.Some? {
          SendCommand(Serial, MenuLine(devs[i].1));
        }
      }
      assert devs[..|devs|] == devs;
    }

    /** Asks the daemon to reset the alarm that raised the alarm state. */
    method RequestAlarmReset()
      modifies this
      ensures Abs() == old(Abs()).(tcpOut := old(tcpOut) + ResetRequests(settings.alarms, lastAlarm))
    {
      var alarms := settings.alarms;
      for i := 0 to |alarms|
        invariant Abs() == old(Abs()).(tcpOut := old(tcpOut) + ResetRequests(alarms[..i], lastAlarm))
      {
        assert alarms[..i + 1][..i] == alarms[..i];
        var (name, a) := alarms[i];
        if lastAlarm == Some(name) {
          SendCommand(Daemon, ControlCommand(name, a.valueKey, a.resetValue));
        }
      }
      assert alarms[..|alarms|] == alarms;
    }

    /** Toggles every device whose key is `input`, from its current value to the other toggle value. */
    method ToggleDevices(input: string)
      modifies this
      ensures Abs() == old(Abs()).(tcpOut := old(tcpOut) + ToggleRequests(devices, input))
    {
      var devs := devices;
      for i := 0 to |devs|
        invariant Abs() == old(Abs()).(tcpOut := old(tcpOut) + ToggleRequests(devs[..i], input))
      {
        assert devs[..i + 1][..i] == devs[..i];
        var (name, d) := devs[i];
        if d.key == Some(input) && d.currentValue.Some? {
          var canonical := ReverseTranslate(d.translate, d.currentValue.value);
          var next := NextToggle(d.toggles, canonical);
          SendCommand(Daemon, ControlCommand(name, d.valueKey, next));
        }
      }
      assert devs[..|devs|] == devs;
    }

    /** One token of the daemon buffer: status, snapshot and update documents. */
    method HandleDaemonLine(parse: string -> Option<Json>, seg: string)
      modifies this
      ensures Abs() == DaemonLine(settings, parse, old(Abs()), seg)
    {
      var parsed := parse(seg);
      if parsed.Some? && parsed.value.JObj? {
        var doc := parsed.value;
        pilightStatus := StatusOf(doc, pilightStatus);
        ghost var s1 := Abs();
        var updates := SnapshotUpdates(doc);
        for i := 0 to |updates|
          invariant Abs() == HandleUpdates(settings, s1, updates[..i])
        {
          assert updates[..i + 1][..i] == updates[..i];
          HandleDevice(updates[i]);
        }
        assert updates[..|updates|] == updates;
        if IsUpdate(doc) {
          HandleDevice(doc);
        }
      }
    }

    /** handleDevice: every device name the update lists, in order. */
    method HandleDevice(update: Json)
      modifies this
      ensures Abs() == HandleUpdate(settings, old(Abs()), update)
    {
      var names := Items(Member(Some(update), "devices"));
      var values := Member(Some(update), "values");
      for i := 0 to |names|
        invariant Abs() == UpdateNames(settings, old(Abs()), names[..i], values)
      {
        assert names[..i + 1][..i] == names[..i];
        if names[i].JStr? {
          UpdateDevice(names[i].s, values);
        }
      }
      assert names[..|names|] == names;
    }

    /** The body of handleDevice's loop for one device name: devices are looked up before alarms. */
    method UpdateDevice(name: string, values: Option<Json>)
      modifies this
      ensures Abs() == DeviceUpdate(settings, old(Abs()), name, values)
    {
      var device := Lookup(devices, name);
      if device.Some? {
        var d := device.value;
        var v := DisplayValue(d.translate, d.valueKey, values);
        if v.Some? {
          ShowDeviceValue(name, d, v.value);
        }
      } else {
        var alarm := Lookup(settings.alarms, name);
        if alarm.Some? {
          var a := alarm.value;
          var v := DisplayValue(a.translate, a.valueKey, values);
          if v.Some? {
            RunAlarm(name, a, v.value);
          }
        }
      }
    }

    /** Case 3 of handleDevice: record the value and, outside alarm state, draw it. */
    method ShowDeviceValue(name: string, d: Device, v: string)
      modifies this
      ensures Abs() == DeviceValueUpdate(old(Abs()), name, d, v)
    {
      devices := SetCurrentValue(devices, name, v);
      if systemState != InAlarm {
        SendCommand(Serial, PromptLine(0));
        PrintLine(ValueLine(0, Int32(d.line), d.friendlyName, v));
      }
    }

    /** Cases 1 and 2 of handleDevice: the alarm state machine, then the line it leaves. */
    method RunAlarm(name: string, a: Alarm, v: string)
      modifies this
      ensures Abs() == AlarmUpdate(old(Abs()), name, a, v)
    {
      var theLine := TriggerAlarm(name, a, v);
      theLine := ResetAlarm(a, v, theLine);
      PrintLine(theLine);
    }

    method TriggerAlarm(name: string, a: Alarm, v: string) returns (theLine: string)
      modifies this
      ensures (Abs(), theLine) == AlarmTrigger(old(Abs()), name, a, v)
    {
      theLine := "";
      if Contains(v, a.triggerValue) {
        assert old(serialOut) + [Clear] + [PromptLine(AlarmLevel)] == old(serialOut) + [Clear, PromptLine(AlarmLevel)];
        systemState := InAlarm;
        SendCommand(Serial, Clear);
        SendCommand(Serial, PromptLine(AlarmLevel));
        theLine := AlertLine(a.friendlyName);
        lastAlarm := Some(name);
      }
    }

    method ResetAlarm(a: Alarm, v: string, line: string) returns (theLine: string)
      modifies this
      ensures (Abs(), theLine) == AlarmReset(old(Abs()), a, v, line)
    {
      theLine := line;
      if Contains(v, a.resetValue) && systemState == InAlarm {
        assert old(serialOut) + [Clear] + [PromptLine(AlarmLevel)] == old(serialOut) + [Clear, PromptLine(AlarmLevel)];
        systemState := NoAlarm;
        lastAlarm := None;
        SendCommand(Serial, Clear);
        SendCommand(Serial, PromptLine(AlarmLevel));
        theLine := ValueLine(AlarmLevel - 1, 0, a.friendlyName, v);
        SendCommand(Daemon, RequestValues);
      }
    }

    /** The end of handleDevice's loop body: a non-empty line is padded to the row width and sent. */
    method PrintLine(theLine: string)
      modifies this
      ensures Abs() == Emit(old(Abs()), theLine)
    {
      if |theLine| > 0 {
        var padded := PadLine(theLine);
        SendCommand(Serial, padded);
      }
    }
  }

  /** The prefix strncat copies is the C string of the bytes read. */
  lemma CopiedPrefix(bytes: string, n: int)
    requires 0 <= n <= |bytes| && '\0' !in bytes[..n]
    requires n == |bytes| || bytes[n] == '\0'
    ensures bytes[..n] == CString(bytes)
  {
  }
}

/**
  The configuration the console works from: device and alarm descriptors
  (the "devices" and "alarms" objects of the configuration file), the pin
  code, value translation in both directions, the toggle choice, and the
  text of every command the console sends.
 */
module Config {
  import opened Wrappers
  import opened Text
  import opened Json

  /**
    A monitored device. `translate` maps a raw value to its display text;
    `key` is the keypad character bound to the device for toggling; `toggles`
    holds its two canonical values; `currentValue` is the last formatted value,
    written back by the update engine.
   */
  datatype Device = Device(
    friendlyName: string,
    valueKey: string,
    translate: seq<(string, string)>,
    line: int,
    key: Option<string>,
    toggles: (string, string),
    currentValue: Option<string>)

  /** An alarm: a device whose value raises the alarm when it contains `triggerValue` and clears it when it contains `resetValue`. */
  datatype Alarm = Alarm(
    friendlyName: string,
    valueKey: string,
    translate: seq<(string, string)>,
    triggerValue: string,
    resetValue: string)

  /** The parts of the configuration that never change: the pin code and the alarms. */
  datatype Settings = Settings(pin: string, alarms: seq<(string, Alarm)>)

  /** LCDHEIGHT: rows of the display; the pin prompt goes on the last one. */
  const LcdHeight: int := 4
  /** The `isAlarm` level handleDevice uses for alarm-class names. */
  const AlarmLevel: int := 3

  // ---------------------------------------------------------------------------
  // value translation and formatting
  // ---------------------------------------------------------------------------

  /** Replaces a string value by its translation when the translation table has an entry for it. */
  function Translated(translate: seq<(string, string)>, raw: Option<Json>): Option<Json>
  {
    match raw
    case Some(JStr(s)) =>
      (match Lookup(translate, s)
       case Some(t) => Some(JStr(t))
       case None => raw)
    case _ => raw
  }

  /**
    The text handleDevice prints for a value: "%4.1f" for a real, "%d" for an
    integer (read as a C int), the string itself for a string. Any other value,
    or none, has no defined text.
   */
  function FormatValue(v: Option<Json>): Option<string>
  {
    match v
    case Some(JReal(t)) => Some(FormatTenths(t))
    case Some(JInt(i)) => Some(IntToDecimal(Int32(i)))
    case Some(JStr(s)) => Some(s)
    case _ => None
  }

  /** The display text of the value stored under a descriptor's value key. */
  function DisplayValue(translate: seq<(string, string)>, valueKey: string, values: Option<Json>): Option<string>
  {
    FormatValue(Translated(translate, Member(values, valueKey)))
  }

  /**
    The canonical token the toggle handler recovers from a display text: the
    translation entries are visited in order and, whenever the text so far
    equals an entry's translation, it is replaced by that entry's key.
   */
  function Canonical(translate: seq<(string, string)>, current: string): string
  {
    if translate == [] then current
    else
      var c := Canonical(translate[..|translate| - 1], current);
      var e := translate[|translate| - 1];
      if c == e.1 then e.0 else c
  }

  /** The reverse-translation loop of the toggle handler. */
  method ReverseTranslate(translate: seq<(string, string)>, current: string) returns (canonical: string)
    ensures canonical == Canonical(translate, current)
  {
    canonical := current;
    for i := 0 to |translate|
      invariant canonical == Canonical(translate[..i], current)
    {
      assert translate[..i + 1][..i] == translate[..i];
      if canonical == translate[i].1 {
        canonical := translate[i].0;
      }
    }
    assert translate[..|translate|] == translate;
  }

  /** The key of the first entry whose translation is `text`. */
  function ReverseLookup(translate: seq<(string, string)>, text: string): (r: Option<string>)
    ensures r.None? <==> forall i :: 0 <= i < |translate| ==> translate[i].1 != text
    ensures r.Some? ==> exists i :: 0 <= i < |translate| && translate[i].1 == text && translate[i].0 == r.value &&
                                    forall j :: 0 <= j < i ==> translate[j].1 != text
  {
    if translate == [] then None
    else
      var e := translate[|translate| - 1];
      var p := translate[..|translate| - 1];
      assert forall i :: 0 <= i < |p| ==> p[i] == translate[i];
      match ReverseLookup(p, text)
      case Some(k) => Some(k)
      case None => if e.1 == text then Some(e.0) else None
  }

  /** No translation text is also a raw value, so one reverse step cannot feed another. */
  ghost predicate NoChaining(translate: seq<(string, string)>)
  {
    forall i, j :: 0 <= i < |translate| && 0 <= j < |translate| ==> translate[i].0 != translate[j].1
  }

  /** Without chaining, the reverse translation is the FIRST entry whose translation matches, or the text itself. */
  lemma {:induction false} CanonicalIsFirstMatch(translate: seq<(string, string)>, text: string)
    requires NoChaining(translate)
    ensures Canonical(translate, text) == match ReverseLookup(translate, text) case Some(k) => k case None => text
  {
    if translate != [] {
      var p := translate[..|translate| - 1];
      assert forall i :: 0 <= i < |p| ==> p[i] == translate[i];
      assert NoChaining(p);
      CanonicalIsFirstMatch(p, text);
    }
  }

  /** Translation and reverse translation are inverse on a one-to-one translation table. */
  lemma TranslationRoundTrip(translate: seq<(string, string)>, raw: string, shown: string)
    requires UniqueKeys(translate) && NoChaining(translate)
    requires forall i, j :: 0 <= i < j < |translate| ==> translate[i].1 != translate[j].1
    requires Lookup(translate, raw) == Some(shown)
    ensures FormatValue(Translated(translate, Some(JStr(raw)))) == Some(shown)
    ensures Canonical(translate, shown) == raw
  {
    CanonicalIsFirstMatch(translate, shown);
    var k := ReverseLookup(translate, shown).value;
    var i :| 0 <= i < |translate| && translate[i].1 == shown && translate[i].0 == k;
    var j :| 0 <= j < |translate| && translate[j].0 == raw && translate[j].1 == shown;
    assert i == j;
  }

  /** A raw value that is neither translated nor a translation is its own canonical token. */
  lemma UntranslatedRoundTrip(translate: seq<(string, string)>, raw: string)
    requires forall i :: 0 <= i < |translate| ==> translate[i].0 != raw && translate[i].1 != raw
    ensures FormatValue(Translated(translate, Some(JStr(raw)))) == Some(raw)
    ensures Canonical(translate, raw) == raw
  {
    NoneMatchKeepsText(translate, raw);
  }

  lemma {:induction false} NoneMatchKeepsText(translate: seq<(string, string)>, text: string)
    requires forall i :: 0 <= i < |translate| ==> translate[i].1 != text
    ensures Canonical(translate, text) == text
  {
    if translate != [] {
      NoneMatchKeepsText(translate[..|translate| - 1], text);
    }
  }

  // ---------------------------------------------------------------------------
  // toggling
  // ---------------------------------------------------------------------------

  /** The value a toggle asks for: the second toggle value when the device is at the first, else the first. */
  function NextToggle(toggles: (string, string), canonical: string): (r: string)
    ensures r == toggles.0 || r == toggles.1
    ensures r == toggles.1 <==> canonical == toggles.0 || toggles.0 == toggles.1
  {
    if canonical == toggles.0 then toggles.1 else toggles.0
  }

  /** With two distinct toggle values, toggling moves between them and toggling twice returns. */
  lemma ToggleAlternates(toggles: (string, string), canonical: string)
    requires toggles.0 != toggles.1
    requires canonical == toggles.0 || canonical == toggles.1
    ensures NextToggle(toggles, canonical) != canonical
    ensures NextToggle(toggles, NextToggle(toggles, canonical)) == canonical
  {
  }

  // ---------------------------------------------------------------------------
  // commands
  // ---------------------------------------------------------------------------

  /** A daemon control command asking that `device` have `valueKey` set to `value`. */
  function ControlCommand(device: string, valueKey: string, value: string): string
  {
    "{ \"action\": \"control\", \"code\": { \"device\": \"" + device + "\", \"" + valueKey + "\": \"" + value + "\"}}\n"
  }

  /** The daemon command asking for a fresh snapshot of all values. */
  const RequestValues: string := "{\"action\": \"request values\" }\r\n"

  /** The display command that clears the screen. */
  const Clear: string := "CLEAR\n"

  /** The pin prompt on the last display row, at the given level. */
  function PromptLine(level: int): string
  {
    "MESSAGE " + IntToDecimal(level) + " 0 " + IntToDecimal(LcdHeight - 1) + " PINCODE ->\n"
  }

  /** "<friendly name>: <value>" on the given row, before padding. */
  function ValueLine(level: int, row: int, friendlyName: string, value: string): string
  {
    "MESSAGE " + IntToDecimal(level) + " 0 " + IntToDecimal(row) + " " + friendlyName + ": " + value
  }

  /** The alert for a triggered alarm, on row 0, before padding. */
  function AlertLine(friendlyName: string): string
  {
    "MESSAGE " + IntToDecimal(AlarmLevel) + " 0 0 " + friendlyName + " !!!"
  }

  /** The toggle-menu entry: the device's key in the last column of its row. */
  function MenuLine(d: Device): string
    requires d.key.Some?
  {
    "MESSAGE 0 " + IntToDecimal(LcdWidth - 1) + " " + IntToDecimal(Int32(d.line)) + " " + d.key.value + "\n"
  }

  /** Erases a toggle-menu entry: blanks in the last column of the device's row. */
  function EraseLine(d: Device): string
  {
    "MESSAGE 0 " + IntToDecimal(LcdWidth - 1) + " " + IntToDecimal(Int32(d.line)) + "  \n"
  }

  /** The erase line addresses the same display cell as the menu line and writes a blank there. */
  lemma EraseBlanksMenuCell(d: Device)
    requires d.key.Some?
    ensures var n := |EraseLine(d)|;
      && n >= 2 && |MenuLine(d)| >= n - 2
      && MenuLine(d)[..n - 2] == EraseLine(d)[..n - 2]
      && EraseLine(d)[n - 2..] == " \n"
  {
    var cell := "MESSAGE 0 " + IntToDecimal(LcdWidth - 1) + " " + IntToDecimal(Int32(d.line)) + " ";
    assert EraseLine(d) == cell + " \n";
    assert MenuLine(d) == cell + d.key.value + "\n";
  }
}

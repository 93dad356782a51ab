/**
 The lines of the battery list the dashboard draws: one entry per record, each a
 fixed sequence of lines in a fixed order. The terminal layout, the widgets and the
 two-decimal formatting of numbers are not part of this model: a numeric line
 keeps its caption, its value and its unit.
 */
module Display {
  import opened Telemetry

  /** A line of an entry: literal text, or a caption, a number shown with two
      decimals, and a unit. */
  datatype Line = Text(text: string) | Figure(caption: string, value: real, unit: string)

  const UnknownLabel: string := "未知"
  const PercentageCaption: string := "电量: "

  predicate Recognised(state: State) {
    state.Charging? || state.Discharging? || state.Empty? || state.Full?
  }

  /** The localized label of a charge state; an unknown or unrecognised state reads
      "未知" (unknown). */
  function StateLabel(state: State): (text: string)
    ensures text == UnknownLabel <==> !Recognised(state)
    ensures text in {"充电", "放电", "空", "满", UnknownLabel}
    ensures state.Charging? ==> text == "充电"
    ensures state.Discharging? ==> text == "放电"
    ensures state.Empty? ==> text == "空"
    ensures state.Full? ==> text == "满"
  {
    match state
    case Charging => "充电"
    case Discharging => "放电"
    case Unknown => UnknownLabel
    case Empty => "空"
    case Full => "满"
    case _ => UnknownLabel
  }

  /** Two recognised states that differ are told apart by their labels. */
  lemma StateLabelsDistinct(a: State, b: State)
    requires Recognised(a) && Recognised(b) && a != b
    ensures StateLabel(a) != StateLabel(b)
  {
  }

  /** The entry of one record: name, state, the percentage only when one is reported
      (a positive value), then voltage, current, power and a blank line. */
  function EntryLines(battery: BatteryInfo): (lines: seq<Line>)
    ensures |lines| == if battery.percentage > 0.0 then 7 else 6
    ensures lines[0] == Text("电池: " + battery.name)
    ensures lines[1] == Text("状态: " + StateLabel(battery.state))
    ensures battery.percentage > 0.0 ==> lines[2] == Figure(PercentageCaption, battery.percentage, "%")
    ensures lines[|lines| - 4..] ==
      [Figure("电压: ", battery.voltage, "V"), Figure("电流: ", battery.current, "A"),
       Figure("功率: ", battery.power, "W"), Text("")]
    ensures (exists k :: 0 <= k < |lines| && lines[k].Figure? && lines[k].caption == PercentageCaption)
       <==> battery.percentage > 0.0
  {
    var head := [Text("电池: " + battery.name), Text("状态: " + StateLabel(battery.state))];
    var withPercentage := if battery.percentage > 0.0
      then head + [Figure(PercentageCaption, battery.percentage, "%")]
      else head;
    var lines := withPercentage + [
      Figure("电压: ", battery.voltage, "V"),
      Figure("电流: ", battery.current, "A"),
      Figure("功率: ", battery.power, "W"),
      Text("")];
    assert battery.percentage > 0.0 ==> lines[2].Figure? && lines[2].caption == PercentageCaption;
    lines
  }

  /** The list items: one entry per record, in the snapshot's order. */
  function BatteryList(batteries: seq<BatteryInfo>): (items: seq<seq<Line>>)
    ensures |items| == |batteries|
    ensures forall i :: 0 <= i < |batteries| ==> items[i] == EntryLines(batteries[i])
  {
    seq(|batteries|, i requires 0 <= i < |batteries| => EntryLines(batteries[i]))
  }

  /** The worked example: the record of a discharging battery at 12 V, 2 A, 24 W and
      55 % is drawn as seven lines. */
  lemma EntryExample()
    ensures EntryLines(BatteryInfo(BatteryName, 12.0, 2.0, 24.0, Discharging, 55.0)) ==
      [Text("电池: Battery"), Text("状态: 放电"), Figure("电量: ", 55.0, "%"),
       Figure("电压: ", 12.0, "V"), Figure("电流: ", 2.0, "A"), Figure("功率: ", 24.0, "W"), Text("")]
  {
    assert "电池: " + BatteryName == "电池: Battery";
    assert "状态: " + StateLabel(Discharging) == "状态: 放电";
  }
}

/**
 The telemetry reader of the power monitor (`PowerSupplyMonitor`): it asks the
 operating system's battery facility for its batteries and turns every battery
 that could be read into a display record, skipping the ones that could not.
 */
module Telemetry {

  /** A value or the error that replaced it, as Rust's `Result`. */
  datatype Result<T, E> = Ok(value: T) | Err(error: E)

  /** An error reported by the battery facility; its detail is not modelled. */
  datatype Error = Error(message: string)

  /** The charge state the battery facility reports. The facility's enumeration is
      open to new variants, so `Unrecognised` stands for any variant beyond the five
      it names today. */
  datatype State = Unknown | Charging | Discharging | Empty | Full | Unrecognised(tag: nat)

  /** One battery that could be read: voltage in volts, energy rate in watts,
      state of charge in percent, and its charge state. */
  datatype Battery = Battery(voltage: real, energyRate: real, stateOfCharge: real, state: State)

  /** A battery manager: what the facility answers when asked to enumerate its
      batteries. The enumeration can fail as a whole, and every battery in it can
      fail to be read on its own. */
  datatype Manager = Manager(cells: Result<seq<Result<Battery, Error>>, Error>)

  /** The record the dashboard shows for one battery. */
  datatype BatteryInfo = BatteryInfo(
    name: string,       // a generic label: the facility gives no stable identifier
    voltage: real,      // volts
    current: real,      // amperes, derived from the energy rate and the voltage
    power: real,        // watts, the energy rate as reported
    state: State,
    percentage: real)   // state of charge in percent

  /** The label every record carries. */
  const BatteryName: string := "Battery"

  /** Turns one battery into its record. Both quantities are read again in milli-units
      and divided; a zero voltage gives a current of zero instead of a division by zero. */
  function Convert(battery: Battery): (info: BatteryInfo)
    ensures info.name == BatteryName && info.state == battery.state
    ensures info.voltage == battery.voltage && info.percentage == battery.stateOfCharge
    ensures info.power == battery.energyRate
    ensures battery.voltage != 0.0 ==> info.current * info.voltage == info.power
    ensures battery.voltage == 0.0 ==> info.current == 0.0
  {
    var energyRateMilliwatts := battery.energyRate * 1000.0;
    var voltageMillivolts := battery.voltage * 1000.0;
    var current := if voltageMillivolts != 0.0 then energyRateMilliwatts / voltageMillivolts else 0.0;
    BatteryInfo(BatteryName, battery.voltage, current, battery.energyRate, battery.state, battery.stateOfCharge)
  }

  /** The best-effort filter: every readable battery becomes one record, in order,
      and every battery that failed to be read is skipped. */
  function ConvertReadable(cells: seq<Result<Battery, Error>>): (infos: seq<BatteryInfo>)
    ensures |infos| <= |cells|
  {
    if cells == [] then []
    else
      var first := if cells[0].Ok? then [Convert(cells[0].value)] else [];
      first + ConvertReadable(cells[1..])
  }

  /** The positions, from `from` on and in increasing order, of the batteries that
      could be read: an independent account of which cells the filter keeps. */
  function ReadableFrom(cells: seq<Result<Battery, Error>>, from: nat): seq<nat>
    decreases |cells| - from
  {
    if from >= |cells| then []
    else (if cells[from].Ok? then [from] else []) + ReadableFrom(cells, from + 1)
  }

  function ReadablePositions(cells: seq<Result<Battery, Error>>): seq<nat> {
    ReadableFrom(cells, 0)
  }

  /** What one call of `get_batteries` returns: the error of the manager's creation,
      else the error of the enumeration, else the records of the readable batteries. */
  function Query(manager: Result<Manager, Error>): (r: Result<seq<BatteryInfo>, Error>)
    ensures r.Err? <==> manager.Err? || manager.value.cells.Err?
    ensures manager.Err? ==> r == Err(manager.error)
    ensures manager.Ok? && manager.value.cells.Err? ==> r == Err(manager.value.cells.error)
    ensures manager.Ok? && manager.value.cells.Ok? ==> r == Ok(ConvertReadable(manager.value.cells.value))
  {
    match manager
    case Err(e) => Err(e)
    case Ok(m) =>
      match m.cells
      case Err(e) => Err(e)
      case Ok(cells) => Ok(ConvertReadable(cells))
  }

  /** `get_batteries`: creates the manager, enumerates its batteries and pushes the
      record of every readable one. */
  method GetBatteries(manager: Result<Manager, Error>) returns (r: Result<seq<BatteryInfo>, Error>)
    ensures r == Query(manager)
  {
    if manager.Err? {
      return Err(manager.error);
    }
    if manager.value.cells.Err? {
      return Err(manager.value.cells.error);
    }
    var cells := manager.value.cells.value;
    var batteries: seq<BatteryInfo> := [];
    var i := 0;
    while i < |cells|
      invariant 0 <= i <= |cells|
      invariant batteries == ConvertReadable(cells[..i])
    {
      ConvertReadableAppend(cells[..i], [cells[i]]);
      assert cells[..i + 1] == cells[..i] + [cells[i]];
      if cells[i].Ok? {
        batteries := batteries + [Convert(cells[i].value)];
      }
      i := i + 1;
    }
    assert cells[..i] == cells;
    return Ok(batteries);
  }

  /** The filter distributes over concatenation. */
  lemma {:induction false} ConvertReadableAppend(a: seq<Result<Battery, Error>>, b: seq<Result<Battery, Error>>)
    ensures ConvertReadable(a + b) == ConvertReadable(a) + ConvertReadable(b)
  {
    if a == [] {
      assert a + b == b;
    } else {
      assert (a + b)[0] == a[0];
      assert (a + b)[1..] == a[1..] + b;
      ConvertReadableAppend(a[1..], b);
    }
  }

  /** The positions found from `from` on are exactly the readable cells there, in
      strictly increasing order. */
  lemma {:induction false} ReadableFromExact(cells: seq<Result<Battery, Error>>, from: nat)
    ensures forall k :: 0 <= k < |ReadableFrom(cells, from)| ==> from <= ReadableFrom(cells, from)[k] < |cells|
    ensures forall k, l :: 0 <= k < l < |ReadableFrom(cells, from)| ==> ReadableFrom(cells, from)[k] < ReadableFrom(cells, from)[l]
    ensures forall j :: from <= j < |cells| ==> (cells[j].Ok? <==> j in ReadableFrom(cells, from))
    ensures forall j :: j in ReadableFrom(cells, from) ==> from <= j < |cells| && cells[j].Ok?
    decreases |cells| - from
  {
    if from < |cells| {
      ReadableFromExact(cells, from + 1);
    }
  }

  /** The filter's output lines up with the readable positions: the k-th record is
      the conversion of the k-th readable battery. */
  lemma {:induction false} ConvertReadableFrom(cells: seq<Result<Battery, Error>>, from: nat)
    requires from <= |cells|
    ensures |ConvertReadable(cells[from..])| == |ReadableFrom(cells, from)|
    ensures forall k :: 0 <= k < |ReadableFrom(cells, from)| ==>
      ReadableFrom(cells, from)[k] < |cells| && cells[ReadableFrom(cells, from)[k]].Ok? &&
      ConvertReadable(cells[from..])[k] == Convert(cells[ReadableFrom(cells, from)[k]].value)
    decreases |cells| - from
  {
    ReadableFromExact(cells, from);
    if from < |cells| {
      ConvertReadableFrom(cells, from + 1);
      assert cells[from..][1..] == cells[from + 1..];
    }
  }

  /** `get_batteries` on a successful enumeration returns one record for each readable
      battery and none for the others, in the cells' order: the k-th record is the
      conversion of the k-th readable battery, and the readable batteries are exactly
      the cells that are `Ok`. */
  lemma ReadableBatteriesInOrder(cells: seq<Result<Battery, Error>>)
    ensures |ConvertReadable(cells)| == |ReadablePositions(cells)|
    ensures forall k, l :: 0 <= k < l < |ReadablePositions(cells)| ==> ReadablePositions(cells)[k] < ReadablePositions(cells)[l]
    ensures forall j :: 0 <= j < |cells| ==> (cells[j].Ok? <==> j in ReadablePositions(cells))
    ensures forall k :: 0 <= k < |ReadablePositions(cells)| ==>
      ReadablePositions(cells)[k] < |cells| &&
      ConvertReadable(cells)[k] == Convert(cells[ReadablePositions(cells)[k]].value)
  {
    ReadableFromExact(cells, 0);
    ConvertReadableFrom(cells, 0);
    assert cells[0..] == cells;
  }

  /** When every battery can be read, the filter is a plain map. */
  lemma {:induction false} AllReadableConverted(cells: seq<Result<Battery, Error>>)
    requires forall j :: 0 <= j < |cells| ==> cells[j].Ok?
    ensures |ConvertReadable(cells)| == |cells|
    ensures forall j :: 0 <= j < |cells| ==> ConvertReadable(cells)[j] == Convert(cells[j].value)
  {
    if cells != [] {
      AllReadableConverted(cells[1..]);
    }
  }

  /** When no battery can be read, the snapshot is empty (but still a success). */
  lemma {:induction false} NoneReadableEmpty(cells: seq<Result<Battery, Error>>)
    requires forall j :: 0 <= j < |cells| ==> cells[j].Err?
    ensures ConvertReadable(cells) == []
  {
    if cells != [] {
      NoneReadableEmpty(cells[1..]);
    }
  }

  /** The worked example: a battery at 12 V drawing 24 W, half charged and
      discharging, is shown with a current of 2 A. */
  lemma ConvertExample()
    ensures Convert(Battery(12.0, 24.0, 55.0, Discharging)) == BatteryInfo(BatteryName, 12.0, 2.0, 24.0, Discharging, 55.0)
  {
  }
}

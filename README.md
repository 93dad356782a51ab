# Power Seek battery dashboard — a Dafny model

Power Seek is a terminal dashboard. It polls the machine's battery subsystem and shows, for each battery, its voltage, current, power, charge percentage and charge state, refreshed on a user-adjustable interval. This project models its logic in Dafny, all of it from `src/main.rs`, and proves properties of that model. There are three parts:

- `telemetry.dfy`, module `Telemetry`. This is `PowerSupplyMonitor`.
  - `Convert` turns one battery into a `BatteryInfo` record. The current is the energy rate in milliwatts divided by the voltage in millivolts, or zero when the voltage is zero.
  - `GetBatteries` is the best-effort loop of `get_batteries`, proved equal to the pure `Query`. Creating the manager or enumerating its batteries can fail, and either failure is the call's error. A battery that cannot be read is skipped. Every other battery gives exactly one record, in order.
- `app.dfy`, module `Application`. This is `App`.
  - The class `App` holds the four fields the source updates in place: the snapshot, the exit flag, the last refresh time and the refresh interval in seconds.
  - Each method is proved to follow a pure transition on the value `AppState`: `Initial`, `Refreshed` or `KeyStep`.
  - `Run` folds any sequence of refreshes and key presses. The lemmas about it show three things: the interval stays within [1, 10], the exit flag is never cleared, and repeated `+`/`-` presses clamp exactly.
- `display.dfy`, module `Display`. This is the per-record list entry built inside `draw_battery_info`.
  - The state-to-label table.
  - The entry's 6 or 7 lines, in their order.

Inputs the program gets from outside become parameters:
- The battery facility's answer is a `Result<Manager, Error>` value. `Manager::new()` can fail. Otherwise the manager holds the enumeration, which can fail as a whole, and each of its per-battery reads can fail on its own.
- `Instant::now()` is a `now: nat` parameter: a reading of a monotonic clock in nanoseconds.
- A key event is its `KeyCode`. The source reads only `key.code`.

Three behaviours of the code worth noting:
- `refresh_data` stamps `last_refresh` after every refresh, including a failed one, not only after a successful one.
- The record stores the battery facility's state unchanged. Unrecognised states fold to "unknown" only when the label is drawn.
- `App::new` reads the clock before its initial query. `refresh_data` reads it after. Both readings are parameters here.

## Model

| member | source | states |
|---|---|---|
| Telemetry.Convert | src/main.rs:43-68 | the record keeps the name "Battery", the state, the voltage and the state of charge; power is the energy rate; for a non-zero voltage current × voltage = power; for a zero voltage the current is 0 |
| Telemetry.ConvertReadable | src/main.rs:33-38 | the filter never yields more records than there are cells |
| Telemetry.Query | src/main.rs:27-41 | the call fails exactly when the manager cannot be created or the enumeration fails, and then with that error; otherwise it succeeds with the records of the readable cells |
| Telemetry.GetBatteries | src/main.rs:27-41 | the push loop returns exactly what `Query` describes: the error, or the records of the readable cells |
| Telemetry.ConvertReadableAppend | src/main.rs:33-38 | filtering a concatenation gives the concatenation of the filtered parts |
| Telemetry.ReadableFromExact | src/main.rs:33-37 | the readable positions are strictly increasing, lie inside the sequence, and are exactly the cells that are `Ok` |
| Telemetry.ConvertReadableFrom | src/main.rs:33-38 | from any starting cell on, the k-th record is the conversion of the k-th readable cell |
| Telemetry.ReadableBatteriesInOrder | src/main.rs:30-40 | the result has one record per `Ok` cell and none for an `Err` cell, in the cells' order |
| Telemetry.AllReadableConverted | src/main.rs:33-38 | when every cell is readable, the result is the conversion of every cell, position by position |
| Telemetry.NoneReadableEmpty | src/main.rs:33-40 | when no cell is readable, the successful result is empty |
| Telemetry.ConvertExample | src/main.rs:43-67 | a battery at 12 V and 24 W gives current 2 A and power 24 W |
| Application.Lengthened | src/main.rs:122-126 | `+` adds one second below 10 and stays at 10 otherwise; the result never exceeds 10 and keeps [1, 10] |
| Application.Shortened | src/main.rs:127-131 | `-` removes one second above 1 and gives 1 otherwise (also from 0, via the saturating subtraction); the result is never below 1 and keeps [1, 10] |
| Application.Initial | src/main.rs:84-99 | a new application has no exit request, an interval of 2 s, its refresh time at construction, and the initial query's records, or none if the query failed |
| Application.Refreshed | src/main.rs:101-108 | a successful query replaces the snapshot wholesale; a failed one keeps the stale snapshot; `last_refresh` becomes now either way; nothing else changes |
| Application.KeyStep | src/main.rs:114-134 | q/Esc sets the exit flag only; r/Enter refreshes; `+`/`-` change only the interval; every other key changes nothing; the exit flag afterwards is set exactly when it was set before or the key is a quit key; [1, 10] is kept |
| Application.Step | src/main.rs:219-238 | one stimulus of the main loop, a refresh or a key press; it sets the exit flag only on q/Esc, keeps the interval in [1, 10] and stamps the refresh time on a refresh. A refresh here happens whether or not `should_refresh` holds (line 221 checks it), so `Run` over-approximates the loop's behaviour, which is sound for the lemmas over all runs |
| Application.RunKeepsIntervalInRange | src/main.rs:122-131 | no sequence of refreshes and key presses takes an interval in [1, 10] out of it |
| Application.InitialIntervalInRange | src/main.rs:86-91 | from the initial state, every sequence of refreshes and key presses keeps the interval in [1, 10] |
| Application.RunExitFlag | src/main.rs:116-118 | after any sequence of stimuli the exit flag is set exactly when it was set before or some key in the sequence was q/Esc, so nothing clears it |
| Application.LengthenedRepeatedly | src/main.rs:122-126 | k presses of `+` from a valid interval give min(interval + k, 10) and change nothing else |
| Application.ShortenedRepeatedly | src/main.rs:127-131 | k presses of `-` from a valid interval give max(interval − k, 1) and change nothing else (five presses from 2 s give 1 s) |
| Application.RefreshIdempotent | src/main.rs:101-108 | refreshing again with the same query answer leaves the snapshot unchanged |
| Application.App.constructor | src/main.rs:84-99 | the fields after `App::new` are `Initial` of the facility's answer, and the interval is within [1, 10] |
| Application.App.RefreshData | src/main.rs:101-108 | the fields after `refresh_data` are `Refreshed` of the old fields; the interval stays within [1, 10] |
| Application.App.ShouldRefresh | src/main.rs:110-112 | a refresh is due exactly when the clock has reached the last refresh time plus the interval |
| Application.App.HandleKeyEvent | src/main.rs:114-134 | the fields after `handle_key_event` are `KeyStep` of the old fields; the interval stays within [1, 10] |
| Display.StateLabel | src/main.rs:159-166 | Charging reads 充电, Discharging 放电, Empty 空 and Full 满; the label is 未知 exactly when the state is none of these four (Unknown or an unrecognised variant) |
| Display.StateLabelsDistinct | src/main.rs:159-166 | two different recognised states get different labels |
| Display.EntryLines | src/main.rs:168-185 | an entry has 7 lines when the percentage is positive and 6 otherwise; it starts with the name and state lines; the percentage line is third and present exactly when the percentage is positive; it ends with the voltage, current, power and blank lines |
| Display.BatteryList | src/main.rs:156-186 | one entry per record, in the snapshot's order |
| Display.EntryExample | src/main.rs:168-185 | a discharging 12 V / 2 A / 24 W battery at 55 % is drawn as the seven lines 电池, 状态: 放电, 电量, 电压, 电流, 功率, blank |

## Left out

- The terminal setup and teardown and the main event loop (`main`, src/main.rs:206-247): raw mode, the alternate screen, the 100 ms poll and the async runtime are I/O. The loop's use of `should_refresh` and `refresh_data` is covered only as the stimuli that `Run` folds.
- The layout, the title, the list block, the highlight style and the footer that shows the interval (src/main.rs:138-153, src/main.rs:188-203): these are widgets of a terminal UI library that is not part of this model.
- Formatting numbers with two decimals: a numeric line keeps its caption, value and unit, and the text of the number is not modelled.
- The battery library's getters and unit conversions (src/main.rs:46-58) are foreign calls. A battery is its voltage in volts, its energy rate in watts and its state of charge in percent, as exact reals. The milli-unit readings are exact multiples of those.
- Telemetry.Convert: states the current over exact reals, so it does not model `f32`/`f64` rounding or the float comparison `voltage_mv != 0.0`.
- `calculate_power` (src/main.rs:70-73): nothing in the program calls it. It also divides by 1e12 as if its inputs were micro-units.
- Application.Lengthened: the seconds are unbounded, so the `u64` overflow of `as_secs() + 1` is not modelled. It cannot happen, because the interval never exceeds 10.
- The modifiers, kind and state of a key event are not modelled: the source ignores them.
- `PowerSupplyMonitor::new` is a unit value with no state and no model of its own.
- src/main.c is a separate program that reads two sysfs files and prints their product scaled by 1e-12, labelled in watts. It holds no logic to verify.

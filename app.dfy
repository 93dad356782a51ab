/**
 The dashboard's application state (`App`): the current battery snapshot, the exit
 flag, the time of the last refresh and the refresh interval in whole seconds,
 changed by refreshes and by key presses.

 The pure part of the module describes one state of the application as a value and
 what each stimulus does to it; the class `App` updates its fields in place and is
 proved to follow that description.
 */
module Application {
  import opened Telemetry

  /** Clock readings count nanoseconds of a monotonic clock. */
  const NanosPerSecond: nat := 1_000_000_000

  /** The interval a new application starts with, and its bounds (seconds). */
  const InitialInterval: nat := 2
  const MinInterval: nat := 1
  const MaxInterval: nat := 10

  /** The key codes of the terminal's input layer. `Named` stands for every key that
      is neither a character, Enter nor Escape (arrows, function keys, ...). */
  datatype KeyCode = Char(c: char) | Enter | Esc | Named(id: nat)

  /** One state of the application, as a value. */
  datatype AppState = AppState(
    batteries: seq<BatteryInfo>,
    shouldExit: bool,
    lastRefresh: nat,      // clock reading, nanoseconds
    refreshInterval: nat)  // seconds

  predicate InRange(secs: nat) {
    MinInterval <= secs <= MaxInterval
  }

  /** The keys the dashboard reacts to. */
  predicate IsQuitKey(key: KeyCode) { key == Char('q') || key == Esc }
  predicate IsRefreshKey(key: KeyCode) { key == Char('r') || key == Enter }

  predicate IsBound(key: KeyCode) {
    IsQuitKey(key) || IsRefreshKey(key) || key == Char('+') || key == Char('-')
  }

  /** `+`: one second more, capped at the maximum. */
  function Lengthened(secs: nat): (r: nat)
    ensures r <= MaxInterval
    ensures secs < MaxInterval ==> r == secs + 1
    ensures secs >= MaxInterval ==> r == MaxInterval
    ensures InRange(secs) ==> InRange(r)
  {
    var next := secs + 1;
    if next < MaxInterval then next else MaxInterval
  }

  /** Subtraction of unsigned integers that stops at zero instead of wrapping around. */
  function SaturatingSub(a: nat, b: nat): nat {
    if a >= b then a - b else 0
  }

  /** `-`: one second less (stopping at zero first), but never below the minimum. */
  function Shortened(secs: nat): (r: nat)
    ensures MinInterval <= r
    ensures secs > MinInterval ==> r == secs - 1
    ensures secs <= MinInterval ==> r == MinInterval
    ensures InRange(secs) ==> InRange(r)
  {
    var next := SaturatingSub(secs, 1);
    if next > MinInterval then next else MinInterval
  }

  /** The state right after construction: the initial synchronous query fills the
      snapshot if it succeeds and leaves it empty otherwise. */
  function Initial(query: Result<seq<BatteryInfo>, Error>, now: nat): (s: AppState)
    ensures !s.shouldExit && s.lastRefresh == now && s.refreshInterval == InitialInterval
    ensures s.batteries == if query.Ok? then query.value else []
  {
    AppState(if query.Ok? then query.value else [], false, now, InitialInterval)
  }

  /** `refresh_data`: a successful query replaces the snapshot wholesale, a failed one
      keeps the stale snapshot; the refresh time is stamped either way. */
  function Refreshed(s: AppState, query: Result<seq<BatteryInfo>, Error>, now: nat): (t: AppState)
    ensures query.Ok? ==> t.batteries == query.value
    ensures query.Err? ==> t.batteries == s.batteries
    ensures t.lastRefresh == now
    ensures t.shouldExit == s.shouldExit && t.refreshInterval == s.refreshInterval
  {
    match query
    case Ok(snapshot) => s.(batteries := snapshot, lastRefresh := now)
    case Err(_) => s.(lastRefresh := now)
  }

  /** `handle_key_event`. `query` and `now` are what a refresh would see; only the
      refresh keys consult them. */
  function KeyStep(s: AppState, key: KeyCode, query: Result<seq<BatteryInfo>, Error>, now: nat): (t: AppState)
    ensures t.shouldExit <==> s.shouldExit || IsQuitKey(key)
    ensures !IsBound(key) ==> t == s
    ensures IsQuitKey(key) ==> t == s.(shouldExit := true)
    ensures IsRefreshKey(key) ==> t == Refreshed(s, query, now)
    ensures key == Char('+') ==> t == s.(refreshInterval := Lengthened(s.refreshInterval))
    ensures key == Char('-') ==> t == s.(refreshInterval := Shortened(s.refreshInterval))
    ensures t.refreshInterval != s.refreshInterval ==> key == Char('+') || key == Char('-')
    ensures InRange(s.refreshInterval) ==> InRange(t.refreshInterval)
  {
    match key
    case Char('q') | Esc => s.(shouldExit := true)
    case Char('r') | Enter => Refreshed(s, query, now)
    case Char('+') => s.(refreshInterval := Lengthened(s.refreshInterval))
    case Char('-') => s.(refreshInterval := Shortened(s.refreshInterval))
    case _ => s
  }

  /** Whatever can happen to an application between two frames: an automatic refresh
      or a key press, each with the facility's answer and the clock reading it would
      see. A `Tick` refreshes whether or not the interval has elapsed, so a run of
      stimuli covers every order in which the main loop can call the application. */
  datatype Stimulus =
    | Tick(manager: Result<Manager, Error>, now: nat)
    | Press(key: KeyCode, manager: Result<Manager, Error>, now: nat)

  function Step(s: AppState, stimulus: Stimulus): (t: AppState)
    ensures t.shouldExit <==> s.shouldExit || (stimulus.Press? && IsQuitKey(stimulus.key))
    ensures InRange(s.refreshInterval) ==> InRange(t.refreshInterval)
    ensures stimulus.Tick? ==> t.lastRefresh == stimulus.now
  {
    match stimulus
    case Tick(manager, now) => Refreshed(s, Query(manager), now)
    case Press(key, manager, now) => KeyStep(s, key, Query(manager), now)
  }

  /** The state after a whole sequence of stimuli, in order. */
  function Run(s: AppState, stimuli: seq<Stimulus>): AppState
    decreases |stimuli|
  {
    if stimuli == [] then s else Run(Step(s, stimuli[0]), stimuli[1..])
  }

  /** Starting from any interval within bounds, and so from the initial 2 s, no
      sequence of refreshes and key presses takes the interval out of [1, 10]. */
  lemma {:induction false} RunKeepsIntervalInRange(s: AppState, stimuli: seq<Stimulus>)
    requires InRange(s.refreshInterval)
    ensures InRange(Run(s, stimuli).refreshInterval)
    decreases |stimuli|
  {
    if stimuli != [] {
      RunKeepsIntervalInRange(Step(s, stimuli[0]), stimuli[1..]);
    }
  }

  lemma InitialIntervalInRange(query: Result<seq<BatteryInfo>, Error>, now: nat, stimuli: seq<Stimulus>)
    ensures InRange(Run(Initial(query, now), stimuli).refreshInterval)
  {
    RunKeepsIntervalInRange(Initial(query, now), stimuli);
  }

  /** Once set, the exit flag stays set; and it is set after a run exactly when it was
      set before or some key pressed in the run was a quit key. */
  lemma {:induction false} RunExitFlag(s: AppState, stimuli: seq<Stimulus>)
    ensures Run(s, stimuli).shouldExit <==>
      s.shouldExit || exists i :: 0 <= i < |stimuli| && stimuli[i].Press? && IsQuitKey(stimuli[i].key)
    decreases |stimuli|
  {
    if stimuli != [] {
      RunExitFlag(Step(s, stimuli[0]), stimuli[1..]);
      var rest := stimuli[1..];
      assert forall i :: 0 <= i < |rest| ==> rest[i] == stimuli[i + 1];
      if exists i :: 0 <= i < |stimuli| && stimuli[i].Press? && IsQuitKey(stimuli[i].key) {
        var i :| 0 <= i < |stimuli| && stimuli[i].Press? && IsQuitKey(stimuli[i].key);
        if i > 0 {
          assert rest[i - 1] == stimuli[i];
        }
      }
    }
  }

  /** Pressing `+` k times from a valid interval gives min(interval + k, 10) and
      changes nothing else. */
  lemma {:induction false} LengthenedRepeatedly(s: AppState, presses: seq<Stimulus>)
    requires InRange(s.refreshInterval)
    requires forall i :: 0 <= i < |presses| ==> presses[i].Press? && presses[i].key == Char('+')
    ensures Run(s, presses) == s.(refreshInterval :=
      if s.refreshInterval + |presses| < MaxInterval then s.refreshInterval + |presses| else MaxInterval)
    decreases |presses|
  {
    if presses != [] {
      LengthenedRepeatedly(Step(s, presses[0]), presses[1..]);
    }
  }

  /** Pressing `-` k times from a valid interval gives max(interval - k, 1) and
      changes nothing else: from the initial 2 s, five presses give 1 s, never 0. */
  lemma {:induction false} ShortenedRepeatedly(s: AppState, presses: seq<Stimulus>)
    requires InRange(s.refreshInterval)
    requires forall i :: 0 <= i < |presses| ==> presses[i].Press? && presses[i].key == Char('-')
    ensures Run(s, presses) == s.(refreshInterval :=
      if s.refreshInterval - |presses| > MinInterval then s.refreshInterval - |presses| else MinInterval)
    decreases |presses|
  {
    if presses != [] {
      ShortenedRepeatedly(Step(s, presses[0]), presses[1..]);
    }
  }

  /** A refresh whose query answers the same as the previous one leaves the snapshot
      as that previous refresh left it. */
  lemma RefreshIdempotent(s: AppState, query: Result<seq<BatteryInfo>, Error>, now: nat, later: nat)
    ensures Refreshed(Refreshed(s, query, now), query, later).batteries == Refreshed(s, query, now).batteries
  {
  }

  /** The application itself, with the fields the source updates in place. */
  class App {
    var batteries: seq<BatteryInfo>
    var shouldExit: bool
    var lastRefresh: nat
    var refreshInterval: nat

    /** The fields as one value. */
    function State(): AppState
      reads this
    {
      AppState(batteries, shouldExit, lastRefresh, refreshInterval)
    }

    ghost predicate Valid()
      reads this
    {
      InRange(refreshInterval)
    }

    /** `App::new`: `now` is the clock reading at construction and `manager` the
        facility's answer to the initial query. */
    constructor (manager: Result<Manager, Error>, now: nat)
      ensures Valid()
      ensures State() == Initial(Query(manager), now)
    {
      var query := GetBatteries(manager);
      batteries := [];
      shouldExit := false;
      lastRefresh := now;
      refreshInterval := InitialInterval;
      new;
      if query.Ok? {
        batteries := query.value;
      }
    }

    /** `refresh_data`: `now` is the clock reading taken after the query. */
    method RefreshData(manager: Result<Manager, Error>, now: nat)
      requires Valid()
      modifies this
      ensures Valid()
      ensures State() == Refreshed(old(State()), Query(manager), now)
    {
      var query := GetBatteries(manager);
      if query.Ok? {
        batteries := query.value;
      }
      lastRefresh := now;
    }

    /** `should_refresh`: the time elapsed since the last refresh (zero if the clock
        reads earlier) has reached the interval. */
    function ShouldRefresh(now: nat): (due: bool)
      requires Valid()
      reads this
      ensures due <==> lastRefresh + refreshInterval * NanosPerSecond <= now
    {
      SaturatingSub(now, lastRefresh) >= refreshInterval * NanosPerSecond
    }

    /** `handle_key_event`. */
    method HandleKeyEvent(key: KeyCode, manager: Result<Manager, Error>, now: nat)
      requires Valid()
      modifies this
      ensures Valid()
      ensures State() == KeyStep(old(State()), key, Query(manager), now)
    {
      match key
      case Char('q') | Esc =>
        shouldExit := true;
      case Char('r') | Enter =>
        RefreshData(manager, now);
      case Char('+') =>
        refreshInterval := Lengthened(refreshInterval);
      case Char('-') =>
        refreshInterval := Shortened(refreshInterval);
      case _ =>
    }
  }
}

/**
The backup scheduler (agent/internal/deploy/backups.go): which window of time
each tick looks at, and that the windows of an application tile time.
*/
module BackupSchedule {
  import opened Options
  import opened Cron
  import opened Calendar

  // An application as one tick finds it, and what the tick's reads, its lock
  // and its backup come to.
  datatype App = App(
    name: string,
    deployed: bool,              // it has an active deployment
    running: bool,               // and is meant to run
    schedule: Option<Schedule>,  // of the deployment read before locking, if it was read and has one
    lockable: bool,              // lockForSchedule obtains the lock
    relocked: Option<Schedule>,  // the schedule read again under the lock, of an application still running
    begins: bool)                // beginBackup succeeds

  // What a tick consumed: the window, the schedule that it read, and whether
  // it held the application's lock and started a backup.
  datatype Window = Window(app: string, from: Minute, to: Minute, read: Option<Schedule>, locked: bool, started: bool)

  // time.Time{}, which Next returns for a schedule that never fires.
  const ZERO_TIME := At(366, 0)

  lemma ZeroTimeIsTheFirstOfYearOne()
    ensures ZERO_TIME == At(DayNumber(1, 1, 1), 0)
  {
  }

  // The schedule fires in (last, minute].
  ghost predicate FiresIn(s: Schedule, last: Minute, minute: Minute) {
    exists m :: last < m <= minute && s.Matches(m)
  }

  // What scheduledBetween answers.
  ghost predicate Due(b: Option<Schedule>, last: Minute, minute: Minute) {
    b.Some? && if Fires(b.value) then FiresIn(b.value, last, minute) else ZERO_TIME <= minute
  }

  /**
   Whether a backup is due: for a schedule that fires at all, exactly when it
   fires in (last, minute]. For one that never does the answer is yes.
   */
  method ScheduledBetween(b: Option<Schedule>, last: Minute, minute: Minute) returns (due: bool)
    ensures due <==> Due(b, last, minute)
  {
    if b.None? {
      return false;
    }
    var next := Next(b.value, last * NANOS_PER_MINUTE);
    var at := if next.None? then ZERO_TIME else next.value;
    due := at <= minute;
    forall m: Minute ensures m > last <==> m * NANOS_PER_MINUTE > last * NANOS_PER_MINUTE {
      Scaled(last, m);
    }
  }

  function LastLook(lastTick: map<string, Minute>, name: string, minute: Minute): Minute {
    if name in lastTick then lastTick[name] else minute - 1
  }

  // The window a tick consumes for an application, if it does.
  ghost function Consumed(lastTick: map<string, Minute>, minute: Minute, app: App): Option<Window> {
    var last := LastLook(lastTick, app.name, minute);
    var due := Due(app.schedule, last, minute);
    if !app.deployed || !app.running || minute <= last || (due && !app.lockable) then None
    else Some(Window(app.name, last, minute, app.schedule, due, due && Due(app.relocked, last, minute) && app.begins))
  }

  ghost function LookedAt(lastTick: map<string, Minute>, minute: Minute, apps: seq<App>)
    : (map<string, Minute>, seq<Window>)
  {
    if apps == [] then (lastTick, [])
    else
      var (ticked, windows) := LookedAt(lastTick, minute, apps[..|apps| - 1]);
      match Consumed(ticked, minute, apps[|apps| - 1])
      case None => (ticked, windows)
      case Some(w) => (ticked[w.app := w.to], windows + [w])
  }

  ghost predicate Listed(apps: seq<App>, name: string) {
    exists k :: 0 <= k < |apps| && apps[k].name == name
  }

  // One tick: what lastTick becomes, and the windows consumed.
  ghost function Ticked(lastTick: map<string, Minute>, now: int, apps: seq<App>): (map<string, Minute>, seq<Window>) {
    var (ticked, windows) := LookedAt(lastTick, now / NANOS_PER_MINUTE, apps);
    (map name | name in ticked && Listed(apps, name) :: ticked[name], windows)
  }

  class Scheduler {
    var lastTick: map<string, Minute>

    constructor ()
      ensures lastTick == map[]
    {
      lastTick := map[];
    }

    method Look(minute: Minute, app: App) returns (window: Option<Window>)
      modifies this
      ensures window == Consumed(old(lastTick), minute, app)
      ensures lastTick == if window.Some? then old(lastTick)[app.name := minute] else old(lastTick)
    {
      window := None;
      if !app.deployed || !app.running {
        return;
      }
      var last := if app.name in lastTick then lastTick[app.name] else minute - 1;
      if minute <= last {
        return;
      }
      var due := ScheduledBetween(app.schedule, last, minute);
      var started := false;
      if due {
        if !app.lockable {
          return;
        }
        started := ScheduledBetween(app.relocked, last, minute);
        started := started && app.begins;
      }
      lastTick := lastTick[app.name := minute];
      window := Some(Window(app.name, last, minute, app.schedule, due, started));
    }

    // scheduleBackups, given the applications the store lists.
    method Tick(now: int, apps: seq<App>) returns (windows: seq<Window>)
      modifies this
      ensures (lastTick, windows) == Ticked(old(lastTick), now, apps)
    {
      var minute := now / NANOS_PER_MINUTE;
      var seen: set<string> := {};
      windows := [];
      for i := 0 to |apps|
        invariant (lastTick, windows) == LookedAt(old(lastTick), minute, apps[..i])
        invariant forall name :: name in seen <==> Listed(apps[..i], name)
      {
        assert apps[..i + 1][..i] == apps[..i];
        ListedMore(apps, i);
        seen := seen + {apps[i].name};
        var window := Look(minute, apps[i]);
        if window.Some? {
          windows := windows + [window.value];
        }
      }
      assert apps[..|apps|] == apps;
      ghost var ticked := lastTick;
      var left := lastTick.Keys;
      while left != {}
        invariant left <= lastTick.Keys <= ticked.Keys
        invariant forall name :: name in lastTick ==> lastTick[name] == ticked[name]
        invariant forall name :: name in ticked && name !in left ==> (name in lastTick <==> name in seen)
        decreases |left|
      {
        var name :| name in left;
        left := left - {name};
        if name !in seen {
          lastTick := lastTick - {name};
        }
      }
      assert lastTick == map name | name in ticked && Listed(apps, name) :: ticked[name];
    }
  }

  lemma ListedMore(apps: seq<App>, i: nat)
    requires i < |apps|
    ensures forall name :: Listed(apps[..i + 1], name) <==> Listed(apps[..i], name) || apps[i].name == name
  {
    var some, more := apps[..i], apps[..i + 1];
    forall name ensures Listed(more, name) <==> Listed(some, name) || apps[i].name == name {
      assert more[i] == apps[i] && forall k :: 0 <= k < i ==> more[k] == some[k];
    }
  }

  // The windows of one application, in the order they were consumed.
  ghost function Of(name: string, windows: seq<Window>): seq<Window> {
    if windows == [] then []
    else
      var last := windows[|windows| - 1];
      Of(name, windows[..|windows| - 1]) + if last.app == name then [last] else []
  }

  lemma {:induction false} OfConcat(name: string, a: seq<Window>, b: seq<Window>)
    ensures Of(name, a + b) == Of(name, a) + Of(name, b)
  {
    if b == [] {
      assert a + b == a;
    } else {
      OfConcat(name, a, b[..|b| - 1]);
      assert (a + b)[..|a + b| - 1] == a + b[..|b| - 1];
    }
  }

  // Windows that follow one another without gap or overlap, from one minute to another.
  ghost predicate Tiles(windows: seq<Window>, from: Minute, to: Minute) {
    if windows == [] then from == to
    else
      var last := windows[|windows| - 1];
      last.to == to && last.from < to && Tiles(windows[..|windows| - 1], from, last.from)
  }

  lemma {:induction false} TilesJoin(a: seq<Window>, b: seq<Window>, from: Minute, mid: Minute, to: Minute)
    requires Tiles(a, from, mid) && Tiles(b, mid, to)
    ensures Tiles(a + b, from, to)
  {
    if b == [] {
      assert a + b == a;
    } else {
      TilesJoin(a, b[..|b| - 1], from, mid, b[|b| - 1].from);
      assert (a + b)[..|a + b| - 1] == a + b[..|b| - 1];
    }
  }

  ghost predicate Holds(w: Window, m: Minute) {
    w.from < m <= w.to
  }

  /** Every minute that tiles cover is in exactly one of them. */
  lemma {:induction false} OneTile(windows: seq<Window>, from: Minute, to: Minute, m: Minute) returns (k: nat)
    requires Tiles(windows, from, to) && from < m <= to
    ensures k < |windows| && Holds(windows[k], m)
    ensures forall j :: 0 <= j < |windows| && Holds(windows[j], m) ==> j == k
  {
    var n := |windows| - 1;
    if m > windows[n].from {
      k := n;
      TilesUpTo(windows[..n], from, windows[n].from);
      assert forall j :: 0 <= j < n ==> windows[j] == windows[..n][j];
    } else {
      k := OneTile(windows[..n], from, windows[n].from, m);
      assert forall j :: 0 <= j < n ==> windows[j] == windows[..n][j];
    }
  }

  lemma {:induction false} TilesUpTo(windows: seq<Window>, from: Minute, to: Minute)
    requires Tiles(windows, from, to)
    ensures from <= to && forall j :: 0 <= j < |windows| ==> windows[j].to <= to
  {
    if windows != [] {
      var n := |windows| - 1;
      TilesUpTo(windows[..n], from, windows[n].from);
      assert forall j :: 0 <= j < n ==> windows[j] == windows[..n][j];
    }
  }

  // What happened to one application between two values of lastTick.
  ghost predicate Chain(a: map<string, Minute>, b: map<string, Minute>, name: string, windows: seq<Window>) {
    if windows == [] then (name in b <==> name in a) && (name in a ==> b[name] == a[name])
    else
      && name in b
      && Tiles(windows, if name in a then a[name] else windows[0].from, b[name])
      && (name !in a ==> windows[0].from == windows[0].to - 1)
  }

  lemma ChainJoin(a: map<string, Minute>, b: map<string, Minute>, c: map<string, Minute>, name: string,
                  v: seq<Window>, w: seq<Window>)
    requires Chain(a, b, name, v) && Chain(b, c, name, w)
    ensures Chain(a, c, name, v + w)
  {
    if v == [] {
      assert v + w == w;
    } else if w == [] {
      assert v + w == v;
    } else {
      TilesJoin(v, w, if name in a then a[name] else v[0].from, b[name], c[name]);
    }
  }

  lemma {:induction false} LooksChain(lastTick: map<string, Minute>, minute: Minute, apps: seq<App>, name: string)
    ensures var (ticked, windows) := LookedAt(lastTick, minute, apps);
      Chain(lastTick, ticked, name, Of(name, windows))
  {
    if apps != [] {
      var app := apps[|apps| - 1];
      LooksChain(lastTick, minute, apps[..|apps| - 1], name);
      var (ticked, windows) := LookedAt(lastTick, minute, apps[..|apps| - 1]);
      var w := Consumed(ticked, minute, app);
      if w.Some? {
        assert (windows + [w.value])[..|windows|] == windows;
        if app.name == name {
          assert [w.value][..0] == [];
          assert Tiles([w.value], w.value.from, w.value.to);
          assert Of(name, windows + [w.value]) == Of(name, windows) + [w.value];
          ChainJoin(lastTick, ticked, ticked[name := minute], name, Of(name, windows), [w.value]);
        } else {
          assert Of(name, windows + [w.value]) == Of(name, windows);
        }
      }
    }
  }

  // A tick of a run: when it was, and what it found.
  datatype Tick = Tick(now: int, apps: seq<App>)

  ghost function Run(lastTick: map<string, Minute>, ticks: seq<Tick>): (map<string, Minute>, seq<Window>) {
    if ticks == [] then (lastTick, [])
    else
      var (before, windows) := Run(lastTick, ticks[..|ticks| - 1]);
      var (after, more) := Ticked(before, ticks[|ticks| - 1].now, ticks[|ticks| - 1].apps);
      (after, windows + more)
  }

  ghost predicate AlwaysListed(ticks: seq<Tick>, name: string) {
    forall k :: 0 <= k < |ticks| ==> Listed(ticks[k].apps, name)
  }

  /**
   However the clock goes, whatever is busy and whatever stops and starts: as
   long as an application exists, the windows consumed for it follow one
   another from where the run found it to where the run leaves it.
   */
  lemma {:induction false} WindowsTile(lastTick: map<string, Minute>, ticks: seq<Tick>, name: string)
    requires AlwaysListed(ticks, name)
    ensures var (end, windows) := Run(lastTick, ticks);
      Chain(lastTick, end, name, Of(name, windows))
  {
    if ticks != [] {
      var n := |ticks| - 1;
      WindowsTile(lastTick, ticks[..n], name);
      var (before, windows) := Run(lastTick, ticks[..n]);
      var Tick(now, apps) := ticks[n];
      LooksChain(before, now / NANOS_PER_MINUTE, apps, name);
      var (after, more) := Ticked(before, now, apps);
      assert Chain(before, after, name, Of(name, more));
      ChainJoin(lastTick, before, after, name, Of(name, windows), Of(name, more));
      OfConcat(name, windows, more);
    }
  }

  // A window was consumed with the lock exactly when what was read was due in
  // it, and a backup started only then.
  ghost predicate Careful(w: Window) {
    (w.locked <==> Due(w.read, w.from, w.to)) && (w.started ==> w.locked)
  }

  lemma {:induction false} LooksCareful(lastTick: map<string, Minute>, minute: Minute, apps: seq<App>)
    ensures forall w <- LookedAt(lastTick, minute, apps).1 :: Careful(w)
  {
    if apps != [] {
      LooksCareful(lastTick, minute, apps[..|apps| - 1]);
    }
  }

  /** Over every run: no window goes unlocked but for what its tick had read. */
  lemma {:induction false} RunCareful(lastTick: map<string, Minute>, ticks: seq<Tick>)
    ensures forall w <- Run(lastTick, ticks).1 :: Careful(w)
  {
    if ticks != [] {
      var n := |ticks| - 1;
      RunCareful(lastTick, ticks[..n]);
      LooksCareful(Run(lastTick, ticks[..n]).0, ticks[n].now / NANOS_PER_MINUTE, ticks[n].apps);
    }
  }

  lemma {:induction false} OfAreOurs(name: string, windows: seq<Window>)
    ensures forall w <- Of(name, windows) :: w in windows && w.app == name
  {
    if windows != [] {
      OfAreOurs(name, windows[..|windows| - 1]);
    }
  }

  /**
   No minute is lost and none is seen twice: one that the scheduler has gone
   past was in exactly one window of the application. The tick that consumed
   it held the lock exactly when the schedule it had read was due in the
   window, and so if that fires in the minute.
   */
  lemma EveryFiringHasItsTick(lastTick: map<string, Minute>, ticks: seq<Tick>, name: string, m: Minute) returns (k: nat)
    requires AlwaysListed(ticks, name)
    requires name in lastTick && name in Run(lastTick, ticks).0
    requires lastTick[name] < m <= Run(lastTick, ticks).0[name]
    ensures var windows := Of(name, Run(lastTick, ticks).1);
      && k < |windows| && Holds(windows[k], m) && Careful(windows[k])
      && (forall j :: 0 <= j < |windows| && Holds(windows[j], m) ==> j == k)
      && (windows[k].read.Some? && windows[k].read.value.Matches(m) ==> windows[k].locked)
  {
    var (end, windows) := Run(lastTick, ticks);
    WindowsTile(lastTick, ticks, name);
    RunCareful(lastTick, ticks);
    OfAreOurs(name, windows);
    k := OneTile(Of(name, windows), lastTick[name], end[name], m);
    assert Of(name, windows)[k] in windows;
  }

  lemma OneLook(lastTick: map<string, Minute>, minute: Minute, app: App, w: Window)
    requires Consumed(lastTick, minute, app) == Some(w)
    ensures LookedAt(lastTick, minute, [app]) == (lastTick[w.app := w.to], [w])
  {
    assert [app][..0] == [];
    assert LookedAt(lastTick, minute, []) == (lastTick, []);
    assert [] + [w] == [w];
  }

  lemma OneApp(minute: Minute, name: string, app: App, now: int, w: Window)
    requires app.name == name == w.app && w.to == minute && now / NANOS_PER_MINUTE == minute
    requires Consumed(map[name := minute - 1], minute, app) == Some(w)
    ensures Ticked(map[name := minute - 1], now, [app]) == (map[name := minute], [w])
  {
    OneLook(map[name := minute - 1], minute, app, w);
    assert map[name := minute - 1][name := minute] == map[name := minute];
    assert Listed([app], name) by { assert [app][0].name == name; }
    var ticked := map[name := minute];
    assert (map n | n in ticked && Listed([app], n) :: ticked[n]) == ticked;
  }

  lemma OneTick(lastTick: map<string, Minute>, tick: Tick)
    ensures Run(lastTick, [tick]) == Ticked(lastTick, tick.now, tick.apps)
  {
    assert [tick][..0] == [];
    assert Run(lastTick, []) == (lastTick, []);
    var (after, more) := Ticked(lastTick, tick.now, tick.apps);
    assert [] + more == more;
  }

  lemma WholeMinutes(m: Minute)
    ensures m * NANOS_PER_MINUTE / NANOS_PER_MINUTE == m
  {
  }

  /**
   A deployment that cannot be read has nothing due: its window is consumed
   without the lock, and whatever fires in it is not caught up.
   */
  lemma FailedReadLosesAFiring(name: string, s: Schedule, m: Minute)
    ensures var tick := Tick(m * NANOS_PER_MINUTE, [App(name, true, true, None, true, Some(s), true)]);
      Run(map[name := m - 1], [tick]) == (map[name := m], [Window(name, m - 1, m, None, false, false)])
  {
    var app := App(name, true, true, None, true, Some(s), true);
    var tick := Tick(m * NANOS_PER_MINUTE, [app]);
    WholeMinutes(m);
    OneApp(m, name, app, tick.now, Window(name, m - 1, m, None, false, false));
    OneTick(map[name := m - 1], tick);
  }

  // Each application is listed once, as the store lists them.
  ghost predicate Distinct(apps: seq<App>) {
    forall i, j :: 0 <= i < j < |apps| ==> apps[i].name != apps[j].name
  }

  // Why a tick leaves an application's window for a later one.
  ghost predicate LeftFor(app: App, last: Minute, minute: Minute) {
    || !app.deployed || !app.running || minute <= last
    || (Due(app.schedule, last, minute) && !app.lockable)
  }

  // A window is what the tick found: the lock held for what was due, and a backup started under it exactly
  // when what was read again was still due and beginning succeeded.
  ghost predicate Describes(w: Window, app: App, last: Minute, minute: Minute) {
    && w.app == app.name && w.from == last && w.to == minute && w.read == app.schedule
    && (w.locked <==> Due(app.schedule, last, minute))
    && (w.started <==> w.locked && Due(app.relocked, last, minute) && app.begins)
  }

  // All that a tick does for one application, whose windows were `some` before.
  ghost predicate Decided(lastTick: map<string, Minute>, minute: Minute, app: App, ticked: map<string, Minute>,
                          some: seq<Window>, windows: seq<Window>) {
    var last := if app.name in lastTick then lastTick[app.name] else minute - 1;
    if LeftFor(app, last, minute) then windows == some && SameTick(lastTick, ticked, app.name)
    else
      && |windows| == |some| + 1 && windows[..|some|] == some && Describes(windows[|some|], app, last, minute)
      && app.name in ticked && ticked[app.name] == minute
  }

  ghost predicate SameTick(lastTick: map<string, Minute>, ticked: map<string, Minute>, name: string) {
    (name in ticked <==> name in lastTick) && (name in lastTick ==> ticked[name] == lastTick[name])
  }

  lemma ConsumedDecides(lastTick: map<string, Minute>, minute: Minute, app: App, some: seq<Window>)
    ensures match Consumed(lastTick, minute, app)
      case None => Decided(lastTick, minute, app, lastTick, some, some)
      case Some(w) => w.app == app.name && Decided(lastTick, minute, app, lastTick[w.app := w.to], some, some + [w])
  {
  }

  // What the look at one more application adds.
  lemma OneMoreLook(lastTick: map<string, Minute>, minute: Minute, apps: seq<App>, name: string)
    requires apps != []
    ensures var app := apps[|apps| - 1]; var (before, some) := LookedAt(lastTick, minute, apps[..|apps| - 1]);
      var (ticked, windows) := LookedAt(lastTick, minute, apps);
      if app.name != name then Of(name, windows) == Of(name, some) && SameTick(before, ticked, name)
      else Decided(before, minute, app, ticked, Of(name, some), Of(name, windows))
  {
    var app := apps[|apps| - 1];
    var (before, some) := LookedAt(lastTick, minute, apps[..|apps| - 1]);
    ConsumedDecides(before, minute, app, Of(name, some));
    var w := Consumed(before, minute, app);
    if w.Some? {
      assert (some + [w.value])[..|some|] == some;
      assert Of(name, some) + [] == Of(name, some);
    }
  }

  lemma {:induction false} NotListed(lastTick: map<string, Minute>, minute: Minute, apps: seq<App>, name: string)
    requires forall i :: 0 <= i < |apps| ==> apps[i].name != name
    ensures var (ticked, windows) := LookedAt(lastTick, minute, apps);
      Of(name, windows) == [] && SameTick(lastTick, ticked, name)
  {
    if apps != [] {
      NotListed(lastTick, minute, apps[..|apps| - 1], name);
      OneMoreLook(lastTick, minute, apps, name);
    }
  }

  lemma DecidedStill(lastTick: map<string, Minute>, minute: Minute, app: App, before: map<string, Minute>,
                     ticked: map<string, Minute>, windows: seq<Window>)
    requires Decided(lastTick, minute, app, before, [], windows) && SameTick(before, ticked, app.name)
    ensures Decided(lastTick, minute, app, ticked, [], windows)
  {
  }

  lemma DecidedSince(lastTick: map<string, Minute>, before: map<string, Minute>, minute: Minute, app: App,
                     ticked: map<string, Minute>, windows: seq<Window>)
    requires SameTick(lastTick, before, app.name) && Decided(before, minute, app, ticked, [], windows)
    ensures Decided(lastTick, minute, app, ticked, [], windows)
  {
  }

  // What the looks at some applications come to for one of them.
  ghost predicate LooksCome(lastTick: map<string, Minute>, minute: Minute, apps: seq<App>, app: App) {
    var (ticked, windows) := LookedAt(lastTick, minute, apps);
    Decided(lastTick, minute, app, ticked, [], Of(app.name, windows))
  }

  lemma LastLookComes(lastTick: map<string, Minute>, minute: Minute, apps: seq<App>)
    requires apps != [] && forall i :: 0 <= i < |apps| - 1 ==> apps[i].name != apps[|apps| - 1].name
    ensures LooksCome(lastTick, minute, apps, apps[|apps| - 1])
  {
    var n := |apps| - 1;
    OneMoreLook(lastTick, minute, apps, apps[n].name);
    NotListed(lastTick, minute, apps[..n], apps[n].name);
    DecidedSince(lastTick, LookedAt(lastTick, minute, apps[..n]).0, minute, apps[n],
                 LookedAt(lastTick, minute, apps).0, Of(apps[n].name, LookedAt(lastTick, minute, apps).1));
  }

  lemma EarlierLookComes(lastTick: map<string, Minute>, minute: Minute, apps: seq<App>, app: App)
    requires apps != [] && apps[|apps| - 1].name != app.name
    requires LooksCome(lastTick, minute, apps[..|apps| - 1], app)
    ensures LooksCome(lastTick, minute, apps, app)
  {
    var n := |apps| - 1;
    OneMoreLook(lastTick, minute, apps, app.name);
    DecidedStill(lastTick, minute, app, LookedAt(lastTick, minute, apps[..n]).0,
                 LookedAt(lastTick, minute, apps).0, Of(app.name, LookedAt(lastTick, minute, apps[..n]).1));
  }

  lemma {:induction false} LooksDecide(lastTick: map<string, Minute>, minute: Minute, apps: seq<App>, j: nat)
    requires Distinct(apps) && j < |apps|
    ensures LooksCome(lastTick, minute, apps, apps[j])
  {
    if j < |apps| - 1 {
      LooksDecide(lastTick, minute, apps[..|apps| - 1], j);
      EarlierLookComes(lastTick, minute, apps, apps[j]);
    } else {
      LastLookComes(lastTick, minute, apps);
    }
  }

  lemma DecidedOnTop(lastTick: map<string, Minute>, minute: Minute, app: App, ticked: map<string, Minute>,
                     found: seq<Window>, after: map<string, Minute>, some: seq<Window>)
    requires Decided(lastTick, minute, app, ticked, [], found) && SameTick(ticked, after, app.name)
    ensures Decided(lastTick, minute, app, after, some, some + found)
  {
  }

  /**
   Over every run, of what each tick found: an application that is stopped, not deployed, seen this
   minute already, or due but busy has no window from it. Any other has one, from where it was last
   looked at; the lock was held exactly if the schedule read first was due in it, and a backup was
   started exactly if moreover the one read under the lock was due and beginning succeeded.
   */
  lemma EachTickDecides(lastTick: map<string, Minute>, ticks: seq<Tick>, k: nat, j: nat)
    requires k < |ticks| && j < |ticks[k].apps| && Distinct(ticks[k].apps)
    ensures var app := ticks[k].apps[j]; var (before, some) := Run(lastTick, ticks[..k]);
      var (after, windows) := Run(lastTick, ticks[..k + 1]);
      Decided(before, ticks[k].now / 60_000_000_000, app, after, Of(app.name, some), Of(app.name, windows))
  {
    var Tick(now, apps) := ticks[k];
    var (before, some) := Run(lastTick, ticks[..k]);
    assert ticks[..k + 1][..k] == ticks[..k];
    var (ticked, found) := LookedAt(before, now / NANOS_PER_MINUTE, apps);
    LooksDecide(before, now / NANOS_PER_MINUTE, apps, j);
    OfConcat(apps[j].name, some, found);
    assert Listed(apps, apps[j].name);
    DecidedOnTop(before, now / NANOS_PER_MINUTE, apps[j], ticked, Of(apps[j].name, found),
                 Run(lastTick, ticks[..k + 1]).0, Of(apps[j].name, some));
  }

  // An application that a tick does not list is forgotten.
  lemma ForgetsTheUnlisted(lastTick: map<string, Minute>, ticks: seq<Tick>, k: nat, name: string)
    requires k < |ticks| && forall j :: 0 <= j < |ticks[k].apps| ==> ticks[k].apps[j].name != name
    ensures name !in Run(lastTick, ticks[..k + 1]).0
  {
    assert ticks[..k + 1][..k] == ticks[..k];
  }

  // The tick and the application that a window comes from.
  ghost predicate ComesFrom(w: Window, ticks: seq<Tick>, k: nat, j: nat) {
    && k < |ticks| && j < |ticks[k].apps|
    && var app := ticks[k].apps[j];
    && app.deployed && app.running && w.from < w.to && (w.locked ==> app.lockable)
    && Describes(w, app, w.from, ticks[k].now / 60_000_000_000)
  }

  lemma {:induction false} LooksComeFrom(lastTick: map<string, Minute>, minute: Minute, apps: seq<App>, w: Window)
    requires w in LookedAt(lastTick, minute, apps).1
    ensures exists j: nat :: j < |apps| && apps[j].deployed && apps[j].running && w.from < w.to
                             && (w.locked ==> apps[j].lockable) && Describes(w, apps[j], w.from, minute)
  {
    var n := |apps| - 1;
    var (before, some) := LookedAt(lastTick, minute, apps[..n]);
    if w in some {
      LooksComeFrom(lastTick, minute, apps[..n], w);
    } else {
      ConsumedDecides(before, minute, apps[n], []);
    }
  }

  /** Over every run, each window comes from a tick that found an application deployed and running. */
  lemma {:induction false} RunStarts(lastTick: map<string, Minute>, ticks: seq<Tick>, w: Window)
    requires w in Run(lastTick, ticks).1
    ensures exists k: nat, j: nat :: ComesFrom(w, ticks, k, j)
  {
    var n := |ticks| - 1;
    var (before, some) := Run(lastTick, ticks[..n]);
    if w in some {
      RunStarts(lastTick, ticks[..n], w);
      var k: nat, j: nat :| ComesFrom(w, ticks[..n], k, j);
      assert ComesFrom(w, ticks, k, j);
    } else {
      var minute := ticks[n].now / NANOS_PER_MINUTE;
      LooksComeFrom(before, minute, ticks[n].apps, w);
      var j: nat :| j < |ticks[n].apps| && ticks[n].apps[j].deployed && ticks[n].apps[j].running && w.from < w.to
        && (w.locked ==> ticks[n].apps[j].lockable) && Describes(w, ticks[n].apps[j], w.from, minute);
      assert ComesFrom(w, ticks, n, j);
    }
  }
}

/** The stream-task reconciliation of backend/app/main.py (fetch_market_data_background): each
    pass compares the wanted channels with the running stream tasks and the OANDA symbols. */
module StreamReconciler {

  /** A task is named by the order of its creation. */
  type Task = nat

  const NON_MARKET_CHANNELS: set<string> :=
    {"general", "backtest", "block_trades", "dashboard", "options_live", "correlation_feed", "system_alerts",
     "container_logs", "training_visualizer"}

  predicate HasPrefix(s: string, p: string) {
    |p| <= |s| && s[..|p|] == p
  }

  predicate Ignored(channel: string) {
    channel in NON_MARKET_CHANNELS || HasPrefix(channel, "logs_") || HasPrefix(channel, "status_")
    || HasPrefix(channel, "godmode_")
  }

  predicate Forex(channel: string) {
    !Ignored(channel) && '_' in channel
  }

  predicate Crypto(channel: string) {
    !Ignored(channel) && '_' !in channel
  }

  /** The channels of a snapshot that a pass serves. */
  function Wanted(active: seq<string>): set<string> {
    set c | c in active && !Ignored(c)
  }

  /** `snapshot` and `visited` are the pass in progress; `targets` is current_target_symbols. */
  datatype State = State(tasks: map<string, seq<Task>>, oanda: set<string>, created: nat, cancelled: set<Task>,
                         inPass: bool, snapshot: seq<string>, visited: nat, targets: set<string>)

  const INITIAL := State(map[], {}, 0, {}, false, [], 0, {})

  /** A pass begins with the channels connected at that moment, visits them one at a time
      (other coroutines run in between: they may add OANDA symbols, and the streamer removes
      one that OANDA rejects), may be cut short by an exception, and otherwise ends with the
      cleanup. */
  datatype Event =
    | Begin(active: seq<string>) | Visit | Fail | Clean
    | ExternalAdd(symbol: string) | ExternalRemove(symbol: string)

  predicate Enabled(s: State, e: Event) {
    match e
    case Begin(_) => !s.inPass
    case Visit => s.inPass && s.visited < |s.snapshot|
    case Fail => s.inPass && s.visited < |s.snapshot|
    case Clean => s.inPass && s.visited == |s.snapshot|
    case ExternalAdd(_) => true
    case ExternalRemove(_) => true
  }

  /** The tasks held in the map. */
  function Held(tasks: map<string, seq<Task>>): set<Task> {
    set k, i | k in tasks && 0 <= i < |tasks[k]| :: tasks[k][i]
  }

  function Without(tasks: map<string, seq<Task>>, keep: set<string>): map<string, seq<Task>> {
    map k | k in tasks && k in keep :: tasks[k]
  }

  function Step(s: State, e: Event): State {
    if !Enabled(s, e) then s else
    match e
    case Begin(active) => s.(inPass := true, snapshot := active, visited := 0, targets := {})
    case Visit =>
      var channel := s.snapshot[s.visited];
      var t := s.(visited := s.visited + 1);
      if Ignored(channel) then t
      else if Forex(channel) then t.(targets := s.targets + {channel}, oanda := s.oanda + {channel})
      else if channel in s.tasks then t.(targets := s.targets + {channel})
      else t.(targets := s.targets + {channel}, tasks := s.tasks[channel := [s.created, s.created + 1]],
              created := s.created + 2)
    case Fail => s.(inPass := false)
    case Clean =>
      s.(inPass := false, oanda := s.oanda * s.targets, tasks := Without(s.tasks, s.targets),
         cancelled := s.cancelled + (Held(s.tasks) - Held(Without(s.tasks, s.targets))))
    case ExternalAdd(symbol) => s.(oanda := s.oanda + {symbol})
    case ExternalRemove(symbol) => s.(oanda := s.oanda - {symbol})
  }

  function Run(events: seq<Event>): State {
    if events == [] then INITIAL else Step(Run(events[..|events| - 1]), events[|events| - 1])
  }

  // ---------------------------------------------------------------- the invariant of every run

  /** Every symbol has two tasks of its own. */
  predicate Pairs(tasks: map<string, seq<Task>>) {
    && (forall k :: k in tasks ==> |tasks[k]| == 2 && tasks[k][0] != tasks[k][1])
    && (forall j, k :: j in tasks && k in tasks && j != k ==> Apart(tasks[j], tasks[k]))
  }

  predicate Apart(a: seq<Task>, b: seq<Task>) {
    forall x :: x in a ==> x !in b
  }

  /** Every task ever created is either held in the map and uncancelled, or cancelled. */
  ghost predicate Owned(s: State) {
    && Pairs(s.tasks)
    && (forall k :: k in s.tasks ==> Crypto(k))
    && Held(s.tasks) !! s.cancelled
    && (forall t: Task :: t in Held(s.tasks) || t in s.cancelled <==> t < s.created)
  }

  /** A pass in progress has served the channels it has visited. */
  ghost predicate OnCourse(s: State) {
    && s.visited <= |s.snapshot|
    && (s.inPass ==>
          && s.targets == Wanted(s.snapshot[..s.visited])
          && (forall c :: c in s.targets && Crypto(c) ==> c in s.tasks))
  }

  ghost predicate Valid(s: State) {
    Owned(s) && OnCourse(s)
  }

  lemma {:induction false} VisitKeepsOwned(s: State)
    requires Valid(s) && Enabled(s, Visit)
    ensures Owned(Step(s, Visit))
  {
    hide Wanted, Held, OnCourse;
    var channel := s.snapshot[s.visited];
    if Crypto(channel) && channel !in s.tasks {
      NewPair(s.tasks, channel, s.created);
    }
  }

  lemma {:induction false} VisitKeepsValid(s: State)
    requires Valid(s) && Enabled(s, Visit)
    ensures Valid(Step(s, Visit))
  {
    VisitKeepsOwned(s);
    hide Owned;
    assert s.snapshot[..s.visited + 1] == s.snapshot[..s.visited] + [s.snapshot[s.visited]];
  }

  lemma {:induction false} NewPair(tasks: map<string, seq<Task>>, channel: string, n: nat)
    requires Pairs(tasks) && channel !in tasks
    requires forall t :: t in Held(tasks) ==> t < n
    ensures Pairs(tasks[channel := [n, n + 1]])
    ensures Held(tasks[channel := [n, n + 1]]) == Held(tasks) + {n, n + 1}
  {
    var more := tasks[channel := [n, n + 1]];
    forall t
      ensures t in Held(more) <==> t in Held(tasks) + {n, n + 1}
    {
      if t in Held(tasks) {
        var k, i :| k in tasks && 0 <= i < |tasks[k]| && t == tasks[k][i];
        assert more[k][i] == t;
      }
      assert more[channel][0] == n && more[channel][1] == n + 1;
    }
    forall j, k | j in more && k in more && j != k
      ensures Apart(more[j], more[k])
    {
      if j != channel && k != channel {
        assert Apart(tasks[j], tasks[k]);
      } else {
        forall x | x in more[j] && x in more[k]
          ensures false
        {
          MemberHeld(tasks, if j == channel then k else j, x);
        }
      }
    }
  }

  lemma {:induction false} MemberHeld(tasks: map<string, seq<Task>>, k: string, x: Task)
    requires k in tasks && x in tasks[k]
    ensures x in Held(tasks)
  {
    var i :| 0 <= i < |tasks[k]| && tasks[k][i] == x;
  }

  lemma {:induction false} CleanKeepsValid(s: State)
    requires Valid(s) && Enabled(s, Clean)
    ensures Valid(Step(s, Clean))
  {
    var s' := Step(s, Clean);
    forall t | t in Held(s'.tasks)
      ensures t in Held(s.tasks)
    {
      var k, i :| k in s'.tasks && 0 <= i < |s'.tasks[k]| && t == s'.tasks[k][i];
      assert s.tasks[k][i] == t;
    }
  }

  lemma {:induction false} StepValid(s: State, e: Event)
    requires Valid(s)
    ensures Valid(Step(s, e))
  {
    if Enabled(s, e) {
      match e {
        case Visit => VisitKeepsValid(s);
        case Clean => CleanKeepsValid(s);
        case Begin(active) => assert active[..0] == [];
        case Fail =>
        case ExternalAdd(_) =>
        case ExternalRemove(_) =>
      }
    }
  }

  /** MAIN: over every run every task ever created is either held in the map and not
      cancelled, or cancelled and no longer held. */
  lemma {:induction false} RunValid(events: seq<Event>)
    ensures Valid(Run(events))
  {
    if events == [] {
      assert Held(INITIAL.tasks) == {};
    } else {
      var s, e := Run(events[..|events| - 1]), events[|events| - 1];
      RunValid(events[..|events| - 1]);
      StepValid(s, e);
    }
  }

  /** The event `e` after `before` adds the symbol to the OANDA set, if it is a forex symbol. */
  predicate Adds(before: seq<Event>, e: Event, c: string) {
    var s := Run(before);
    e == ExternalAdd(c) || (e.Visit? && Enabled(s, e) && s.snapshot[s.visited] == c)
  }

  /** The streamer has removed the symbol and nothing has added it since. */
  predicate Gone(events: seq<Event>, c: string) {
    if events == [] then false
    else
      var before, e := events[..|events| - 1], events[|events| - 1];
      e == ExternalRemove(c) || (!Adds(before, e, c) && Gone(before, c))
  }

  /** Event `i` removes the symbol and no later event adds it. */
  predicate RemovedAt(events: seq<Event>, i: nat, c: string)
    requires i < |events|
  {
    events[i] == ExternalRemove(c) && forall j :: i < j < |events| ==> !Adds(events[..j], events[j], c)
  }

  lemma {:induction false} RemovedSnoc(before: seq<Event>, e: Event, i: nat, c: string)
    requires i < |before|
    ensures RemovedAt(before + [e], i, c) <==> RemovedAt(before, i, c) && !Adds(before, e, c)
  {
    hide Adds;
    var events := before + [e];
    assert events[..|before|] == before;
    assert forall j :: 0 <= j < |before| ==> before[..j] == events[..j] && before[j] == events[j];
  }

  /** That is: some removal is followed by no addition. */
  lemma {:induction false} GoneIff(events: seq<Event>, c: string)
    ensures Gone(events, c) <==> exists i :: 0 <= i < |events| && RemovedAt(events, i, c)
  {
    if events != [] {
      hide Adds;
      var before, e := events[..|events| - 1], events[|events| - 1];
      GoneIff(before, c);
      assert events == before + [e];
      forall i | 0 <= i < |before|
        ensures RemovedAt(events, i, c) <==> RemovedAt(before, i, c) && !Adds(before, e, c)
      {
        RemovedSnoc(before, e, i, c);
      }
      assert RemovedAt(events, |before|, c) <==> e == ExternalRemove(c);
    }
  }

  /** During a pass a forex target is missing from the OANDA set exactly when it is gone. */
  lemma {:induction false} TargetMissing(events: seq<Event>, c: string)
    requires Forex(c) && Run(events).inPass && c in Run(events).targets
    ensures c in Run(events).oanda <==> !Gone(events, c)
  {
    hide Step, Adds, Forex;
    var before, e := events[..|events| - 1], events[|events| - 1];
    var s := Run(before);
    if s.inPass && c in s.targets {
      TargetMissing(before, c);
    }
    StepOnSymbol(s, before, e, c);
  }

  /** What one event does to a forex symbol of the pass. */
  lemma {:induction false} StepOnSymbol(s: State, before: seq<Event>, e: Event, c: string)
    requires Forex(c) && s == Run(before) && Step(s, e).inPass && c in Step(s, e).targets
    ensures Adds(before, e, c) ==> c in Step(s, e).oanda && e != ExternalRemove(c)
    ensures e == ExternalRemove(c) ==> c !in Step(s, e).oanda
    ensures !Adds(before, e, c) && e != ExternalRemove(c) ==>
              s.inPass && c in s.targets && (c in Step(s, e).oanda <==> c in s.oanda)
  {
    hide Run, Wanted, Held, Without, Ignored;
  }

  /** MAIN: after each completed pass the map's keys are exactly the wanted crypto channels,
      with two tasks each; the OANDA set holds nothing unwanted, and of the wanted forex
      channels it misses exactly those that the streamer removed after their visit and that
      nothing has added again. */
  lemma {:induction false} PassReconciles(events: seq<Event>)
    requires Enabled(Run(events), Clean)
    ensures var s, s' := Run(events), Run(events + [Clean]);
            && s'.tasks.Keys == (set c | c in s.snapshot && Crypto(c))
            && Pairs(s'.tasks)
            && s'.oanda <= Wanted(s.snapshot)
            && (forall c :: c in s.snapshot && Forex(c) ==> (c in s'.oanda <==> !Gone(events, c)))
  {
    RunValid(events);
    assert (events + [Clean])[..|events|] == events;
    var s, s' := Run(events), Run(events + [Clean]);
    assert s.snapshot[..s.visited] == s.snapshot;
    assert s' == Step(s, Clean);
    CleanKeepsValid(s);
    forall c | c in s.snapshot && Forex(c)
      ensures c in s'.oanda <==> !Gone(events, c)
    {
      TargetMissing(events, c);
    }
  }

  /** So a pass without a rejected symbol leaves every wanted forex channel in the set, and a
      channel rejected right before the cleanup is missing. */
  lemma {:induction false} RejectedIsMissing(events: seq<Event>, c: string)
    requires Enabled(Run(events), Clean) && c in Run(events).snapshot && Forex(c)
    ensures (forall i :: 0 <= i < |events| ==> events[i] != ExternalRemove(c)) ==> c in Run(events + [Clean]).oanda
    ensures c !in Run(events + [ExternalRemove(c)] + [Clean]).oanda
  {
    PassReconciles(events);
    GoneIff(events, c);
    var later := events + [ExternalRemove(c)];
    assert later[..|events|] == events;
    PassReconciles(later);
  }

  /** The channel is no market: one of nine names, or a log, status or godmode channel. */
  predicate NoMarket(c: string) {
    || c == "general" || c == "backtest" || c == "block_trades" || c == "dashboard" || c == "options_live"
    || c == "correlation_feed" || c == "system_alerts" || c == "container_logs" || c == "training_visualizer"
    || "logs_" <= c || "status_" <= c || "godmode_" <= c
  }

  lemma {:induction false} IgnoredIff(c: string)
    ensures Ignored(c) <==> NoMarket(c)
  {
  }

  /** MAIN: by the characters of a channel of the snapshot: after a completed pass a market
      channel has two stream tasks exactly when there is no underscore in it, and one with an
      underscore is in the OANDA set exactly when it is not gone; a channel that is no market
      has neither. */
  lemma {:induction false} PassByCharacters(events: seq<Event>, c: string)
    requires Enabled(Run(events), Clean) && c in Run(events).snapshot
    ensures var s' := Run(events + [Clean]);
            && (NoMarket(c) ==> c !in s'.tasks && c !in s'.oanda)
            && (!NoMarket(c) && '_' !in c ==>
                  c in s'.tasks && |s'.tasks[c]| == 2 && s'.tasks[c][0] != s'.tasks[c][1])
            && (!NoMarket(c) && '_' in c ==> c !in s'.tasks && (c in s'.oanda <==> !Gone(events, c)))
  {
    hide Run, Gone, Ignored, NoMarket;
    PassReconciles(events);
    IgnoredIff(c);
  }

  // ---------------------------------------------------------------- counting and churn

  lemma {:induction false} HeldCount(tasks: map<string, seq<Task>>)
    requires Pairs(tasks)
    ensures |Held(tasks)| == 2 * |tasks|
    decreases |tasks|
  {
    if |tasks| == 0 {
      assert Held(tasks) == {};
    } else {
      var k :| k in tasks;
      var rest := tasks - {k};
      PairsMinus(tasks, k);
      HeldCount(rest);
      HeldSplit(tasks, k);
    }
  }

  lemma {:induction false} HeldSplit(tasks: map<string, seq<Task>>, k: string)
    requires Pairs(tasks) && k in tasks
    ensures |Held(tasks)| == |Held(tasks - {k})| + 2
  {
    DropPair(tasks, tasks, k);
    HeldMonotone(tasks - {k}, tasks);
    PairSet(tasks[k]);
    TwoMore(Held(tasks), Held(tasks - {k}), tasks[k][0], tasks[k][1]);
  }

  lemma {:induction false} PairSet(pair: seq<Task>)
    requires |pair| == 2
    ensures (set t | t in pair) == {pair[0], pair[1]}
  {
  }

  lemma {:induction false} TwoMore(all: set<Task>, rest: set<Task>, p: Task, q: Task)
    requires rest <= all && all - rest == {p, q} && p != q
    ensures |all| == |rest| + 2
  {
    assert all == rest + {p, q};
  }

  lemma {:induction false} PairsMinus(tasks: map<string, seq<Task>>, k: string)
    requires Pairs(tasks) && k in tasks
    ensures Pairs(tasks - {k}) && |tasks - {k}| == |tasks| - 1
  {
    var rest := tasks - {k};
    assert rest.Keys == tasks.Keys - {k};
    forall i, j | i in rest && j in rest && i != j
      ensures Apart(rest[i], rest[j])
    {
      assert Apart(tasks[i], tasks[j]);
    }
  }

  lemma {:induction false} HeldMonotone(less: map<string, seq<Task>>, more: map<string, seq<Task>>)
    requires forall k :: k in less ==> k in more && more[k] == less[k]
    ensures Held(less) <= Held(more)
  {
    forall t | t in Held(less)
      ensures t in Held(more)
    {
      var k, i :| k in less && 0 <= i < |less[k]| && t == less[k][i];
      assert more[k][i] == t;
    }
  }

  function FirstNats(n: nat): (r: set<nat>)
    ensures |r| == n && forall t: nat :: t in r <==> t < n
  {
    if n == 0 then {} else FirstNats(n - 1) + {n - 1}
  }

  /** No task leaks: all created tasks are cancelled but for two per symbol in the map. */
  lemma {:induction false} NoLeak(events: seq<Event>)
    ensures var s := Run(events); s.created == |s.cancelled| + 2 * |s.tasks|
  {
    RunValid(events);
    var s := Run(events);
    HeldCount(s.tasks);
    assert Held(s.tasks) + s.cancelled == FirstNats(s.created);
  }

  function RunFrom(s: State, events: seq<Event>): State
    decreases |events|
  {
    if events == [] then s else RunFrom(Step(s, events[0]), events[1..])
  }

  /** A pair stays as it is, or it has been cancelled as a whole. */
  ghost predicate KeptOrCancelled(s: State, s': State) {
    && s.cancelled <= s'.cancelled
    && forall k :: k in s.tasks ==>
         || (k in s'.tasks && s'.tasks[k] == s.tasks[k])
         || forall i :: 0 <= i < |s.tasks[k]| ==> s.tasks[k][i] in s'.cancelled
  }

  lemma {:induction false} CleanNoChurn(s: State)
    requires Valid(s) && Enabled(s, Clean)
    ensures KeptOrCancelled(s, Step(s, Clean))
  {
    var s' := Step(s, Clean);
    forall k, i | k in s.tasks && k !in s'.tasks && 0 <= i < |s.tasks[k]|
      ensures s.tasks[k][i] in s'.cancelled
    {
      var t := s.tasks[k][i];
      assert t in Held(s.tasks);
      forall j | j in s'.tasks
        ensures t !in s'.tasks[j]
      {
        assert Apart(s.tasks[j], s.tasks[k]);
      }
    }
  }

  lemma {:induction false} StepNoChurn(s: State, e: Event)
    requires Valid(s)
    ensures Valid(Step(s, e)) && KeptOrCancelled(s, Step(s, e))
  {
    StepValid(s, e);
    if e.Clean? && Enabled(s, e) {
      CleanNoChurn(s);
    } else {
      OtherNoChurn(s, e);
    }
  }

  lemma {:induction false} OtherNoChurn(s: State, e: Event)
    requires !e.Clean? || !Enabled(s, e)
    ensures KeptOrCancelled(s, Step(s, e))
  {
  }

  /** MAIN: no churn: whatever happens next, a symbol's pair of tasks is never replaced while
      it runs; it either stays in the map untouched or both its tasks have been cancelled. */
  lemma {:induction false} NoChurn(s: State, events: seq<Event>)
    requires Valid(s)
    ensures Valid(RunFrom(s, events)) && KeptOrCancelled(s, RunFrom(s, events))
    decreases |events|
  {
    if events != [] {
      StepNoChurn(s, events[0]);
      NoChurn(Step(s, events[0]), events[1..]);
    }
  }

  // ---------------------------------------------------------------- the code

  class StreamManager {
    var activeStreamTasks: map<string, seq<Task>>
    var activeSymbols: set<string>
    var created: nat
    var cancelled: set<Task>
    var inPass: bool
    var snapshot: seq<string>
    var visited: nat
    var currentTargets: set<string>

    function Now(): State
      reads this
    {
      State(activeStreamTasks, activeSymbols, created, cancelled, inPass, snapshot, visited, currentTargets)
    }

    constructor ()
      ensures Now() == INITIAL
    {
      activeStreamTasks, activeSymbols, created, cancelled := map[], {}, 0, {};
      inPass, snapshot, visited, currentTargets := false, [], 0, {};
    }

    method BeginPass(active: seq<string>)
      requires !inPass
      modifies this
      ensures Now() == Step(old(Now()), Begin(active))
    {
      inPass, snapshot, visited, currentTargets := true, active, 0, {};
    }

    /** asyncio.create_task */
    method CreateTask() returns (t: Task)
      modifies `created
      ensures t == old(created) && created == old(created) + 1
    {
      t := created;
      created := created + 1;
    }

    method VisitChannel()
      requires Enabled(Now(), Visit)
      modifies this
      ensures Now() == Step(old(Now()), Visit)
    {
      var channel := snapshot[visited];
      visited := visited + 1;
      if Ignored(channel) {
        return;
      }
      currentTargets := currentTargets + {channel};
      if '_' in channel {
        activeSymbols := activeSymbols + {channel};
        return;
      }
      if channel !in activeStreamTasks {
        var t1 := CreateTask();
        var t2 := CreateTask();
        activeStreamTasks := activeStreamTasks[channel := [t1, t2]];
      }
    }

    method FailPass()
      requires Enabled(Now(), Fail)
      modifies this
      ensures Now() == Step(old(Now()), Fail)
    {
      inPass := false;
    }

    method AddSymbol(symbol: string)
      modifies this
      ensures Now() == Step(old(Now()), ExternalAdd(symbol))
    {
      activeSymbols := activeSymbols + {symbol};
    }

    /** The streamer drops an instrument that OANDA rejects. */
    method DropInvalid(symbol: string)
      modifies this
      ensures Now() == Step(old(Now()), ExternalRemove(symbol))
    {
      if symbol in activeSymbols {
        activeSymbols := activeSymbols - {symbol};
      }
    }

    /** remove_symbol for every symbol that is no target. */
    method CleanSymbols()
      modifies `activeSymbols
      ensures activeSymbols == old(activeSymbols) * currentTargets
    {
      var left := activeSymbols;
      while left != {}
        invariant left <= old(activeSymbols)
        invariant activeSymbols == old(activeSymbols) * (left + currentTargets)
        decreases |left|
      {
        var s :| s in left;
        left := left - {s};
        if s !in currentTargets {
          activeSymbols := activeSymbols - {s};
        }
      }
    }

    /** Cancel and delete the tasks of every symbol that is no target. */
    method CleanTasks()
      requires Pairs(activeStreamTasks)
      modifies `activeStreamTasks, `cancelled
      ensures activeStreamTasks == Without(old(activeStreamTasks), currentTargets)
      ensures cancelled == old(cancelled) + (Held(old(activeStreamTasks)) - Held(activeStreamTasks))
    {
      ghost var tasks, earlier := activeStreamTasks, cancelled;
      var left := activeStreamTasks.Keys;
      assert activeStreamTasks == Without(tasks, left + currentTargets);
      while left != {}
        invariant left <= tasks.Keys
        invariant activeStreamTasks == Without(tasks, left + currentTargets)
        invariant cancelled == earlier + (Held(tasks) - Held(activeStreamTasks))
        decreases |left|
      {
        var sym :| sym in left;
        if sym !in currentTargets {
          CancelPair(tasks, sym);
        }
        WithoutOne(tasks, left, currentTargets, sym);
        left := left - {sym};
      }
      assert left + currentTargets == currentTargets;
    }

    /** `t.cancel()` for the symbol's tasks and `del active_stream_tasks[sym]`. */
    method CancelPair(ghost tasks: map<string, seq<Task>>, sym: string)
      requires Pairs(tasks) && sym in activeStreamTasks
      requires activeStreamTasks.Keys <= tasks.Keys
      requires forall k :: k in activeStreamTasks ==> activeStreamTasks[k] == tasks[k]
      modifies `activeStreamTasks, `cancelled
      ensures activeStreamTasks == old(activeStreamTasks) - {sym}
      ensures cancelled == old(cancelled) + (set t | t in tasks[sym])
      ensures forall c :: old(cancelled) == c + (Held(tasks) - Held(old(activeStreamTasks)))
                ==> cancelled == c + (Held(tasks) - Held(activeStreamTasks))
    {
      DropPair(tasks, activeStreamTasks, sym);
      var pair := activeStreamTasks[sym];
      for i := 0 to |pair|
        invariant activeStreamTasks == old(activeStreamTasks)
        invariant cancelled == old(cancelled) + (set t | t in pair[..i])
      {
        assert pair[..i + 1] == pair[..i] + [pair[i]];
        cancelled := cancelled + {pair[i]};
      }
      assert pair[..|pair|] == pair;
      activeStreamTasks := activeStreamTasks - {sym};
    }

    method CleanUp()
      requires Enabled(Now(), Clean) && Pairs(activeStreamTasks)
      modifies this
      ensures Now() == Step(old(Now()), Clean)
    {
      CleanSymbols();
      CleanTasks();
      inPass := false;
    }
  }

  lemma {:induction false} WithoutOne(tasks: map<string, seq<Task>>, left: set<string>, targets: set<string>,
                                      sym: string)
    requires sym in left
    ensures Without(tasks, left - {sym} + targets)
         == (if sym in targets then Without(tasks, left + targets) else Without(tasks, left + targets) - {sym})
  {
  }

  lemma {:induction false} DropPair(tasks: map<string, seq<Task>>, before: map<string, seq<Task>>, sym: string)
    requires Pairs(tasks) && sym in before
    requires before.Keys <= tasks.Keys && forall k :: k in before ==> before[k] == tasks[k]
    ensures Held(tasks) - Held(before - {sym}) == (Held(tasks) - Held(before)) + (set t | t in before[sym])
  {
    forall t
      ensures t in Held(before) <==> t in Held(before - {sym}) || t in before[sym]
      ensures t in before[sym] ==> t in Held(tasks) && t !in Held(before - {sym})
    {
      if t in Held(before) {
        var k, i :| k in before && 0 <= i < |before[k]| && t == before[k][i];
        if k != sym {
          assert (before - {sym})[k][i] == t;
        }
      }
      if t in Held(before - {sym}) {
        var k, i :| k in before - {sym} && 0 <= i < |(before - {sym})[k]| && t == (before - {sym})[k][i];
        assert before[k][i] == t && t in tasks[k];
        assert Apart(tasks[k], tasks[sym]);
      }
      if t in before[sym] {
        var i :| 0 <= i < |before[sym]| && before[sym][i] == t;
        assert tasks[sym][i] == t;
      }
    }
  }
}

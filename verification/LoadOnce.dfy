/** The once-only set-up of src/mobilityduck_extension.cpp. */
module LoadOnce {
  import opened Text

  // The head of `LoadInternal`, as the interleaved steps of any number of threads that load the extension.
  // `std::call_once` is as in section [thread.once.callonce] of ISO C++: one call is active, the others wait
  // until it returns.

  /** The two CSV files MEOS is configured with, each by its own function with its own statics. */
  datatype Csv = Srid | Ways

  datatype Flag = NotStarted | Running(thread: nat) | Done

  /** The statics of a configure function, and how often its setter was called. */
  datatype Cell = Cell(once: Flag, failure: Option<nat>, runs: nat)

  /** Where a thread is in a configure function. */
  datatype Place = Enter | ChoosePath | CallSetter | Leave | Check

  /** Where a thread is in the initialisation block. */
  datatype InitPlace = InitEnter | CallInitialize | CallTimezone | CallHandler | InitLeave

  datatype Pc =
    | Configure(csv: Csv, place: Place)
    | Initialise(at: InitPlace)
    | Registering
    | Loaded
    | Threw(csv: Csv, failure: nat)

  /** What a step does that other threads, or the process, can see. */
  datatype Effect = SetCsv(csv: Csv) | Initialize | InitializeTimezone | InitializeErrorHandler | Register(thread: nat)

  datatype State = State(srid: Cell, ways: Cell, init: Flag, pcs: seq<Pc>, effects: seq<Effect>)

  /** How a call into the file system or the setter goes. */
  datatype Result = Returns | Throws(failure: nat)

  function CellOf(s: State, csv: Csv): Cell {
    if csv == Srid then s.srid else s.ways
  }

  function WithCell(s: State, csv: Csv, cell: Cell): State {
    if csv == Srid then s.(srid := cell) else s.(ways := cell)
  }

  function Goto(s: State, t: nat, pc: Pc): State
    requires t < |s.pcs|
  {
    s.(pcs := s.pcs[t := pc])
  }

  function Initial(n: nat): State {
    State(Cell(NotStarted, None, 0), Cell(NotStarted, None, 0), NotStarted, seq(n, _ => Configure(Srid, Enter)), [])
  }

  // ---------- the steps ----------

  function AfterCheck(csv: Csv): Pc {
    if csv == Srid then Configure(Ways, Enter) else Initialise(InitEnter)
  }

  /** One step of a configure function, or None while the thread waits for the active call. */
  function ConfigureStep(s: State, t: nat, csv: Csv, place: Place, r: Result): Option<State>
    requires t < |s.pcs|
  {
    var cell := CellOf(s, csv);
    match place
    case Enter =>
      (match cell.once
       case NotStarted => Some(Goto(WithCell(s, csv, cell.(once := Running(t))), t, Configure(csv, ChoosePath)))
       case Running(_) => None
       case Done => Some(Goto(s, t, Configure(csv, Check))))
    case ChoosePath =>
      (match r
       case Returns => Some(Goto(s, t, Configure(csv, CallSetter)))
       case Throws(e) => Some(Goto(WithCell(s, csv, cell.(failure := Some(e))), t, Configure(csv, Leave))))
    case CallSetter =>
      var called := cell.(runs := cell.runs + 1);
      var s' := WithCell(s, csv, if r.Throws? then called.(failure := Some(r.failure)) else called);
      Some(Goto(s'.(effects := s.effects + [SetCsv(csv)]), t, Configure(csv, Leave)))
    case Leave =>
      Some(Goto(WithCell(s, csv, cell.(once := Done)), t, Configure(csv, Check)))
    case Check =>
      Some(Goto(s, t, if cell.failure.Some? then Threw(csv, cell.failure.value) else AfterCheck(csv)))
  }

  function InitStep(s: State, t: nat, at: InitPlace): Option<State>
    requires t < |s.pcs|
  {
    match at
    case InitEnter =>
      (match s.init
       case NotStarted => Some(Goto(s.(init := Running(t)), t, Initialise(CallInitialize)))
       case Running(_) => None
       case Done => Some(Goto(s, t, Registering)))
    case CallInitialize =>
      Some(Goto(s.(effects := s.effects + [Initialize]), t, Initialise(CallTimezone)))
    case CallTimezone =>
      Some(Goto(s.(effects := s.effects + [InitializeTimezone]), t, Initialise(CallHandler)))
    case CallHandler =>
      Some(Goto(s.(effects := s.effects + [InitializeErrorHandler]), t, Initialise(InitLeave)))
    case InitLeave =>
      Some(Goto(s.(init := Done), t, Registering))
  }

  /** The state after thread `t` takes a step, or None if it waits or has finished. */
  function Step(s: State, t: nat, r: Result): Option<State>
    requires t < |s.pcs|
  {
    match s.pcs[t]
    case Configure(csv, place) => ConfigureStep(s, t, csv, place, r)
    case Initialise(at) => InitStep(s, t, at)
    case Registering => Some(Goto(s.(effects := s.effects + [Register(t)]), t, Loaded))
    case Loaded => None
    case Threw(_, _) => None
  }

  /** The state after a schedule; a turn given to a thread that cannot step is lost. */
  function Run(n: nat, schedule: seq<(nat, Result)>): (s: State)
    ensures |s.pcs| == n
  {
    if schedule == [] then Initial(n)
    else
      var s, turn := Run(n, schedule[..|schedule| - 1]), schedule[|schedule| - 1];
      Turn(s, turn.0, turn.1)
  }

  function Turn(s: State, t: nat, r: Result): (s': State)
    ensures |s'.pcs| == |s.pcs|
  {
    if t < |s.pcs| && Step(s, t, r).Some? then Step(s, t, r).value else s
  }

  // ---------- the invariant ----------

  /** The configuration ran, once, without failure. */
  predicate Good(cell: Cell) {
    cell == Cell(Done, None, 1)
  }

  predicate GoodBefore(s: State, csv: Csv) {
    csv == Ways ==> Good(s.srid)
  }

  predicate BothGood(s: State) {
    Good(s.srid) && Good(s.ways)
  }

  predicate Active(pc: Pc, csv: Csv) {
    pc.Configure? && pc.csv == csv && pc.place in {ChoosePath, CallSetter, Leave}
  }

  predicate InitActive(pc: Pc) {
    pc.Initialise? && pc.at != InitEnter
  }

  /** What holds of a thread by where it is. */
  ghost predicate ThreadOk(s: State, t: nat)
    requires t < |s.pcs|
  {
    match s.pcs[t]
    case Configure(csv, place) =>
      var cell := CellOf(s, csv);
      && GoodBefore(s, csv)
      && (match place
          case Enter => true
          case ChoosePath => cell == Cell(Running(t), None, 0)
          case CallSetter => cell == Cell(Running(t), None, 0)
          case Leave => cell.once == Running(t) && (cell.failure.None? ==> cell.runs == 1)
          case Check => cell.once == Done)
    case Initialise(at) => BothGood(s) && (at != InitEnter ==> s.init == Running(t))
    case Registering => BothGood(s) && s.init == Done
    case Loaded => BothGood(s) && s.init == Done
    case Threw(csv, e) => GoodBefore(s, csv) && CellOf(s, csv).once == Done && CellOf(s, csv).failure == Some(e)
  }

  ghost predicate CellOk(s: State, csv: Csv) {
    var cell := CellOf(s, csv);
    && cell.runs <= 1
    && match cell.once
       case NotStarted => cell == Cell(NotStarted, None, 0)
       case Running(t) => GoodBefore(s, csv) && t < |s.pcs| && Active(s.pcs[t], csv)
       case Done => GoodBefore(s, csv) && (cell.failure.None? ==> cell.runs == 1)
  }

  ghost predicate InitOk(s: State) {
    match s.init
    case NotStarted => true
    case Running(t) => BothGood(s) && t < |s.pcs| && InitActive(s.pcs[t])
    case Done => BothGood(s)
  }

  /** The effects of one load on its own. */
  const SETUP: seq<Effect> := [SetCsv(Srid), SetCsv(Ways), Initialize, InitializeTimezone, InitializeErrorHandler]

  /** How much of the set-up has been done. */
  ghost function Progress(s: State): nat
    requires InitOk(s)
  {
    match s.init
    case NotStarted => s.srid.runs + s.ways.runs
    case Running(t) =>
      (match s.pcs[t].at
       case CallInitialize => 2
       case CallTimezone => 3
       case CallHandler => 4
       case InitLeave => 5)
    case Done => 5
  }

  /** The effects are the set-up so far, in order, and registrations only once it is complete. */
  ghost predicate EffectsOk(s: State)
    requires InitOk(s)
  {
    var p := Progress(s);
    && p <= |SETUP|
    && p <= |s.effects|
    && s.effects[..p] == SETUP[..p]
    && (p < |SETUP| || s.init != Done ==> |s.effects| == p)
    && forall i :: p <= i < |s.effects| ==> s.effects[i].Register?
  }

  ghost predicate Inv(s: State) {
    && (forall t :: 0 <= t < |s.pcs| ==> ThreadOk(s, t))
    && CellOk(s, Srid)
    && CellOk(s, Ways)
    && InitOk(s)
    && EffectsOk(s)
  }

  lemma InitialInv(n: nat)
    ensures Inv(Initial(n))
  {
  }

  /** While a configuration runs, nothing after it has started. */
  lemma RunningIsLast(s: State, csv: Csv)
    requires CellOk(s, Srid) && CellOk(s, Ways) && InitOk(s) && CellOf(s, csv).once.Running?
    ensures s.init == NotStarted && (csv == Srid ==> s.ways.once == NotStarted)
  {
  }

  lemma {:induction false} ConfigureKeepsThread(s: State, t: nat, r: Result, u: nat)
    requires CellOk(s, Srid) && CellOk(s, Ways) && InitOk(s)
    requires t < |s.pcs| && u < |s.pcs| && ThreadOk(s, t) && ThreadOk(s, u)
    requires s.pcs[t].Configure? && Step(s, t, r).Some?
    ensures ThreadOk(Step(s, t, r).value, u)
  {
    var csv := s.pcs[t].csv;
    if CellOf(s, csv).once.Running? {
      RunningIsLast(s, csv);
    }
  }

  lemma {:induction false} ConfigureKeepsCells(s: State, t: nat, r: Result)
    requires CellOk(s, Srid) && CellOk(s, Ways) && InitOk(s)
    requires t < |s.pcs| && ThreadOk(s, t) && s.pcs[t].Configure? && Step(s, t, r).Some?
    ensures var s' := Step(s, t, r).value; CellOk(s', Srid) && CellOk(s', Ways) && InitOk(s')
  {
    var csv := s.pcs[t].csv;
    if CellOf(s, csv).once.Running? {
      RunningIsLast(s, csv);
    }
  }

  lemma {:induction false} ConfigureKeepsEffects(s: State, t: nat, r: Result)
    requires CellOk(s, Srid) && CellOk(s, Ways) && InitOk(s) && EffectsOk(s)
    requires t < |s.pcs| && ThreadOk(s, t) && s.pcs[t].Configure? && Step(s, t, r).Some?
    requires InitOk(Step(s, t, r).value)
    ensures EffectsOk(Step(s, t, r).value)
  {
    var csv, s' := s.pcs[t].csv, Step(s, t, r).value;
    if s.pcs[t].place == CallSetter {
      RunningIsLast(s, csv);
      assert Progress(s') == Progress(s) + 1 && s'.effects == s.effects + [SETUP[Progress(s)]];
      SetupGrows(s.effects);
    } else {
      assert s'.effects == s.effects && s'.init == s.init;
      assert Progress(s') == Progress(s);
    }
  }

  lemma SetupGrows(effects: seq<Effect>)
    requires |effects| < |SETUP| && effects == SETUP[..|effects|]
    ensures effects + [SETUP[|effects|]] == SETUP[..|effects| + 1]
  {
  }

  lemma SamePlaces(s: State, t: nat, r: Result)
    requires t < |s.pcs| && Step(s, t, r).Some?
    ensures |Step(s, t, r).value.pcs| == |s.pcs|
  {
  }

  lemma ConfigureKeeps(s: State, t: nat, r: Result)
    requires Inv(s) && t < |s.pcs| && s.pcs[t].Configure? && Step(s, t, r).Some?
    ensures Inv(Step(s, t, r).value)
  {
    assert ThreadOk(s, t);
    var s' := Step(s, t, r).value;
    SamePlaces(s, t, r);
    hide ThreadOk, CellOk, InitOk, EffectsOk, Step;
    ConfigureKeepsCells(s, t, r);
    ConfigureKeepsEffects(s, t, r);
    forall u | 0 <= u < |s'.pcs| ensures ThreadOk(s', u) {
      ConfigureKeepsThread(s, t, r, u);
    }
  }

  lemma InitKeepsThread(s: State, t: nat, r: Result, u: nat)
    requires InitOk(s) && t < |s.pcs| && u < |s.pcs| && ThreadOk(s, t) && ThreadOk(s, u)
    requires !s.pcs[t].Configure? && Step(s, t, r).Some?
    ensures ThreadOk(Step(s, t, r).value, u)
  {
  }

  lemma InitKeepsCells(s: State, t: nat, r: Result)
    requires CellOk(s, Srid) && CellOk(s, Ways) && InitOk(s)
    requires t < |s.pcs| && ThreadOk(s, t) && !s.pcs[t].Configure? && Step(s, t, r).Some?
    ensures var s' := Step(s, t, r).value; CellOk(s', Srid) && CellOk(s', Ways) && InitOk(s')
  {
  }

  lemma InitKeepsEffects(s: State, t: nat, r: Result)
    requires InitOk(s) && EffectsOk(s)
    requires t < |s.pcs| && ThreadOk(s, t) && !s.pcs[t].Configure? && Step(s, t, r).Some?
    requires InitOk(Step(s, t, r).value)
    ensures EffectsOk(Step(s, t, r).value)
  {
    var s', p := Step(s, t, r).value, Progress(s);
    if s.pcs[t].Initialise? && s.pcs[t].at in {CallInitialize, CallTimezone, CallHandler} {
      assert Progress(s') == p + 1 && s'.effects == s.effects + [SETUP[p]];
      SetupGrows(s.effects);
    } else {
      assert Progress(s') == p;
    }
  }

  lemma {:induction false} InitKeeps(s: State, t: nat, r: Result)
    requires Inv(s) && t < |s.pcs| && !s.pcs[t].Configure? && Step(s, t, r).Some?
    ensures Inv(Step(s, t, r).value)
  {
    assert ThreadOk(s, t);
    var s' := Step(s, t, r).value;
    SamePlaces(s, t, r);
    hide ThreadOk, CellOk, InitOk, EffectsOk, Step;
    InitKeepsCells(s, t, r);
    InitKeepsEffects(s, t, r);
    forall u | 0 <= u < |s'.pcs| ensures ThreadOk(s', u) {
      InitKeepsThread(s, t, r, u);
    }
  }

  /** Every state that any interleaving of any number of threads reaches keeps the invariant. */
  lemma {:induction false} Reached(n: nat, schedule: seq<(nat, Result)>)
    ensures Inv(Run(n, schedule))
  {
    if schedule == [] {
      InitialInv(n);
    } else {
      hide Inv, Step;
      var s, turn := Run(n, schedule[..|schedule| - 1]), schedule[|schedule| - 1];
      Reached(n, schedule[..|schedule| - 1]);
      if turn.0 < |s.pcs| && Step(s, turn.0, turn.1).Some? {
        if s.pcs[turn.0].Configure? {
          ConfigureKeeps(s, turn.0, turn.1);
        } else {
          InitKeeps(s, turn.0, turn.1);
        }
      }
    }
  }

  // ---------- the turns at which a call throws ----------

  /** Turn `i` of the schedule finds its thread at `place` in the function of `csv`, and what it calls there has the result `r`. */
  ghost predicate TurnAt(n: nat, schedule: seq<(nat, Result)>, i: nat, csv: Csv, place: Place, r: Result) {
    && i < |schedule|
    && schedule[i].0 < n
    && Run(n, schedule[..i]).pcs[schedule[i].0] == Configure(csv, place)
    && schedule[i].1 == r
  }

  /** At some turn the choice of the path or the setter of `csv` threw `e`. */
  ghost predicate CallThrew(n: nat, schedule: seq<(nat, Result)>, csv: Csv, e: nat) {
    exists i, place :: place in {ChoosePath, CallSetter} && TurnAt(n, schedule, i, csv, place, Throws(e))
  }

  /** A turn of a longer schedule is one of the schedule before, or the last one. */
  lemma TurnsGrow(n: nat, schedule: seq<(nat, Result)>, i: nat, csv: Csv, place: Place, r: Result)
    requires schedule != []
    ensures var last := |schedule| - 1;
      TurnAt(n, schedule, i, csv, place, r) <==>
        || TurnAt(n, schedule[..last], i, csv, place, r)
        || (i == last && schedule[i].0 < n && Run(n, schedule[..i]).pcs[schedule[i].0] == Configure(csv, place) && schedule[i].1 == r)
  {
    hide Run;
    var last := |schedule| - 1;
    assert i < last ==> schedule[..last][..i] == schedule[..i];
  }

  lemma ThrewBefore(n: nat, schedule: seq<(nat, Result)>, csv: Csv, e: nat)
    requires schedule != []
    ensures var last := |schedule| - 1;
      var (t, r) := schedule[last];
      CallThrew(n, schedule, csv, e) <==>
        || CallThrew(n, schedule[..last], csv, e)
        || (t < n && Run(n, schedule[..last]).pcs[t] in {Configure(csv, ChoosePath), Configure(csv, CallSetter)} && r == Throws(e))
  {
    hide Run, TurnAt;
    var last := |schedule| - 1;
    forall i: nat, place ensures TurnAt(n, schedule, i, csv, place, Throws(e)) <==>
        || TurnAt(n, schedule[..last], i, csv, place, Throws(e))
        || (i == last && schedule[i].0 < n && Run(n, schedule[..i]).pcs[schedule[i].0] == Configure(csv, place) && schedule[i].1 == Throws(e))
    {
      TurnsGrow(n, schedule, i, csv, place, Throws(e));
    }
  }

  /** A step stores a failure exactly where a call throws, and then none was stored before. */
  lemma StepStores(s: State, t: nat, r: Result, csv: Csv)
    requires t < |s.pcs| && ThreadOk(s, t)
    ensures var calls := s.pcs[t] in {Configure(csv, ChoosePath), Configure(csv, CallSetter)};
      && (calls ==> CellOf(s, csv).failure.None?)
      && CellOf(Turn(s, t, r), csv).failure == if calls && r.Throws? then Some(r.failure) else CellOf(s, csv).failure
  {
  }

  /** The stored failure is what a call threw, and what a call threw is stored from that turn on. */
  lemma {:induction false} ThrowIsStored(n: nat, schedule: seq<(nat, Result)>, csv: Csv, e: nat)
    ensures CellOf(Run(n, schedule), csv).failure == Some(e) <==> CallThrew(n, schedule, csv, e)
  {
    if schedule == [] {
    } else {
      var last := |schedule| - 1;
      var s, turn := Run(n, schedule[..last]), schedule[last];
      ThrowIsStored(n, schedule[..last], csv, e);
      ThrewBefore(n, schedule, csv, e);
      Reached(n, schedule[..last]);
      assert turn.0 < n ==> ThreadOk(s, turn.0);
      hide Inv, ThreadOk, Step, CallThrew;
      if turn.0 < n {
        StepStores(s, turn.0, turn.1, csv);
      }
    }
  }

  /** The effect a step has, if any. */
  function EffectOf(s: State, t: nat): seq<Effect>
    requires t < |s.pcs|
  {
    match s.pcs[t]
    case Configure(csv, CallSetter) => [SetCsv(csv)]
    case Initialise(CallInitialize) => [Initialize]
    case Initialise(CallTimezone) => [InitializeTimezone]
    case Initialise(CallHandler) => [InitializeErrorHandler]
    case Registering => [Register(t)]
    case _ => []
  }

  lemma StepSets(s: State, t: nat, r: Result, csv: Csv)
    requires t < |s.pcs|
    ensures Turn(s, t, r).effects == s.effects + EffectOf(s, t)
    ensures CellOf(Turn(s, t, r), csv).runs == CellOf(s, csv).runs + if s.pcs[t] == Configure(csv, CallSetter) then 1 else 0
  {
  }

  lemma EffectsCount(effects: seq<Effect>, more: seq<Effect>, e: Effect)
    ensures multiset(effects + more)[e] == multiset(effects)[e] + multiset(more)[e]
  {
  }

  lemma {:induction false} StepCounts(s: State, t: nat, r: Result, csv: Csv)
    requires t < |s.pcs|
    ensures var s', more := Turn(s, t, r), if s.pcs[t] == Configure(csv, CallSetter) then 1 else 0;
      && CellOf(s', csv).runs == CellOf(s, csv).runs + more
      && multiset(s'.effects)[SetCsv(csv)] == multiset(s.effects)[SetCsv(csv)] + more
  {
    StepSets(s, t, r, csv);
    assert multiset(EffectOf(s, t))[SetCsv(csv)] == if s.pcs[t] == Configure(csv, CallSetter) then 1 else 0;
    hide *;
    EffectsCount(s.effects, EffectOf(s, t), SetCsv(csv));
  }

  /** The setter of `csv` was called at some turn. */
  ghost predicate SetterCalled(n: nat, schedule: seq<(nat, Result)>, csv: Csv) {
    exists i, r :: TurnAt(n, schedule, i, csv, CallSetter, r)
  }

  lemma CalledBefore(n: nat, schedule: seq<(nat, Result)>, csv: Csv)
    requires schedule != []
    ensures var last := |schedule| - 1;
      SetterCalled(n, schedule, csv) <==>
        || SetterCalled(n, schedule[..last], csv)
        || (schedule[last].0 < n && Run(n, schedule[..last]).pcs[schedule[last].0] == Configure(csv, CallSetter))
  {
    hide Run, TurnAt;
    var last := |schedule| - 1;
    forall i: nat, r ensures TurnAt(n, schedule, i, csv, CallSetter, r) <==>
        || TurnAt(n, schedule[..last], i, csv, CallSetter, r)
        || (i == last && schedule[i].0 < n && Run(n, schedule[..i]).pcs[schedule[i].0] == Configure(csv, CallSetter) && schedule[i].1 == r)
    {
      TurnsGrow(n, schedule, i, csv, CallSetter, r);
    }
    if schedule[last].0 < n && Run(n, schedule[..last]).pcs[schedule[last].0] == Configure(csv, CallSetter) {
      assert TurnAt(n, schedule, last, csv, CallSetter, schedule[last].1);
    }
  }

  /** How often the setter was called is what `runs` counts and what can be seen of it. */
  lemma {:induction false} SetterIsCounted(n: nat, schedule: seq<(nat, Result)>, csv: Csv)
    ensures var s := Run(n, schedule);
      && CellOf(s, csv).runs == multiset(s.effects)[SetCsv(csv)]
      && (CellOf(s, csv).runs > 0 <==> SetterCalled(n, schedule, csv))
  {
    if schedule == [] {
    } else {
      var last := |schedule| - 1;
      SetterIsCounted(n, schedule[..last], csv);
      CalledBefore(n, schedule, csv);
      hide Step, SetterCalled;
      if schedule[last].0 < n {
        StepCounts(Run(n, schedule[..last]), schedule[last].0, schedule[last].1, csv);
      }
    }
  }

  /** Where the choice of the path threw, the setter is never called. */
  lemma {:induction false} NoPathNoSetter(n: nat, schedule: seq<(nat, Result)>, csv: Csv, i: nat, e: nat)
    requires TurnAt(n, schedule, i, csv, ChoosePath, Throws(e))
    ensures CellOf(Run(n, schedule), csv).runs == 0 && !SetterCalled(n, schedule, csv)
  {
    var last := |schedule| - 1;
    var s, turn := Run(n, schedule[..last]), schedule[last];
    SetterIsCounted(n, schedule, csv);
    Reached(n, schedule[..last]);
    assert turn.0 < n ==> ThreadOk(s, turn.0);
    if i == last {
      assert CellOf(s, csv).runs == 0;
    } else {
      TurnsGrow(n, schedule, i, csv, ChoosePath, Throws(e));
      NoPathNoSetter(n, schedule[..last], csv, i, e);
      assert CallThrew(n, schedule[..last], csv, e);
      ThrowIsStored(n, schedule[..last], csv, e);
    }
    hide Inv, Step, CallThrew, SetterCalled, TurnAt;
    if turn.0 < n {
      StepCounts(s, turn.0, turn.1, csv);
    }
  }

  // ---------- safety ----------

  /** A thread has left the configure function of `csv`, by returning or by throwing. */
  ghost predicate HasLeft(pc: Pc, csv: Csv) {
    match pc
    case Configure(c, _) => csv == Srid && c == Ways
    case Initialise(_) => true
    case Registering => true
    case Loaded => true
    case Threw(c, _) => c == csv || csv == Srid
  }

  predicate ThrewFrom(pc: Pc, csv: Csv) {
    pc.Threw? && pc.csv == csv
  }

  /** The setter of `csv` was called, and neither it nor the choice of the path threw. */
  ghost predicate Configured(n: nat, schedule: seq<(nat, Result)>, csv: Csv) {
    SetterCalled(n, schedule, csv) && forall e :: !CallThrew(n, schedule, csv, e)
  }

  lemma {:induction false} GoodIsConfigured(n: nat, schedule: seq<(nat, Result)>, csv: Csv)
    requires Good(CellOf(Run(n, schedule), csv))
    ensures Configured(n, schedule, csv)
  {
    hide Run, SetterCalled, CallThrew;
    SetterIsCounted(n, schedule, csv);
    forall e: nat ensures !CallThrew(n, schedule, csv, e) {
      ThrowIsStored(n, schedule, csv, e);
    }
  }

  /**
   * The setter of each CSV runs at most once, and no thread leaves its configure function before the one
   * execution has finished: by throwing what a call of that execution threw, or normally if none threw.
   */
  lemma {:induction false} ConfiguredOnce(n: nat, schedule: seq<(nat, Result)>, csv: Csv, t: nat)
    requires t < n
    ensures var s := Run(n, schedule);
      && CellOf(s, csv).runs <= 1
      && (HasLeft(s.pcs[t], csv) ==>
            && CellOf(s, csv).once == Done
            && if ThrewFrom(s.pcs[t], csv) then CallThrew(n, schedule, csv, s.pcs[t].failure)
               else Configured(n, schedule, csv))
  {
    Reached(n, schedule);
    var s := Run(n, schedule);
    assert ThreadOk(s, t);
    hide CallThrew, Configured, Run;
    if ThrewFrom(s.pcs[t], csv) {
      ThrowIsStored(n, schedule, csv, s.pcs[t].failure);
    } else if HasLeft(s.pcs[t], csv) {
      GoodIsConfigured(n, schedule, csv);
    }
  }

  /**
   * A call that throws decides for all threads: its failure is stored from then on, every thread past the
   * function has thrown it, and the setter is not called where the choice of the path threw.
   */
  lemma {:induction false} ThrowReachesAll(n: nat, schedule: seq<(nat, Result)>, i: nat, csv: Csv, place: Place, e: nat)
    requires place in {ChoosePath, CallSetter} && TurnAt(n, schedule, i, csv, place, Throws(e))
    ensures var s := Run(n, schedule);
      && CellOf(s, csv).failure == Some(e)
      && (forall t :: 0 <= t < n && HasLeft(s.pcs[t], csv) ==> s.pcs[t] == Threw(csv, e))
      && multiset(s.effects)[SetCsv(csv)] == if place == ChoosePath then 0 else 1
  {
    var s := Run(n, schedule);
    Reached(n, schedule);
    assert CallThrew(n, schedule, csv, e);
    ThrowIsStored(n, schedule, csv, e);
    SetterIsCounted(n, schedule, csv);
    assert place == CallSetter ==> SetterCalled(n, schedule, csv);
    if place == ChoosePath {
      NoPathNoSetter(n, schedule, csv, i, e);
    }
    hide CallThrew, SetterCalled, Run, TurnAt;
    forall t | 0 <= t < n && HasLeft(s.pcs[t], csv) ensures s.pcs[t] == Threw(csv, e) {
      assert ThreadOk(s, t);
    }
  }

  /** All threads that leave a configure function leave it alike: all normally, or all with the one stored failure. */
  lemma {:induction false} SameOutcome(n: nat, schedule: seq<(nat, Result)>, csv: Csv, t: nat, u: nat)
    requires t < n && u < n
    requires HasLeft(Run(n, schedule).pcs[t], csv) && HasLeft(Run(n, schedule).pcs[u], csv)
    ensures var s := Run(n, schedule);
      ThrewFrom(s.pcs[t], csv) || ThrewFrom(s.pcs[u], csv) ==> s.pcs[t] == s.pcs[u]
  {
    Reached(n, schedule);
    assert ThreadOk(Run(n, schedule), t);
    assert ThreadOk(Run(n, schedule), u);
  }

  /**
   * Whatever the interleaving, what the threads do together is what one thread alone does:
   * a prefix of the set-up in order, each step once, and registrations only after all of it.
   */
  lemma {:induction false} EffectsInOrder(n: nat, schedule: seq<(nat, Result)>)
    ensures var effects, setup := Run(n, schedule).effects, [SetCsv(Srid), SetCsv(Ways), Initialize, InitializeTimezone, InitializeErrorHandler];
      forall i :: 0 <= i < |effects| ==> if i < 5 then effects[i] == setup[i] else effects[i].Register?
  {
    Reached(n, schedule);
    var s := Run(n, schedule);
    var p := Progress(s);
    forall i | 0 <= i < |s.effects|
      ensures if i < |SETUP| then s.effects[i] == SETUP[i] else s.effects[i].Register?
    {
      if i < p {
        assert s.effects[..p][i] == SETUP[..p][i];
      }
    }
  }

  ghost predicate BothConfigured(n: nat, schedule: seq<(nat, Result)>) {
    Configured(n, schedule, Srid) && Configured(n, schedule, Ways)
  }

  /** MEOS is initialised only if both configurations completed without failure. */
  lemma {:induction false} InitialisedOnlyIfConfigured(n: nat, schedule: seq<(nat, Result)>)
    ensures Initialize in Run(n, schedule).effects ==> BothConfigured(n, schedule)
  {
    Reached(n, schedule);
    var s := Run(n, schedule);
    var p := Progress(s);
    forall i | 0 <= i < |s.effects| && p <= 2 ensures s.effects[i] != Initialize {
      assert i < p ==> s.effects[i] == s.effects[..p][i] == SETUP[..p][i] == SETUP[i];
    }
    hide Run, Configured;
    if BothGood(s) {
      GoodIsConfigured(n, schedule, Srid);
      GoodIsConfigured(n, schedule, Ways);
    }
  }

  /** If a call of a configuration threw, no thread ever reaches a registration. */
  lemma {:induction false} NothingRegisteredAfterFailure(n: nat, schedule: seq<(nat, Result)>, csv: Csv, e: nat)
    requires CallThrew(n, schedule, csv, e)
    ensures var s := Run(n, schedule);
      && Initialize !in s.effects
      && (forall i :: 0 <= i < |s.effects| ==> !s.effects[i].Register?)
      && forall t :: 0 <= t < n ==> s.pcs[t] != Registering && s.pcs[t] != Loaded
  {
    hide CallThrew;
    Reached(n, schedule);
    ThrowIsStored(n, schedule, csv, e);
    InitialisedOnlyIfConfigured(n, schedule);
    EffectsInOrder(n, schedule);
    var s := Run(n, schedule);
    forall t | 0 <= t < n ensures s.pcs[t] != Registering && s.pcs[t] != Loaded {
      assert ThreadOk(s, t);
    }
  }

  // ---------- registrations ----------

  /** A thread has registered once when it is loaded, and not at all before. */
  ghost predicate RegisteredOnce(s: State) {
    forall t: nat :: multiset(s.effects)[Register(t)] == if t < |s.pcs| && s.pcs[t] == Loaded then 1 else 0
  }

  lemma OneMoreEffect(effects: seq<Effect>, e: Effect)
    ensures multiset(effects + [e]) == multiset(effects) + multiset{e}
  {
  }

  /** A step moves one thread, which was not loaded, and loads it exactly when it registers it. */
  ghost predicate StepOf(s: State, t: nat, s': State) {
    && t < |s.pcs| == |s'.pcs|
    && s.pcs[t] != Loaded
    && s'.pcs == s.pcs[t := s'.pcs[t]]
    && if s'.pcs[t] == Loaded then s'.effects == s.effects + [Register(t)]
       else s'.effects == s.effects || exists e: Effect :: !e.Register? && s'.effects == s.effects + [e]
  }

  lemma StepIsStepOf(s: State, t: nat, r: Result)
    requires t < |s.pcs| && Step(s, t, r).Some?
    ensures StepOf(s, t, Step(s, t, r).value)
  {
    var s' := Step(s, t, r).value;
    if s'.pcs[t] != Loaded && s'.effects != s.effects {
      assert !s'.effects[|s.effects|].Register? && s'.effects == s.effects + [s'.effects[|s.effects|]];
    }
  }

  lemma StepRegisters(s: State, t: nat, s': State)
    requires RegisteredOnce(s) && StepOf(s, t, s')
    ensures RegisteredOnce(s')
  {
    if s'.pcs[t] == Loaded {
      OneMoreEffect(s.effects, Register(t));
    } else if s'.effects != s.effects {
      var e: Effect :| !e.Register? && s'.effects == s.effects + [e];
      OneMoreEffect(s.effects, e);
    }
  }

  /** In every reachable state the loaded threads have registered once each, and no others have. */
  lemma {:induction false} RegistersOnce(n: nat, schedule: seq<(nat, Result)>)
    ensures RegisteredOnce(Run(n, schedule))
  {
    hide Step, StepOf, RegisteredOnce;
    if schedule == [] {
      NothingRegistered(n);
    } else {
      var s, turn := Run(n, schedule[..|schedule| - 1]), schedule[|schedule| - 1];
      RegistersOnce(n, schedule[..|schedule| - 1]);
      if turn.0 < |s.pcs| && Step(s, turn.0, turn.1).Some? {
        StepIsStepOf(s, turn.0, turn.1);
        StepRegisters(s, turn.0, Step(s, turn.0, turn.1).value);
      }
    }
  }

  lemma NothingRegistered(n: nat)
    ensures RegisteredOnce(Initial(n))
  {
  }

  // ---------- progress ----------

  predicate Finished(pc: Pc) {
    pc.Loaded? || pc.Threw?
  }

  /** How many steps a thread may still take. */
  function Remaining(pc: Pc): nat {
    match pc
    case Configure(csv, place) =>
      (if csv == Srid then 12 else 7) + (match place
       case Enter => 5
       case ChoosePath => 4
       case CallSetter => 3
       case Leave => 2
       case Check => 1)
    case Initialise(at) => 1 + (match at
       case InitEnter => 5
       case CallInitialize => 4
       case CallTimezone => 3
       case CallHandler => 2
       case InitLeave => 1)
    case Registering => 1
    case Loaded => 0
    case Threw(_, _) => 0
  }

  function AllRemaining(pcs: seq<Pc>): nat {
    if pcs == [] then 0 else AllRemaining(pcs[..|pcs| - 1]) + Remaining(pcs[|pcs| - 1])
  }

  lemma {:induction false} RemainingAfter(pcs: seq<Pc>, t: nat, pc: Pc)
    requires t < |pcs|
    ensures AllRemaining(pcs[t := pc]) == AllRemaining(pcs) - Remaining(pcs[t]) + Remaining(pc)
  {
    hide Remaining;
    var init, last := pcs[..|pcs| - 1], pcs[|pcs| - 1];
    if t == |pcs| - 1 {
      assert pcs[t := pc][..t] == init;
    } else {
      RemainingAfter(init, t, pc);
      assert pcs[t := pc][..|pcs| - 1] == init[t := pc];
    }
  }

  /** Every step uses up one of the steps its thread may take, so no schedule makes the threads step for ever. */
  lemma StepUsesUp(s: State, t: nat, r: Result)
    requires t < |s.pcs| && Step(s, t, r).Some?
    ensures AllRemaining(Step(s, t, r).value.pcs) < AllRemaining(s.pcs)
  {
    var pc := Step(s, t, r).value.pcs[t];
    assert Step(s, t, r).value.pcs == s.pcs[t := pc];
    assert Remaining(pc) < Remaining(s.pcs[t]);
    RemainingAfter(s.pcs, t, pc);
  }

  /** A waiting thread waits for a thread that can step: there is no deadlock. */
  lemma NoDeadlock(s: State, r: Result) returns (t: nat)
    requires Inv(s) && exists u :: 0 <= u < |s.pcs| && !Finished(s.pcs[u])
    ensures t < |s.pcs| && Step(s, t, r).Some?
  {
    var u :| 0 <= u < |s.pcs| && !Finished(s.pcs[u]);
    assert ThreadOk(s, u);
    t := u;
    if Step(s, u, r).None? {
      if s.pcs[u].Configure? {
        t := CellOf(s, s.pcs[u].csv).once.thread;
      } else {
        t := s.init.thread;
      }
    }
  }

  ghost predicate AllFinished(s: State) {
    forall t :: 0 <= t < |s.pcs| ==> Finished(s.pcs[t])
  }

  lemma RunOneMore(n: nat, schedule: seq<(nat, Result)>, turn: (nat, Result))
    ensures Run(n, schedule + [turn]) == Turn(Run(n, schedule), turn.0, turn.1)
  {
    hide Turn;
    assert (schedule + [turn])[..|schedule|] == schedule;
  }

  lemma {:induction false} NextTurn(n: nat, schedule: seq<(nat, Result)>, r: Result) returns (t: nat)
    requires !AllFinished(Run(n, schedule))
    ensures AllRemaining(Run(n, schedule + [(t, r)]).pcs) < AllRemaining(Run(n, schedule).pcs)
  {
    var s := Run(n, schedule);
    Reached(n, schedule);
    hide Inv, Step, Finished;
    t := NoDeadlock(s, r);
    RunOneMore(n, schedule, (t, r));
    StepUsesUp(s, t, r);
  }

  /** From every reachable state the threads can be scheduled to their end, however the calls go. */
  lemma {:induction false} CanFinish(n: nat, schedule: seq<(nat, Result)>, results: nat -> Result)
    returns (more: seq<(nat, Result)>)
    ensures schedule <= more && |more| <= |schedule| + AllRemaining(Run(n, schedule).pcs)
    ensures forall i :: |schedule| <= i < |more| ==> more[i].1 == results(i)
    ensures AllFinished(Run(n, more))
    decreases AllRemaining(Run(n, schedule).pcs)
  {
    hide *;
    if AllFinished(Run(n, schedule)) {
      more := schedule;
    } else {
      var r := results(|schedule|);
      var t := NextTurn(n, schedule, r);
      more := CanFinish(n, schedule + [(t, r)], results);
    }
  }

  /** Every thread is loaded, and the effects are the set-up followed by one registration of each thread. */
  ghost predicate AllLoaded(s: State) {
    && BothGood(s)
    && |s.effects| >= |SETUP|
    && s.effects[..|SETUP|] == SETUP
    && (forall i :: |SETUP| <= i < |s.effects| ==> s.effects[i].Register?)
    && (forall t: nat :: multiset(s.effects)[Register(t)] == if t < |s.pcs| then 1 else 0)
    && forall t :: 0 <= t < |s.pcs| ==> s.pcs[t] == Loaded
  }

  /** Every thread threw `failure` from the function of `csv`, and nothing was initialised or registered. */
  ghost predicate AllThrew(s: State, csv: Csv, failure: nat) {
    && (forall i :: 0 <= i < |s.effects| ==> s.effects[i] != Initialize && !s.effects[i].Register?)
    && forall t :: 0 <= t < |s.pcs| ==> s.pcs[t] == Threw(csv, failure)
  }

  /**
   * When all threads have finished, either no call of a configuration threw and every thread is loaded after
   * one complete set-up, each with one registration; or a call threw, every thread threw the same, and nothing
   * was initialised or registered.
   */
  lemma {:induction false} FinalOutcome(n: nat, schedule: seq<(nat, Result)>)
    requires n > 0 && AllFinished(Run(n, schedule))
    ensures var s := Run(n, schedule);
      if BothConfigured(n, schedule) then AllLoaded(s)
      else exists csv, e :: CallThrew(n, schedule, csv, e) && AllThrew(s, csv, e)
  {
    Reached(n, schedule);
    var s := Run(n, schedule);
    FinishedAlike(s);
    hide CallThrew, SetterCalled, Run;
    if s.pcs[0].Threw? {
      var csv, e := s.pcs[0].csv, s.pcs[0].failure;
      ThrowIsStored(n, schedule, csv, e);
      NothingRegisteredAfterFailure(n, schedule, csv, e);
      assert AllThrew(s, csv, e) && !Configured(n, schedule, csv);
    } else {
      RegistersOnce(n, schedule);
      EffectsInOrder(n, schedule);
      SetUpDone(s);
      GoodIsConfigured(n, schedule, Srid);
      GoodIsConfigured(n, schedule, Ways);
    }
  }

  lemma FinishedAlike(s: State)
    requires Inv(s) && AllFinished(s) && |s.pcs| > 0
    ensures forall t :: 0 <= t < |s.pcs| ==> s.pcs[t] == s.pcs[0]
    ensures s.pcs[0].Threw? ==> CellOf(s, s.pcs[0].csv).failure == Some(s.pcs[0].failure)
    ensures !s.pcs[0].Threw? ==> s.pcs[0] == Loaded
  {
    assert ThreadOk(s, 0) && Finished(s.pcs[0]);
    forall t | 0 <= t < |s.pcs| ensures s.pcs[t] == s.pcs[0] {
      assert ThreadOk(s, t) && Finished(s.pcs[t]);
    }
  }

  lemma SetUpDone(s: State)
    requires Inv(s) && |s.pcs| > 0 && s.pcs[0] == Loaded
    ensures BothGood(s) && |s.effects| >= |SETUP| && s.effects[..|SETUP|] == SETUP
  {
    assert ThreadOk(s, 0);
    assert Progress(s) == 5;
    assert SETUP[..5] == SETUP;
  }
}

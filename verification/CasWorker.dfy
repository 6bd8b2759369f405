/** Local content reads on a bounded worker: one atomic race between starting
    and cancelling, and four permit pools over any number of scopes. */
module CasWorker {

  const LOCAL_OUTSTANDING: nat := 16
  const LOCAL_RUNNING: nat := 2
  const PROCESS_OUTSTANDING: nat := 64
  const PROCESS_RUNNING: nat := 4

  datatype Pool = LocalOutstanding(scope: nat) | LocalRunning(scope: nat) | ProcessOutstanding | ProcessRunning

  function Capacity(p: Pool): nat {
    match p
    case LocalOutstanding(_) => LOCAL_OUTSTANDING
    case LocalRunning(_) => LOCAL_RUNNING
    case ProcessOutstanding => PROCESS_OUTSTANDING
    case ProcessRunning => PROCESS_RUNNING
  }

  /** The shared byte. */
  datatype Atom = Pending | Running | Cancelled | Finished

  /** How far a request has come. Up to `Ready` it is the caller's future; from
      `Spawned` on it is a job of its own, which a departing caller leaves
      behind. */
  datatype Phase = Entering | Queued | HasLocal | Ready | Spawned | Won | Skipped | Worked | Gone

  datatype Job = Job(scope: nat, phase: Phase, atom: Atom, caller: bool, held: set<Pool>, runs: nat, cancelWon: bool)

  datatype State = State(jobs: map<nat, Job>, free: map<Pool, nat>)

  const INITIAL := State(map[], map[])

  function Free(s: State, p: Pool): nat {
    if p in s.free then s.free[p] else Capacity(p)
  }

  /** What a request holds in each phase. */
  function PermitsOf(scope: nat, phase: Phase): set<Pool> {
    match phase
    case Gone => {}
    case Entering => {LocalOutstanding(scope)}
    case Queued => {LocalOutstanding(scope), ProcessOutstanding}
    case HasLocal => {LocalOutstanding(scope), ProcessOutstanding, LocalRunning(scope)}
    case _ => {LocalOutstanding(scope), ProcessOutstanding, LocalRunning(scope), ProcessRunning}
  }

  predicate Dispatched(phase: Phase) {
    phase == Spawned || phase == Won || phase == Skipped || phase == Worked
  }

  function HeldBy(s: State, j: nat): set<Pool> {
    if j in s.jobs then s.jobs[j].held else {}
  }

  /** Replace one job; its acquired and released permits move. */
  function Put(s: State, j: nat, job: Job): State
    requires forall p :: p in job.held - HeldBy(s, j) ==> Free(s, p) > 0
  {
    State(s.jobs[j := job],
          map p | p in s.free.Keys + HeldBy(s, j) + job.held ::
            Free(s, p) + (if p in HeldBy(s, j) then 1 else 0) - (if p in job.held then 1 else 0))
  }

  function To(job: Job, phase: Phase): Job {
    job.(phase := phase, held := PermitsOf(job.scope, phase))
  }

  // -------------------------------------------------------------------------- steps

  datatype Action =
    | Arrive(scope: nat)      // takes the scope's outstanding permit, or is refused
    | Admit                   // takes the process-wide outstanding permit
    | Refuse                  // finds none and gives the first back
    | TakeLocal | TakeProcess // the execution slots, in this order
    | Reject                  // access was lost while waiting
    | Dispatch
    | Depart                  // the caller's future is dropped
    | Start                   // the worker picks the job up
    | Deny                    // access was lost before the work
    | Work
    | Destroy                 // the job ends, by return or panic
    | Discard                 // the runtime drops an unstarted job

  /** Where a job must be for a step. */
  predicate Fits(job: Job, a: Action) {
    match a
    case Arrive(_) => false
    case Admit => job.phase == Entering
    case Refuse => job.phase == Entering
    case TakeLocal => job.phase == Queued
    case TakeProcess => job.phase == HasLocal
    case Reject => job.phase == Ready
    case Dispatch => job.phase == Ready
    case Depart => job.caller && job.phase != Entering
    case Start => job.phase == Spawned
    case Deny => job.phase == Won
    case Work => job.phase == Won
    case Destroy => job.phase == Skipped || job.phase == Worked
    case Discard => job.phase == Spawned
  }

  /** And which permit it must find, or not find. */
  predicate Finds(s: State, scope: nat, a: Action) {
    match a
    case Arrive(_) => Free(s, LocalOutstanding(scope)) > 0
    case Admit => Free(s, ProcessOutstanding) > 0
    case Refuse => Free(s, ProcessOutstanding) == 0
    case TakeLocal => Free(s, LocalRunning(scope)) > 0
    case TakeProcess => Free(s, ProcessRunning) > 0
    case _ => true
  }

  predicate Enabled(s: State, j: nat, a: Action) {
    if a.Arrive? then j !in s.jobs && Finds(s, a.scope, a)
    else j in s.jobs && Fits(s.jobs[j], a) && Finds(s, s.jobs[j].scope, a)
  }

  /** One job after a step. Starting and cancelling are each one compare and
      exchange from `Pending`. */
  function After(job: Job, a: Action): Job
    requires Fits(job, a)
  {
    match a
    case Admit => To(job, Queued)
    case Refuse => To(job, Gone).(caller := false)
    case TakeLocal => To(job, HasLocal)
    case TakeProcess => To(job, Ready)
    case Reject => To(job, Gone).(atom := Finished, caller := false)
    case Dispatch => To(job, Spawned)
    case Depart =>
      var left := job.(caller := false, atom := if job.atom == Pending then Cancelled else job.atom,
                       cancelWon := job.cancelWon || job.atom == Pending);
      if Dispatched(job.phase) then left else To(left, Gone)
    case Start => if job.atom == Pending then To(job, Won).(atom := Running) else To(job, Skipped)
    case Deny => To(job, Skipped)
    case Work => To(job, Worked).(runs := job.runs + 1)
    case Destroy => To(job, Gone).(atom := Finished)
    case Discard => To(job, Gone)
  }

  function NewJob(scope: nat): Job {
    Job(scope, Entering, Pending, true, PermitsOf(scope, Entering), 0, false)
  }

  ghost predicate Holding(job: Job) {
    job.held == PermitsOf(job.scope, job.phase)
  }

  ghost function Result(s: State, j: nat, a: Action): Job
    requires Enabled(s, j, a)
  {
    if a.Arrive? then NewJob(a.scope) else After(s.jobs[j], a)
  }

  /** A step needs no permit beyond the one it found. */
  lemma Affordable(s: State, j: nat, a: Action)
    requires Enabled(s, j, a) && (j in s.jobs ==> Holding(s.jobs[j]))
    ensures forall p :: p in Result(s, j, a).held - HeldBy(s, j) ==> Free(s, p) > 0
  {
  }

  ghost predicate Taken(s: State, t: State, j: nat, a: Action) {
    Enabled(s, j, a) && (j in s.jobs ==> Holding(s.jobs[j])) && PutTo(s, t, j, Result(s, j, a))
  }

  ghost predicate PutTo(s: State, t: State, j: nat, job: Job) {
    (forall p :: p in job.held - HeldBy(s, j) ==> Free(s, p) > 0) && t == Put(s, j, job)
  }

  // --------------------------------------------------------------------- invariants

  /** The work ran at most once, and not if cancelling won; the byte agrees with
      where the job is. */
  ghost predicate JobOk(job: Job) {
    Holding(job) && job.runs <= 1 && (job.cancelWon ==> job.runs == 0 && !job.caller) &&
    match job.phase
    case Gone => job.atom == Pending ==> job.runs == 0
    case Spawned => job.runs == 0 && job.atom == (if job.cancelWon then Cancelled else Pending)
    case Won => job.runs == 0 && !job.cancelWon && job.atom == Running
    case Skipped => job.runs == 0 && job.atom == (if job.cancelWon then Cancelled else Running)
    case Worked => job.runs == 1 && !job.cancelWon && job.atom == Running
    case _ => job.runs == 0 && !job.cancelWon && job.atom == Pending && job.caller
  }

  function Holders(s: State, p: Pool): set<nat> {
    set j | j in s.jobs && p in s.jobs[j].held
  }

  ghost predicate Conserved(s: State) {
    forall p :: Free(s, p) + |Holders(s, p)| == Capacity(p)
  }

  ghost predicate Inv(s: State) {
    Conserved(s) && forall j :: j in s.jobs ==> JobOk(s.jobs[j])
  }

  lemma HoldersPut(s: State, t: State, j: nat, job: Job, p: Pool)
    requires PutTo(s, t, j, job)
    ensures var rest := Holders(s, p) - {j};
            Holders(s, p) == (if p in HeldBy(s, j) then rest + {j} else rest) &&
            Holders(t, p) == (if p in job.held then rest + {j} else rest)
    ensures Free(t, p) == Free(s, p) + (if p in HeldBy(s, j) then 1 else 0) - (if p in job.held then 1 else 0)
  {
  }

  /** A step moves exactly the permits it takes or gives back. */
  lemma PutConserves(s: State, t: State, j: nat, job: Job)
    requires Conserved(s) && PutTo(s, t, j, job)
    ensures Conserved(t)
  {
    forall p ensures Free(t, p) + |Holders(t, p)| == Capacity(p) {
      HoldersPut(s, t, j, job, p);
    }
  }

  lemma AfterOk(job: Job, a: Action)
    requires JobOk(job) && Fits(job, a)
    ensures JobOk(After(job, a))
  {
  }

  lemma TakenKeeps(s: State, t: State, j: nat, a: Action)
    requires Inv(s) && Taken(s, t, j, a)
    ensures Inv(t)
  {
    PutConserves(s, t, j, Result(s, j, a));
    assert JobOk(Result(s, j, a)) by {
      if !a.Arrive? {
        AfterOk(s.jobs[j], a);
      }
    }
    OthersKeep(s, t, j, Result(s, j, a));
  }

  lemma OthersKeep(s: State, t: State, j: nat, job: Job)
    requires PutTo(s, t, j, job) && JobOk(job) && forall i :: i in s.jobs ==> JobOk(s.jobs[i])
    ensures forall i :: i in t.jobs ==> JobOk(t.jobs[i])
  {
  }

  // --------------------------------------------------------------------- whole runs

  ghost predicate Step(s: State, t: State) {
    exists j, a :: Taken(s, t, j, a)
  }

  ghost predicate IsRun(run: seq<State>) {
    run != [] && run[0] == INITIAL && forall i :: 0 <= i < |run| - 1 ==> Step(run[i], run[i + 1])
  }

  /** In every interleaving, at every moment, the invariants hold. */
  lemma {:induction false} EveryRun(run: seq<State>, k: nat)
    requires IsRun(run) && k < |run|
    ensures Inv(run[k])
  {
    if k == 0 {
      forall p ensures Free(INITIAL, p) + |Holders(INITIAL, p)| == Capacity(p) {
        assert Holders(INITIAL, p) == {};
      }
    } else {
      EveryRun(run, k - 1);
      var j, a :| Taken(run[k - 1], run[k], j, a);
      TakenKeeps(run[k - 1], run[k], j, a);
    }
  }

  /** What a job was, it stays: it never leaves the table, a won cancellation and
      a run of the work are never taken back. */
  ghost predicate Persists(s: State, t: State, j: nat) {
    j in s.jobs ==>
      j in t.jobs && (s.jobs[j].cancelWon ==> t.jobs[j].cancelWon) && s.jobs[j].runs <= t.jobs[j].runs &&
      (s.jobs[j].phase == Gone ==> t.jobs[j].phase == Gone)
  }

  lemma AfterPersists(job: Job, a: Action)
    requires Fits(job, a)
    ensures (job.cancelWon ==> After(job, a).cancelWon) && job.runs <= After(job, a).runs
    ensures job.phase == Gone ==> After(job, a).phase == Gone
  {
  }

  lemma TakenPersists(s: State, t: State, j: nat, h: nat, a: Action)
    requires Taken(s, t, h, a)
    ensures Persists(s, t, j)
  {
    if h == j && j in s.jobs {
      AfterPersists(s.jobs[j], a);
    }
  }

  lemma {:induction false} RunPersists(run: seq<State>, i: nat, k: nat, j: nat)
    requires IsRun(run) && i <= k < |run|
    ensures Persists(run[i], run[k], j)
  {
    if i < k {
      RunPersists(run, i, k - 1, j);
      var h, a :| Taken(run[k - 1], run[k], h, a);
      TakenPersists(run[k - 1], run[k], j, h, a);
    }
  }

  /** Once cancelling has won, the work never runs, however the run goes on; and
      it never runs twice. */
  lemma NeverAfterCancel(run: seq<State>, i: nat, k: nat, j: nat)
    requires IsRun(run) && i <= k < |run| && j in run[i].jobs
    ensures j in run[k].jobs && run[k].jobs[j].runs <= 1
    ensures run[i].jobs[j].cancelWon ==> run[k].jobs[j].runs == 0
  {
    RunPersists(run, i, k, j);
    EveryRun(run, k);
    assert JobOk(run[k].jobs[j]);
  }

  lemma AfterHolds(job: Job, a: Action)
    requires JobOk(job) && Fits(job, a) && Dispatched(job.phase)
    ensures if a.Destroy? || a.Discard? then After(job, a).phase == Gone else After(job, a).held == job.held && Dispatched(After(job, a).phase)
  {
  }

  /** The job is destroyed, or dispatched and holding all four permits. */
  ghost predicate HoldsOrGone(s: State, j: nat) {
    j in s.jobs && (s.jobs[j].phase == Gone || (Dispatched(s.jobs[j].phase) && s.jobs[j].held == PermitsOf(s.jobs[j].scope, Spawned)))
  }

  lemma HoldsOn(s: State, t: State, j: nat, h: nat, a: Action)
    requires Taken(s, t, h, a) && HoldsOrGone(s, j) && JobOk(s.jobs[j])
    ensures HoldsOrGone(t, j)
  {
    TakenPersists(s, t, j, h, a);
    if h == j && s.jobs[j].phase != Gone {
      AfterHolds(s.jobs[j], a);
      AfterOk(s.jobs[j], a);
    }
  }

  lemma JobOkInRun(run: seq<State>, k: nat, j: nat)
    requires IsRun(run) && k < |run| && j in run[k].jobs
    ensures JobOk(run[k].jobs[j])
  {
    EveryRun(run, k);
  }

  /** From its dispatch on, in every state of every run, a job holds all four permits
      until it is itself destroyed, whatever its caller does. */
  lemma {:induction false} PermitsUntilDestroyed(run: seq<State>, i: nat, k: nat, j: nat)
    requires IsRun(run) && i <= k < |run| && j in run[i].jobs && Dispatched(run[i].jobs[j].phase)
    ensures HoldsOrGone(run[k], j)
  {
    if i == k {
      JobOkInRun(run, k, j);
    } else {
      PermitsUntilDestroyed(run, i, k - 1, j);
      JobOkInRun(run, k - 1, j);
      var h, a :| Taken(run[k - 1], run[k], h, a);
      HoldsOn(run[k - 1], run[k], j, h, a);
    }
  }

  // ----------------------------------------------------------------------- progress

  /** Who occupies the process holds its scope's slot. */
  lemma LocalFirst(s: State, j: nat)
    requires Inv(s) && j in s.jobs && ProcessRunning in s.jobs[j].held
    ensures LocalRunning(s.jobs[j].scope) in s.jobs[j].held && LocalOutstanding(s.jobs[j].scope) in s.jobs[j].held
    ensures s.jobs[j].phase == Ready || Dispatched(s.jobs[j].phase)
  {
    assert JobOk(s.jobs[j]);
  }

  predicate Advancing(a: Action) {
    !a.Arrive? && !a.Depart?
  }

  /** A step that does not depend on anyone arriving or giving up. */
  ghost predicate CanAdvance(s: State, j: nat) {
    exists a, t :: Advancing(a) && Taken(s, t, j, a)
  }

  lemma EnabledAdvances(s: State, j: nat, a: Action)
    requires Inv(s) && Advancing(a) && Enabled(s, j, a)
    ensures CanAdvance(s, j)
  {
    assert JobOk(s.jobs[j]);
    Affordable(s, j, a);
    assert Taken(s, Put(s, j, Result(s, j, a)), j, a);
  }

  lemma BusyAdvances(s: State, j: nat)
    requires Inv(s) && j in s.jobs && (s.jobs[j].phase == Entering || s.jobs[j].phase == Ready || Dispatched(s.jobs[j].phase))
    ensures CanAdvance(s, j)
  {
    var a := match s.jobs[j].phase
      case Entering => if Free(s, ProcessOutstanding) > 0 then Admit else Refuse
      case Ready => Dispatch
      case Spawned => Start
      case Won => Work
      case _ => Destroy;
    EnabledAdvances(s, j, a);
  }

  lemma SomeHolder(s: State, p: Pool) returns (j: nat)
    requires Conserved(s) && Free(s, p) == 0 && Capacity(p) > 0
    ensures j in s.jobs && p in s.jobs[j].held
  {
    assert |Holders(s, p)| > 0;
    j :| j in Holders(s, p);
  }

  lemma HasLocalAdvances(s: State, j: nat) returns (k: nat)
    requires Inv(s) && j in s.jobs && s.jobs[j].phase == HasLocal
    ensures k in s.jobs && CanAdvance(s, k)
  {
    if Free(s, ProcessRunning) > 0 {
      EnabledAdvances(s, j, TakeProcess);
      k := j;
    } else {
      k := SomeHolder(s, ProcessRunning);
      LocalFirst(s, k);
      BusyAdvances(s, k);
    }
  }

  /** No deadlock: while any request lives, some request can move on. */
  lemma Progress(s: State, j: nat) returns (k: nat)
    requires Inv(s) && j in s.jobs && s.jobs[j].phase != Gone
    ensures k in s.jobs && CanAdvance(s, k)
  {
    assert JobOk(s.jobs[j]);
    if s.jobs[j].phase == HasLocal {
      k := HasLocalAdvances(s, j);
    } else if s.jobs[j].phase != Queued {
      BusyAdvances(s, j);
      k := j;
    } else if Free(s, LocalRunning(s.jobs[j].scope)) > 0 {
      EnabledAdvances(s, j, TakeLocal);
      k := j;
    } else {
      k := SomeHolder(s, LocalRunning(s.jobs[j].scope));
      assert JobOk(s.jobs[k]);
      if s.jobs[k].phase == HasLocal {
        k := HasLocalAdvances(s, k);
      } else {
        BusyAdvances(s, k);
      }
    }
  }

  function Left(job: Job): nat {
    (match job.phase
     case Entering => 7
     case Queued => 6
     case HasLocal => 5
     case Ready => 4
     case Spawned => 3
     case Won => 2
     case Skipped => 1
     case Worked => 1
     case Gone => 0) + if job.caller then 1 else 0
  }

  lemma AfterShrinks(job: Job, a: Action)
    requires Fits(job, a)
    ensures Left(After(job, a)) < Left(job)
  {
  }

  /** Steps the requests `ids` can still take between them. */
  ghost function TotalLeft(s: State, ids: seq<nat>): nat {
    if ids == [] then 0
    else TotalLeft(s, ids[..|ids| - 1]) + (if ids[|ids| - 1] in s.jobs then Left(s.jobs[ids[|ids| - 1]]) else 0)
  }

  lemma {:induction false} TotalShrinks(s: State, t: State, ids: seq<nat>, j: nat, a: Action)
    requires Taken(s, t, j, a) && !a.Arrive?
    ensures TotalLeft(t, ids) <= TotalLeft(s, ids)
    ensures j in ids ==> TotalLeft(t, ids) < TotalLeft(s, ids)
  {
    AfterShrinks(s.jobs[j], a);
    if ids != [] {
      var front := ids[..|ids| - 1];
      assert ids == front + [ids[|ids| - 1]];
      TotalShrinks(s, t, front, j, a);
    }
  }

  ghost predicate Quiet(s: State, t: State) {
    exists j, a :: Taken(s, t, j, a) && !a.Arrive?
  }

  /** Waiting ends: without new arrivals, a run stops after at most as many steps
      as its requests have left. With `Progress`, every request is then gone. */
  lemma {:induction false} WaitingEnds(run: seq<State>, ids: seq<nat>)
    requires run != [] && (forall i :: 0 <= i < |run| - 1 ==> Quiet(run[i], run[i + 1]))
    requires forall j :: j in run[0].jobs ==> j in ids
    ensures |run| - 1 + TotalLeft(run[|run| - 1], ids) <= TotalLeft(run[0], ids)
    ensures run[|run| - 1].jobs.Keys == run[0].jobs.Keys
  {
    if |run| > 1 {
      var front := run[..|run| - 1];
      WaitingEnds(front, ids);
      assert Quiet(run[|run| - 2], run[|run| - 1]);
      var j, a :| Taken(run[|run| - 2], run[|run| - 1], j, a) && !a.Arrive?;
      TotalShrinks(run[|run| - 2], run[|run| - 1], ids, j, a);
    }
  }
}

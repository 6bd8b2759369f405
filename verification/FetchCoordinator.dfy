/** The coordinator object: one locked table, count admission, and the lock
    sections that carry out the steps of single flight. */
module FetchCoordination {
  import opened Base
  import opened Coordination

  const MAX_PROCESS_PENDING_JOBS: nat := 256
  const MAX_PROCESS_ACTIVE_CALLERS: nat := 1024

  /** The process-wide pools, shared by every coordinator. */
  class ProcessAdmission {
    var jobs: nat
    var callers: nat

    constructor ()
      ensures jobs == MAX_PROCESS_PENDING_JOBS && callers == MAX_PROCESS_ACTIVE_CALLERS
    {
      jobs, callers := MAX_PROCESS_PENDING_JOBS, MAX_PROCESS_ACTIVE_CALLERS;
    }
  }

  /** A caller joined the flight of its content, or started one and leads it;
      or it was refused, and at most one number was used up. */
  ghost predicate Entered(s: State, t: State, request: Request, r: Result<(Registration, Option<JobGuard>)>) {
    match r
    case Err(_) => t == s || t == s.(nextId := s.nextId + 1)
    case Ok((registration, guard)) =>
      registration.request == request && registration.id in t.regs && t.regs[registration.id] == registration &&
      (if Key(request) in s.entries then t == JoinFlight(s, request) && guard.None?
       else t == StartFlight(s, request) && guard == Some(JobGuard(request, registration.generation)))
  }

  lemma EnteredReached(s: State, t: State, request: Request, r: Result<(Registration, Option<JobGuard>)>)
    requires Reached(s) && Entered(s, t, request, r)
    ensures Reached(t)
  {
    ReachedArrival(s, request);
  }

  class FetchCoordinator {
    const process: ProcessAdmission
    const maxJobs: nat
    const maxCallers: nat
    var entries: map<string, PendingFlight>
    var nextId: nat
    var cancelled: set<nat>
    var inbox: map<nat, Channel>
    var jobs: map<nat, Job>
    var freeJobs: nat
    var freeCallers: nat
    ghost var regs: map<nat, Registration>

    ghost function View(): State
      reads this
    {
      State(entries, nextId, cancelled, inbox, jobs, regs)
    }

    /** The object has only ever taken steps of the protocol, and permits follow
        ownership: one for every live job and every live registration. */
    ghost predicate Valid()
      reads this
    {
      Reached(View()) && nextId <= U64_MAX && freeJobs + |jobs| == maxJobs && freeCallers + |regs| == maxCallers
    }

    /** So at every moment nobody is lost. */
    lemma NobodyLost()
      requires Valid()
      ensures Inv(View())
    {
      ReachedIsSafe(View());
    }

    constructor (process: ProcessAdmission, maxJobs: nat, maxCallers: nat)
      ensures Valid() && View() == INITIAL && this.process == process
      ensures this.maxJobs == maxJobs && this.maxCallers == maxCallers
    {
      this.process, this.maxJobs, this.maxCallers := process, maxJobs, maxCallers;
      entries, nextId, cancelled, inbox, jobs := map[], 0, {}, map[], map[];
      freeJobs, freeCallers, regs := maxJobs, maxCallers, map[];
      new;
      ReachedInitially();
    }

    /** The next number; the space is never wrapped around. */
    method DrawId() returns (r: Result<nat>)
      requires nextId <= U64_MAX
      modifies this`nextId
      ensures r.Ok? <==> old(nextId) < U64_MAX
      ensures r.Ok? ==> r.value == nextId == old(nextId) + 1
      ensures r.Err? ==> r.code == Internal && nextId == old(nextId)
    {
      if nextId == U64_MAX {
        return Err(Internal);
      }
      nextId := nextId + 1;
      return Ok(nextId);
    }

    /** A local and a process permit, or neither; nothing waits and nothing is
        evicted. */
    method AdmitJob() returns (ok: bool)
      modifies this`freeJobs, process`jobs
      ensures ok <==> old(freeJobs) > 0 && old(process.jobs) > 0
      ensures freeJobs == old(freeJobs) - (if ok then 1 else 0)
      ensures process.jobs == old(process.jobs) - (if ok then 1 else 0)
    {
      if freeJobs == 0 {
        return false;
      }
      freeJobs := freeJobs - 1;
      if process.jobs == 0 {
        freeJobs := freeJobs + 1;
        return false;
      }
      process.jobs := process.jobs - 1;
      return true;
    }

    method AdmitCaller() returns (ok: bool)
      modifies this`freeCallers, process`callers
      ensures ok <==> old(freeCallers) > 0 && old(process.callers) > 0
      ensures freeCallers == old(freeCallers) - (if ok then 1 else 0)
      ensures process.callers == old(process.callers) - (if ok then 1 else 0)
    {
      if freeCallers == 0 {
        return false;
      }
      freeCallers := freeCallers - 1;
      if process.callers == 0 {
        freeCallers := freeCallers + 1;
        return false;
      }
      process.callers := process.callers - 1;
      return true;
    }

    method ReleaseCaller()
      modifies this`freeCallers, process`callers
      ensures freeCallers == old(freeCallers) + 1 && process.callers == old(process.callers) + 1
    {
      freeCallers := freeCallers + 1;
      process.callers := process.callers + 1;
    }

    /** Permits taken from the process are exactly those this object holds. */
    twostate predicate Balanced()
      reads this, process
    {
      process.jobs + |jobs| == old(process.jobs) + |old(jobs)| &&
      process.callers + |regs| == old(process.callers) + |old(regs)|
    }

    /** Admit a caller and let it join the flight of its content, or start one
        and become its leader too. Refusals only use up numbers. */
    method Enter(request: Request) returns (r: Result<(Registration, Option<JobGuard>)>)
      requires Valid()
      modifies this, process
      ensures Valid() && Balanced()
      ensures Entered(old(View()), View(), request, r)
    {
      ReachedNumbers(View());
      var admitted := AdmitCaller();
      if !admitted {
        return Err(LimitExceeded);
      }
      r := Join(request);
      EnteredReached(old(View()), View(), request, r);
      if r.Err? {
        ReleaseCaller();
      }
    }

    /** The lock section. */
    method Join(request: Request) returns (r: Result<(Registration, Option<JobGuard>)>)
      requires nextId <= U64_MAX && freeJobs + |jobs| == maxJobs
      requires nextId + 1 !in regs && nextId + 2 !in jobs
      modifies this`entries, this`nextId, this`inbox, this`jobs, this`regs, this`freeJobs, process`jobs
      ensures nextId <= U64_MAX && freeJobs + |jobs| == maxJobs && process.jobs + |jobs| == old(process.jobs) + |old(jobs)|
      ensures Entered(old(View()), View(), request, r) && |regs| == |old(regs)| + (if r.Ok? then 1 else 0)
    {
      var id := DrawId();
      if id.Err? {
        return Err(id.code);
      }
      if Key(request) in entries {
        var registration := AddWaiter(request, id.value);
        return Ok((registration, None));
      }
      r := Launch(request, id.value, old(View()));
    }

    /** Start a flight, if a job may be admitted and a generation drawn. */
    method Launch(request: Request, id: nat, ghost s: State) returns (r: Result<(Registration, Option<JobGuard>)>)
      requires View() == s.(nextId := id) && id == s.nextId + 1 <= U64_MAX && Key(request) !in entries
      requires freeJobs + |jobs| == maxJobs && id !in regs && id + 1 !in jobs
      modifies this`entries, this`nextId, this`inbox, this`jobs, this`regs, this`freeJobs, process`jobs
      ensures nextId <= U64_MAX && freeJobs + |jobs| == maxJobs && process.jobs + |jobs| == old(process.jobs) + |old(jobs)|
      ensures Entered(s, View(), request, r) && |regs| == |old(regs)| + (if r.Ok? then 1 else 0)
    {
      var admitted := AdmitJob();
      if !admitted {
        return Err(LimitExceeded);
      }
      var generation := DrawId();
      if generation.Err? {
        freeJobs := freeJobs + 1;
        process.jobs := process.jobs + 1;
        return Err(generation.code);
      }
      var registration := AddFlight(request, id, generation.value);
      return Ok((registration, Some(JobGuard(request, generation.value))));
    }

    method AddWaiter(request: Request, id: nat) returns (r: Registration)
      requires Key(request) in entries && id == nextId > 0 && id !in regs
      modifies this`entries, this`inbox, this`regs
      ensures View() == JoinFlight(old(View()).(nextId := id - 1), request) && |regs| == |old(regs)| + 1
      ensures id in regs && regs[id] == r && r.id == id && r.request == request
    {
      var pending := entries[Key(request)];
      r := Registration(request, pending.generation, id);
      entries := entries[Key(request) := pending.(waiters := pending.waiters + {id})];
      inbox := inbox[id := Channel(pending.generation, [])];
      regs := regs[id := r];
    }

    method AddFlight(request: Request, id: nat, generation: nat) returns (r: Registration)
      requires generation == nextId == id + 1 && id > 0 && id !in regs && generation !in jobs
      modifies this`entries, this`inbox, this`jobs, this`regs
      ensures View() == StartFlight(old(View()).(nextId := id - 1), request) && r.generation == generation
      ensures |regs| == |old(regs)| + 1 && |jobs| == |old(jobs)| + 1
      ensures id in regs && regs[id] == r && r.id == id && r.request == request
    {
      r := Registration(request, generation, id);
      entries := entries[Key(request) := PendingFlight(generation, {id})];
      inbox := inbox[id := Channel(generation, [])];
      jobs := jobs[generation := Leading(request)];
      regs := regs[id := r];
    }

    /** A registration is dropped, answered or not. */
    method DropWaiter(r: Registration)
      requires Valid() && r.id in regs && regs[r.id] == r
      modifies this, process
      ensures Valid() && View() == Leave(old(View()), r.id) && Balanced()
    {
      ReachedLeave(View(), r.id);
      ReleaseCaller();
      Unlist(r);
    }

    method Unlist(r: Registration)
      requires r.id in regs && regs[r.id] == r
      modifies this`entries, this`cancelled, this`regs
      ensures View() == Leave(old(View()), r.id) && |regs| == |old(regs)| - 1
    {
      if Key(r.request) in entries && entries[Key(r.request)].generation == r.generation {
        var rest := entries[Key(r.request)].waiters - {r.id};
        if rest == {} {
          entries := entries - {Key(r.request)};
          cancelled := cancelled + {r.generation};
        } else {
          entries := entries[Key(r.request) := PendingFlight(r.generation, rest)];
        }
      }
      assert regs.Keys == (regs - {r.id}).Keys + {r.id};
      regs := regs - {r.id};
    }

    /** Detach the flight if it is still the guard's own, with its waiters. */
    method TakeWaiters(guard: JobGuard, result: Result<Bytes>)
      requires Valid() && guard.generation in jobs && jobs[guard.generation] == Leading(guard.request)
      modifies this`entries, this`jobs
      ensures Valid() && View() == Take(old(View()), guard.generation, result)
    {
      var taken: set<nat> := {};
      if Key(guard.request) in entries && entries[Key(guard.request)].generation == guard.generation {
        taken := entries[Key(guard.request)].waiters;
        entries := entries - {Key(guard.request)};
      }
      jobs := jobs[guard.generation := Delivering(guard.request, result, taken)];
      ReachedNext(old(View()), Takes(guard.generation, result));
    }

    /** Complete a job, with its result or, if it died, with an error: every
        waiter of its flight that is still live gets it, once, and the permits
        return. */
    method Complete(guard: JobGuard, result: Result<Bytes>)
      requires Valid() && guard.generation in jobs && jobs[guard.generation] == Leading(guard.request)
      modifies this, process`jobs
      ensures Valid() && guard.generation !in jobs && regs == old(regs) && nextId == old(nextId)
      ensures forall w :: w in regs && regs[w].generation == guard.generation ==> AnsweredBy(View(), regs[w], result)
      ensures process.jobs == old(process.jobs) + 1 && |jobs| == |old(jobs)| - 1
    {
      TakeWaiters(guard, result);
      while jobs[guard.generation].left != {}
        invariant Valid() && guard.generation in jobs && jobs[guard.generation].Delivering? && |jobs| == |old(jobs)|
        invariant jobs[guard.generation].result == result
        invariant regs == old(regs) && nextId == old(nextId) && process.jobs == old(process.jobs)
        decreases jobs[guard.generation].left
      {
        var id :| id in jobs[guard.generation].left;
        SendOne(guard.generation, id);
      }
      EndJob(guard.generation);
    }

    method SendOne(generation: nat, id: nat)
      requires Valid() && generation in jobs && jobs[generation].Delivering? && id in jobs[generation].left
      modifies this`inbox, this`jobs
      ensures Valid() && id in old(inbox) && View() == Send(old(View()), generation, id)
    {
      ReachedDue(View(), generation, id);
      var job := jobs[generation];
      jobs := jobs[generation := job.(left := job.left - {id})];
      inbox := inbox[id := inbox[id].(sent := inbox[id].sent + [Answer(generation, job.request, job.result)])];
      ReachedNext(old(View()), Sends(generation, id));
    }

    method EndJob(generation: nat)
      requires Valid() && generation in jobs && jobs[generation].Delivering? && jobs[generation].left == {}
      modifies this`jobs, this`freeJobs, process`jobs
      ensures Valid() && View() == Retire(old(View()), generation) && |jobs| == |old(jobs)| - 1
      ensures process.jobs == old(process.jobs) + 1
      ensures forall w :: w in regs && regs[w].generation == generation ==> AnsweredBy(View(), regs[w], old(jobs)[generation].result)
    {
      forall w | w in regs && regs[w].generation == generation ensures AnsweredBy(Retire(View(), generation), regs[w], jobs[generation].result) {
        ReachedAnswered(View(), generation, w);
      }
      assert jobs.Keys == (jobs - {generation}).Keys + {generation};
      jobs := jobs - {generation};
      freeJobs := freeJobs + 1;
      process.jobs := process.jobs + 1;
      ReachedNext(old(View()), Retires(generation));
    }
  }
}

/** Single-flight fetches: callers for the same content join one flight, a
    leader answers all who are still listed, and generations keep flights under
    the same key apart. */
module Coordination {
  import opened Base
  import opened Numerals

  /** What a caller asks for, once its path is authorised. */
  datatype Request = Request(digest: string, size: nat)

  // --------------------------------------------------------------------------- keys

  function Key(r: Request): string {
    r.digest + ":" + Decimal(r.size)
  }

  /** Where the text after the last colon starts. */
  lemma LastColon(a: string, x: string, k: nat)
    requires ':' !in x && k < |a + ":" + x| && (a + ":" + x)[k] == ':'
    ensures k <= |a|
  {
    var s := a + ":" + x;
    forall j | |a| < j < |s| ensures s[j] != ':' {
      assert s[j] == x[j - |a| - 1] && x[j - |a| - 1] in x;
    }
  }

  lemma SplitUnique(a: string, x: string, b: string, y: string)
    requires ':' !in x && ':' !in y && a + ":" + x == b + ":" + y
    ensures a == b && x == y
  {
    var s := a + ":" + x;
    LastColon(a, x, |b|);
    LastColon(b, y, |a|);
    assert a == s[..|a|] && b == s[..|b|];
    assert x == s[|a| + 1..] && y == s[|b| + 1..];
  }

  /** Two requests share a flight only if they ask for the same content. */
  lemma KeyInjective(r: Request, s: Request)
    requires Key(r) == Key(s)
    ensures r == s
  {
    SplitUnique(r.digest, Decimal(r.size), s.digest, Decimal(s.size));
    DecimalInjective(r.size, s.size);
  }

  // ------------------------------------------------------------------------- flights

  datatype PendingFlight = PendingFlight(generation: nat, waiters: set<nat>)

  /** Held by a caller until it has its answer or goes away. */
  datatype Registration = Registration(request: Request, generation: nat, id: nat)

  /** Held by the leading task of a flight. */
  datatype JobGuard = JobGuard(request: Request, generation: nat)

  datatype Answer = Answer(generation: nat, request: Request, result: Result<Bytes>)

  /** A waiter's channel: the flight it was opened for and what was sent on it. */
  datatype Channel = Channel(generation: nat, sent: seq<Answer>)

  /** A job still leads its flight, or hands its result to the waiters it took. */
  datatype Job = Leading(request: Request) | Delivering(request: Request, result: Result<Bytes>, left: set<nat>)

  /** The locked table, the channels, the cancel latches, the live jobs and the
      live registrations. */
  datatype State = State(
    entries: map<string, PendingFlight>, nextId: nat, cancelled: set<nat>,
    inbox: map<nat, Channel>, jobs: map<nat, Job>, regs: map<nat, Registration>)

  const INITIAL := State(map[], 0, {}, map[], map[], map[])

  // ------------------------------------------------------- the steps under the lock

  /** A number is drawn and not used. */
  function DrawOne(s: State): State {
    s.(nextId := s.nextId + 1)
  }

  /** Join a listed flight under a fresh waiter number. */
  function JoinFlight(s: State, request: Request): State
    requires Key(request) in s.entries
  {
    var id, pending := s.nextId + 1, s.entries[Key(request)];
    s.(nextId := id,
       entries := s.entries[Key(request) := pending.(waiters := pending.waiters + {id})],
       inbox := s.inbox[id := Channel(pending.generation, [])],
       regs := s.regs[id := Registration(request, pending.generation, id)])
  }

  /** Start a flight with one waiter; two fresh numbers. */
  function StartFlight(s: State, request: Request): State {
    var id, generation := s.nextId + 1, s.nextId + 2;
    s.(nextId := generation,
       entries := s.entries[Key(request) := PendingFlight(generation, {id})],
       inbox := s.inbox[id := Channel(generation, [])],
       jobs := s.jobs[generation := Leading(request)],
       regs := s.regs[id := Registration(request, generation, id)])
  }

  /** A caller goes away. Only its own flight can be affected; the last waiter
      to leave detaches the flight and cancels it. */
  function Leave(s: State, id: nat): State
    requires id in s.regs
  {
    var r := s.regs[id];
    var t := s.(regs := s.regs - {id});
    if Key(r.request) in s.entries && s.entries[Key(r.request)].generation == r.generation then
      var rest := s.entries[Key(r.request)].waiters - {id};
      if rest == {} then t.(entries := s.entries - {Key(r.request)}, cancelled := s.cancelled + {r.generation})
      else t.(entries := s.entries[Key(r.request) := PendingFlight(r.generation, rest)])
    else t
  }

  /** A leader with a result, or one that died, takes the waiters of its flight
      if the flight is still its own. */
  function Take(s: State, generation: nat, result: Result<Bytes>): State
    requires generation in s.jobs
  {
    var request := s.jobs[generation].request;
    if Key(request) in s.entries && s.entries[Key(request)].generation == generation then
      s.(entries := s.entries - {Key(request)},
         jobs := s.jobs[generation := Delivering(request, result, s.entries[Key(request)].waiters)])
    else s.(jobs := s.jobs[generation := Delivering(request, result, {})])
  }

  /** The leader sends its result to one of the waiters it took. */
  function Send(s: State, generation: nat, id: nat): State
    requires generation in s.jobs && s.jobs[generation].Delivering? && id in s.inbox
  {
    var job := s.jobs[generation];
    s.(jobs := s.jobs[generation := job.(left := job.left - {id})],
       inbox := s.inbox[id := s.inbox[id].(sent := s.inbox[id].sent + [Answer(generation, job.request, job.result)])])
  }

  /** The job ends and its permits return. */
  function Retire(s: State, generation: nat): State {
    s.(jobs := s.jobs - {generation})
  }

  // ------------------------------------------------------------------ the invariant

  ghost predicate Listed(s: State, r: Registration) {
    Key(r.request) in s.entries && s.entries[Key(r.request)].generation == r.generation &&
    r.id in s.entries[Key(r.request)].waiters
  }

  ghost predicate InDelivery(s: State, r: Registration) {
    r.generation in s.jobs && s.jobs[r.generation].Delivering? && r.id in s.jobs[r.generation].left
  }

  /** Sent exactly one answer, by the flight it joined and for what it asked. */
  ghost predicate Answered(s: State, r: Registration) {
    r.id in s.inbox && |s.inbox[r.id].sent| == 1 &&
    s.inbox[r.id].sent[0].generation == r.generation && s.inbox[r.id].sent[0].request == r.request
  }

  ghost predicate Waiting(s: State, r: Registration) {
    r.id in s.inbox && s.inbox[r.id].sent == []
  }

  /** Nobody is lost: a live waiter is unanswered and listed in its own flight
      or in its leader's hands, or it has its one answer. */
  ghost predicate Served(s: State, r: Registration) {
    if Listed(s, r) || InDelivery(s, r) then Waiting(s, r) else Answered(s, r)
  }

  /** A listed flight has a live leader for its key and someone waiting, all of
      them live. */
  ghost predicate Sound(s: State, key: string) {
    key in s.entries &&
    var e := s.entries[key];
    e.generation in s.jobs && s.jobs[e.generation].Leading? && Key(s.jobs[e.generation].request) == key && e.waiters != {} &&
    forall w :: w in e.waiters ==> w in s.regs && s.regs[w].generation == e.generation && Key(s.regs[w].request) == key
  }

  /** A leading job has answered nobody; whom a delivering one still owes an
      answer may have left, but if it is live it belongs to that flight. */
  ghost predicate Owes(s: State, generation: nat) {
    generation in s.jobs &&
    (if s.jobs[generation].Leading? then
       forall w :: w in s.inbox && s.inbox[w].generation == generation ==> s.inbox[w].sent == []
     else
       (forall w :: w in s.jobs[generation].left ==> Due(s, generation, w)) && Spoke(s, generation))
  }

  /** Every answer of a delivering job is its result. */
  ghost predicate Spoke(s: State, generation: nat)
    requires generation in s.jobs && s.jobs[generation].Delivering?
  {
    forall w :: w in s.inbox && s.inbox[w].generation == generation && s.inbox[w].sent != [] ==>
      s.inbox[w].sent[0] == Answer(generation, s.jobs[generation].request, s.jobs[generation].result)
  }

  /** The waiter has exactly this answer. */
  ghost predicate AnsweredBy(s: State, r: Registration, result: Result<Bytes>) {
    r.id in s.inbox && s.inbox[r.id].sent == [Answer(r.generation, r.request, result)]
  }

  ghost predicate Due(s: State, generation: nat, w: nat)
    requires generation in s.jobs
  {
    w in s.inbox && s.inbox[w] == Channel(generation, []) && (w in s.regs ==> s.regs[w].request == s.jobs[generation].request)
  }

  /** Numbers are drawn once: whatever carries one is not ahead of the counter,
      waiters and flights never share one, and a channel takes one answer. */
  ghost predicate Numbered(s: State) {
    (forall w :: w in s.inbox ==> Opened(s, s.inbox[w], w)) &&
    (forall g :: g in s.jobs ==> g <= s.nextId && g !in s.inbox) && (forall g :: g in s.cancelled ==> g <= s.nextId && g !in s.inbox) &&
    (forall w :: w in s.regs ==> Enrolled(s, s.regs[w], w))
  }

  ghost predicate Enrolled(s: State, r: Registration, w: nat) {
    w in s.inbox && r.id == w && r.generation == s.inbox[w].generation
  }

  /** A channel belongs to one flight and carries at most one answer, its
      flight's. */
  ghost predicate Opened(s: State, c: Channel, w: nat) {
    w <= s.nextId && c.generation <= s.nextId && c.generation !in s.inbox &&
    |c.sent| <= 1 && forall a :: a in c.sent ==> a.generation == c.generation
  }

  /** A cancelled flight is neither listed nor waited for. */
  ghost predicate Deserted(s: State, generation: nat) {
    (forall key :: key in s.entries ==> s.entries[key].generation != generation) &&
    (forall w :: w in s.regs ==> s.regs[w].generation != generation)
  }

  ghost predicate AllSound(s: State) {
    forall key :: key in s.entries ==> Sound(s, key)
  }

  ghost predicate AllServed(s: State) {
    forall w :: w in s.regs ==> Served(s, s.regs[w])
  }

  ghost predicate AllOwing(s: State) {
    forall g :: g in s.jobs ==> Owes(s, g)
  }

  ghost predicate AllDeserted(s: State) {
    forall g :: g in s.cancelled ==> Deserted(s, g)
  }

  ghost predicate Inv(s: State) {
    Numbered(s) && AllSound(s) && AllServed(s) && AllOwing(s) && AllDeserted(s)
  }

  // ----------------------------------------------------------- joining and starting

  lemma JoinSound(s: State, request: Request)
    requires Numbered(s) && AllSound(s) && Key(request) in s.entries
    ensures AllSound(JoinFlight(s, request))
  {
    var t := JoinFlight(s, request);
    forall key | key in t.entries ensures Sound(t, key) {
      assert Sound(s, key);
    }
  }

  lemma JoinServes(s: State, request: Request)
    requires Numbered(s) && Sound(s, Key(request)) && AllServed(s)
    ensures AllServed(JoinFlight(s, request))
  {
    var t := JoinFlight(s, request);
    forall w | w in t.regs ensures Served(t, t.regs[w]) {
      assert w in s.regs ==> Enrolled(s, s.regs[w], w) && Served(s, s.regs[w]);
    }
  }

  lemma JoinOwes(s: State, request: Request)
    requires Numbered(s) && Key(request) in s.entries && AllOwing(s)
    ensures AllOwing(JoinFlight(s, request))
  {
    var t := JoinFlight(s, request);
    forall g | g in t.jobs ensures Owes(t, g) {
      assert Owes(s, g);
      forall w | t.jobs[g].Delivering? && w in t.jobs[g].left ensures Due(t, g, w) {
        assert Due(s, g, w);
      }
    }
  }

  lemma JoinDeserts(s: State, request: Request)
    requires AllDeserted(s) && Key(request) in s.entries
    ensures AllDeserted(JoinFlight(s, request))
  {
    var t := JoinFlight(s, request);
    forall g | g in t.cancelled ensures Deserted(t, g) {
      assert Deserted(s, g);
    }
  }

  lemma JoinNumbers(s: State, request: Request)
    requires Numbered(s) && Sound(s, Key(request))
    ensures Numbered(JoinFlight(s, request))
  {
    var t := JoinFlight(s, request);
    forall w | w in t.regs ensures Enrolled(t, t.regs[w], w) {
      assert w in s.regs ==> Enrolled(s, s.regs[w], w);
    }
  }

  lemma JoinKeeps(s: State, request: Request)
    requires Inv(s) && Key(request) in s.entries
    ensures Inv(JoinFlight(s, request))
  {
    assert Sound(s, Key(request));
    JoinNumbers(s, request);
    JoinSound(s, request);
    JoinServes(s, request);
    JoinOwes(s, request);
    JoinDeserts(s, request);
  }

  lemma StartSound(s: State, request: Request)
    requires Numbered(s) && AllSound(s) && Key(request) !in s.entries
    ensures AllSound(StartFlight(s, request))
  {
    var t := StartFlight(s, request);
    forall key | key in t.entries ensures Sound(t, key) {
      assert key in s.entries ==> Sound(s, key);
    }
  }

  lemma StartServes(s: State, request: Request)
    requires Numbered(s) && AllServed(s) && Key(request) !in s.entries
    ensures AllServed(StartFlight(s, request))
  {
    var t := StartFlight(s, request);
    forall w | w in t.regs ensures Served(t, t.regs[w]) {
      StartServesOne(s, request, w);
    }
  }

  lemma StartServesOne(s: State, request: Request, w: nat)
    requires Numbered(s) && AllServed(s) && Key(request) !in s.entries && w in StartFlight(s, request).regs
    ensures Served(StartFlight(s, request), StartFlight(s, request).regs[w])
  {
    if w in s.regs {
      assert Enrolled(s, s.regs[w], w) && Served(s, s.regs[w]);
    }
  }

  lemma StartOwes(s: State, request: Request)
    requires Numbered(s) && AllOwing(s)
    ensures AllOwing(StartFlight(s, request))
  {
    var t := StartFlight(s, request);
    forall g | g in t.jobs ensures Owes(t, g) {
      assert g in s.jobs ==> Owes(s, g);
      forall w | t.jobs[g].Delivering? && w in t.jobs[g].left ensures Due(t, g, w) {
        assert Due(s, g, w);
      }
    }
  }

  lemma StartDeserts(s: State, request: Request)
    requires Numbered(s) && AllDeserted(s) && Key(request) !in s.entries
    ensures AllDeserted(StartFlight(s, request))
  {
    var t := StartFlight(s, request);
    forall g | g in t.cancelled ensures Deserted(t, g) {
      assert Deserted(s, g);
    }
  }

  lemma StartNumbers(s: State, request: Request)
    requires Numbered(s)
    ensures Numbered(StartFlight(s, request))
  {
    var t := StartFlight(s, request);
    forall w | w in t.regs ensures Enrolled(t, t.regs[w], w) {
      assert w in s.regs ==> Enrolled(s, s.regs[w], w);
    }
  }

  lemma StartKeeps(s: State, request: Request)
    requires Inv(s) && Key(request) !in s.entries
    ensures Inv(StartFlight(s, request))
  {
    StartNumbers(s, request);
    StartSound(s, request);
    StartServes(s, request);
    StartOwes(s, request);
    StartDeserts(s, request);
  }

  // -------------------------------------------------------------------- going away

  /** While a flight is listed, every live waiter of it is among its waiters. */
  lemma OnlyListed(s: State, w: nat, key: string)
    requires Numbered(s) && AllSound(s) && AllServed(s) && AllOwing(s) && w in s.regs && key in s.entries
    requires s.regs[w].generation == s.entries[key].generation
    ensures w in s.entries[key].waiters && Key(s.regs[w].request) == key
  {
    assert Enrolled(s, s.regs[w], w) && Served(s, s.regs[w]) && Sound(s, key) && Owes(s, s.entries[key].generation);
    assert Listed(s, s.regs[w]);
    assert Sound(s, Key(s.regs[w].request));
  }

  lemma LeaveSound(s: State, id: nat)
    requires AllSound(s) && id in s.regs && s.regs[id].id == id
    requires forall key :: key in s.entries && id in s.entries[key].waiters ==> Listed(s, s.regs[id])
    ensures AllSound(Leave(s, id))
  {
    var t := Leave(s, id);
    forall key | key in t.entries ensures Sound(t, key) {
      assert Sound(s, key);
    }
  }

  lemma LeaveServes(s: State, id: nat)
    requires Numbered(s) && AllServed(s) && id in s.regs
    ensures AllServed(Leave(s, id))
  {
    var t := Leave(s, id);
    assert forall w :: w in t.regs ==> w in s.regs && w != id && t.regs[w] == s.regs[w];
    forall w | w in t.regs ensures Served(t, t.regs[w]) {
      LeaveServesOne(s, id, w);
    }
  }

  lemma LeaveServesOne(s: State, id: nat, w: nat)
    requires id in s.regs && w in s.regs && w != id && Enrolled(s, s.regs[w], w) && Served(s, s.regs[w])
    ensures Served(Leave(s, id), s.regs[w])
  {
    var key := Key(s.regs[w].request);
    assert Listed(s, s.regs[w]) ==> w in s.entries[key].waiters - {id};
  }

  lemma LeaveOwes(s: State, id: nat)
    requires AllOwing(s) && id in s.regs
    ensures AllOwing(Leave(s, id))
  {
    var t := Leave(s, id);
    forall g | g in t.jobs ensures Owes(t, g) {
      assert Owes(s, g);
      forall w | t.jobs[g].Delivering? && w in t.jobs[g].left ensures Due(t, g, w) {
        assert Due(s, g, w);
      }
    }
  }

  /** A flight is cancelled only when its last waiter leaves. */
  lemma LeaveDeserts(s: State, id: nat)
    requires Inv(s) && id in s.regs
    ensures AllDeserted(Leave(s, id))
  {
    var t := Leave(s, id);
    forall g | g in t.cancelled ensures Deserted(t, g) {
      if g in s.cancelled {
        assert Deserted(s, g);
        StaysDeserted(s, id, g);
      } else {
        CancelledBy(s, id, g);
        LastLeaves(s, id);
      }
    }
  }

  lemma CancelledBy(s: State, id: nat, g: nat)
    requires id in s.regs && g in Leave(s, id).cancelled && g !in s.cancelled
    ensures g == s.regs[id].generation && Leave(s, id).cancelled != s.cancelled
  {
  }

  lemma StaysDeserted(s: State, id: nat, g: nat)
    requires id in s.regs && Deserted(s, g)
    ensures Deserted(Leave(s, id), g)
  {
  }

  lemma LastLeaves(s: State, id: nat)
    requires Inv(s) && id in s.regs && Leave(s, id).cancelled != s.cancelled
    ensures Deserted(Leave(s, id), s.regs[id].generation)
  {
    NoEntryLeft(s, id);
    NoWaiterLeft(s, id);
  }

  lemma NoEntryLeft(s: State, id: nat)
    requires AllSound(s) && id in s.regs && Leave(s, id).cancelled != s.cancelled
    ensures forall other :: other in Leave(s, id).entries ==> Leave(s, id).entries[other].generation != s.regs[id].generation
  {
    var key := Key(s.regs[id].request);
    assert key in s.entries && Sound(s, key);
    forall other | other in s.entries && other != key ensures s.entries[other].generation != s.regs[id].generation {
      assert Sound(s, other);
    }
  }

  lemma NoWaiterLeft(s: State, id: nat)
    requires Inv(s) && id in s.regs && Leave(s, id).cancelled != s.cancelled
    ensures forall w :: w in Leave(s, id).regs ==> Leave(s, id).regs[w].generation != s.regs[id].generation
  {
    var key := Key(s.regs[id].request);
    assert s.entries[key].generation == s.regs[id].generation && s.entries[key].waiters <= {id};
    forall w | w in s.regs && w != id ensures s.regs[w].generation != s.regs[id].generation {
      if s.regs[w].generation == s.regs[id].generation {
        OnlyListed(s, w, key);
      }
    }
  }

  lemma LeaveNumbers(s: State, id: nat)
    requires Numbered(s) && id in s.regs
    ensures Numbered(Leave(s, id))
  {
    var t := Leave(s, id);
    forall w | w in t.regs ensures Enrolled(t, t.regs[w], w) {
      assert Enrolled(s, s.regs[w], w);
    }
    assert Enrolled(s, s.regs[id], id);
  }

  lemma LeaveKeeps(s: State, id: nat)
    requires Inv(s) && id in s.regs
    ensures Inv(Leave(s, id))
  {
    LeaveNumbers(s, id);
    assert Enrolled(s, s.regs[id], id);
    forall key | key in s.entries && id in s.entries[key].waiters ensures Listed(s, s.regs[id]) {
      assert Sound(s, key);
    }
    LeaveSound(s, id);
    LeaveServes(s, id);
    LeaveOwes(s, id);
    LeaveDeserts(s, id);
  }

  // -------------------------------------------------------------------- completion

  lemma TakeSound(s: State, g: nat, result: Result<Bytes>)
    requires AllSound(s) && g in s.jobs
    ensures AllSound(Take(s, g, result))
  {
    var t := Take(s, g, result);
    forall key | key in t.entries ensures Sound(t, key) {
      assert Sound(s, key);
    }
  }

  lemma TakeServes(s: State, g: nat, result: Result<Bytes>)
    requires Numbered(s) && AllSound(s) && AllServed(s) && g in s.jobs && s.jobs[g].Leading?
    ensures AllServed(Take(s, g, result))
  {
    var t := Take(s, g, result);
    forall w | w in t.regs ensures Served(t, t.regs[w]) {
      assert Enrolled(s, s.regs[w], w) && Served(s, s.regs[w]);
      TakeServesOne(s, g, result, s.regs[w]);
    }
  }

  lemma TakeServesOne(s: State, g: nat, result: Result<Bytes>, r: Registration)
    requires AllSound(s) && g in s.jobs && s.jobs[g].Leading? && Served(s, r) && r.id in s.regs && s.regs[r.id] == r
    ensures Served(Take(s, g, result), r)
  {
    var key := Key(s.jobs[g].request);
    assert key in s.entries ==> Sound(s, key);
    assert Listed(s, r) ==> Sound(s, Key(r.request));
  }

  lemma TakeOwes(s: State, g: nat, result: Result<Bytes>)
    requires Inv(s) && g in s.jobs && s.jobs[g].Leading?
    ensures AllOwing(Take(s, g, result))
  {
    var t := Take(s, g, result);
    forall h | h in t.jobs ensures Owes(t, h) {
      assert Owes(s, h);
      forall w | t.jobs[h].Delivering? && w in t.jobs[h].left ensures Due(t, h, w) {
        if h != g {
          assert Due(s, h, w);
        } else {
          TakenAreDue(s, g, w);
        }
      }
    }
  }

  lemma TakenAreDue(s: State, g: nat, w: nat)
    requires Inv(s) && g in s.jobs
    requires Key(s.jobs[g].request) in s.entries && s.entries[Key(s.jobs[g].request)].generation == g
    requires w in s.entries[Key(s.jobs[g].request)].waiters
    ensures Due(s, g, w) && w in s.regs
  {
    var key := Key(s.jobs[g].request);
    assert Sound(s, key);
    assert Enrolled(s, s.regs[w], w) && Served(s, s.regs[w]);
    KeyInjective(s.regs[w].request, s.jobs[g].request);
  }

  lemma TakeKeeps(s: State, g: nat, result: Result<Bytes>)
    requires Inv(s) && g in s.jobs && s.jobs[g].Leading?
    ensures Inv(Take(s, g, result))
  {
    var t := Take(s, g, result);
    forall w | w in t.regs ensures Enrolled(t, t.regs[w], w) {
      assert Enrolled(s, s.regs[w], w);
    }
    assert Numbered(t);
    TakeSound(s, g, result);
    TakeServes(s, g, result);
    TakeOwes(s, g, result);
    forall h | h in t.cancelled ensures Deserted(t, h) {
      assert Deserted(s, h);
    }
  }

  lemma DeliveredUnlisted(s: State, r: Registration)
    requires AllSound(s) && r.generation in s.jobs && s.jobs[r.generation].Delivering?
    ensures !Listed(s, r)
  {
    if Key(r.request) in s.entries {
      assert Sound(s, Key(r.request));
    }
  }

  lemma SendServes(s: State, g: nat, id: nat)
    requires Numbered(s) && AllSound(s) && AllServed(s) && Owes(s, g)
    requires s.jobs[g].Delivering? && id in s.jobs[g].left && id in s.inbox
    ensures AllServed(Send(s, g, id))
  {
    var t := Send(s, g, id);
    assert Due(s, g, id);
    forall w | w in t.regs ensures Served(t, t.regs[w]) {
      assert Enrolled(s, s.regs[w], w) && Served(s, s.regs[w]);
      if w == id {
        DeliveredUnlisted(s, s.regs[w]);
      }
    }
  }

  lemma SendOwes(s: State, g: nat, id: nat)
    requires Inv(s) && g in s.jobs && s.jobs[g].Delivering? && id in s.jobs[g].left && id in s.inbox
    ensures AllOwing(Send(s, g, id))
  {
    var t := Send(s, g, id);
    assert Owes(s, g) && Due(s, g, id);
    forall h | h in t.jobs ensures Owes(t, h) {
      assert Owes(s, h);
      forall w | t.jobs[h].Delivering? && w in t.jobs[h].left ensures Due(t, h, w) {
        assert Due(s, h, w);
      }
    }
  }

  lemma SendNumbers(s: State, g: nat, id: nat)
    requires Numbered(s) && Owes(s, g) && s.jobs[g].Delivering? && id in s.jobs[g].left && id in s.inbox
    ensures Numbered(Send(s, g, id))
  {
    var t := Send(s, g, id);
    assert Due(s, g, id);
    forall w | w in t.inbox ensures Opened(t, t.inbox[w], w) {
      assert Opened(s, s.inbox[w], w);
    }
    forall w | w in t.regs ensures Enrolled(t, t.regs[w], w) {
      assert Enrolled(s, s.regs[w], w);
    }
  }

  lemma SendRest(s: State, g: nat, id: nat)
    requires AllSound(s) && AllDeserted(s) && g in s.jobs && s.jobs[g].Delivering? && id in s.inbox
    ensures AllSound(Send(s, g, id)) && AllDeserted(Send(s, g, id))
  {
    var t := Send(s, g, id);
    forall key | key in t.entries ensures Sound(t, key) {
      assert Sound(s, key);
    }
    forall h | h in t.cancelled ensures Deserted(t, h) {
      assert Deserted(s, h);
    }
  }

  lemma SendKeeps(s: State, g: nat, id: nat)
    requires Inv(s) && g in s.jobs && s.jobs[g].Delivering? && id in s.jobs[g].left && id in s.inbox
    ensures Inv(Send(s, g, id))
  {
    assert Owes(s, g);
    SendNumbers(s, g, id);
    SendServes(s, g, id);
    SendOwes(s, g, id);
    SendRest(s, g, id);
  }

  lemma RetireServes(s: State, g: nat)
    requires AllSound(s) && AllServed(s) && g in s.jobs && s.jobs[g].Delivering? && s.jobs[g].left == {}
    ensures AllSound(Retire(s, g)) && AllServed(Retire(s, g))
  {
    var t := Retire(s, g);
    forall key | key in t.entries ensures Sound(t, key) {
      assert Sound(s, key);
    }
    forall w | w in t.regs ensures Served(t, t.regs[w]) {
      assert Served(s, s.regs[w]);
    }
  }

  /** A job that owes nothing more has given every live waiter of its flight its
      result. */
  lemma RetireAnswers(s: State, g: nat, w: nat)
    requires Numbered(s) && AllSound(s) && Owes(s, g) && s.jobs[g].Delivering? && s.jobs[g].left == {}
    requires w in s.regs && s.regs[w].generation == g && Served(s, s.regs[w])
    ensures AnsweredBy(Retire(s, g), s.regs[w], s.jobs[g].result)
  {
    assert Enrolled(s, s.regs[w], w);
    DeliveredUnlisted(s, s.regs[w]);
  }

  /** So a job may end then. */
  lemma RetireKeeps(s: State, g: nat)
    requires Inv(s) && g in s.jobs && s.jobs[g].Delivering? && s.jobs[g].left == {}
    ensures Inv(Retire(s, g))
  {
    RetireServes(s, g);
    RetireRest(s, g);
  }

  lemma RetireRest(s: State, g: nat)
    requires Numbered(s) && AllOwing(s) && AllDeserted(s)
    ensures Numbered(Retire(s, g)) && AllOwing(Retire(s, g)) && AllDeserted(Retire(s, g))
  {
    var t := Retire(s, g);
    forall h | h in t.jobs ensures Owes(t, h) {
      assert Owes(s, h);
      forall w | t.jobs[h].Delivering? && w in t.jobs[h].left ensures Due(t, h, w) {
        assert Due(s, h, w);
      }
    }
    forall h | h in t.cancelled ensures Deserted(t, h) {
      assert Deserted(s, h);
    }
    forall w | w in t.inbox ensures Opened(t, t.inbox[w], w) {
      assert Opened(s, s.inbox[w], w);
    }
    forall w | w in t.regs ensures Enrolled(t, t.regs[w], w) {
      assert Enrolled(s, s.regs[w], w);
    }
  }

  // --------------------------------------------------------------------- whole runs

  datatype Action =
    | Draw
    | Joins(request: Request)
    | Starts(request: Request)
    | Leaves(id: nat)
    | Takes(generation: nat, result: Result<Bytes>)
    | Sends(generation: nat, id: nat)
    | Retires(generation: nat)

  ghost predicate Enabled(s: State, a: Action) {
    match a
    case Draw => true
    case Joins(request) => Key(request) in s.entries
    case Starts(request) => Key(request) !in s.entries
    case Leaves(id) => id in s.regs
    case Takes(g, _) => g in s.jobs && s.jobs[g].Leading?
    case Sends(g, id) => g in s.jobs && s.jobs[g].Delivering? && id in s.jobs[g].left && id in s.inbox
    case Retires(g) => g in s.jobs && s.jobs[g].Delivering? && s.jobs[g].left == {}
  }

  ghost function Next(s: State, a: Action): State
    requires Enabled(s, a)
  {
    match a
    case Draw => DrawOne(s)
    case Joins(request) => JoinFlight(s, request)
    case Starts(request) => StartFlight(s, request)
    case Leaves(id) => Leave(s, id)
    case Takes(g, result) => Take(s, g, result)
    case Sends(g, id) => Send(s, g, id)
    case Retires(g) => Retire(s, g)
  }

  lemma ArrivalKeeps(s: State, a: Action)
    requires Inv(s) && Enabled(s, a) && (a.Joins? || a.Starts?)
    ensures Inv(Next(s, a))
  {
    match a
    case Joins(request) => JoinKeeps(s, request);
    case Starts(request) => StartKeeps(s, request);
  }

  lemma LeavesKeeps(s: State, id: nat)
    requires Inv(s) && id in s.regs
    ensures Inv(Next(s, Leaves(id)))
  {
    assert Next(s, Leaves(id)) == Leave(s, id);
    LeaveKeeps(s, id);
  }

  lemma DepartureKeeps(s: State, a: Action)
    requires Inv(s) && Enabled(s, a) && (a.Leaves? || a.Draw?)
    ensures Inv(Next(s, a))
  {
    match a
    case Leaves(id) => LeavesKeeps(s, id);
    case Draw => DrawKeeps(s);
  }

  lemma CompletionKeeps(s: State, a: Action)
    requires Inv(s) && Enabled(s, a) && (a.Takes? || a.Sends? || a.Retires?)
    ensures Inv(Next(s, a))
  {
    match a
    case Takes(g, result) => TakeKeeps(s, g, result);
    case Sends(g, id) => SendKeeps(s, g, id);
    case Retires(g) => RetireKeeps(s, g);
  }

  lemma NextKeeps(s: State, a: Action)
    requires Inv(s) && Enabled(s, a)
    ensures Inv(Next(s, a))
  {
    if a.Leaves? || a.Draw? {
      DepartureKeeps(s, a);
    } else if a.Joins? || a.Starts? {
      ArrivalKeeps(s, a);
    } else {
      CompletionKeeps(s, a);
    }
  }

  lemma DrawKeeps(s: State)
    requires Inv(s)
    ensures Inv(DrawOne(s))
  {
    var t := DrawOne(s);
    forall w | w in t.inbox ensures Opened(t, t.inbox[w], w) {
      assert Opened(s, s.inbox[w], w);
    }
    forall w | w in t.regs ensures Enrolled(t, t.regs[w], w) {
      assert Enrolled(s, s.regs[w], w);
    }
    assert Numbered(t);
    forall key | key in t.entries ensures Sound(t, key) {
      assert Sound(s, key);
    }
    forall w | w in t.regs ensures Served(t, t.regs[w]) {
      assert Served(s, s.regs[w]);
    }
    DrawRest(s);
  }

  lemma DrawRest(s: State)
    requires AllOwing(s) && AllDeserted(s)
    ensures AllOwing(DrawOne(s)) && AllDeserted(DrawOne(s))
  {
    var t := DrawOne(s);
    forall h | h in t.jobs ensures Owes(t, h) {
      assert Owes(s, h);
      forall w | t.jobs[h].Delivering? && w in t.jobs[h].left ensures Due(t, h, w) {
        assert Due(s, h, w);
      }
    }
    forall h | h in t.cancelled ensures Deserted(t, h) {
      assert Deserted(s, h);
    }
  }

  ghost predicate IsRun(run: seq<State>, acts: seq<Action>) {
    |run| == |acts| + 1 && run[0] == INITIAL &&
    forall i :: 0 <= i < |acts| ==> Enabled(run[i], acts[i]) && run[i + 1] == Next(run[i], acts[i])
  }

  /** In every run, at every moment, nobody is lost. */
  lemma {:induction false} EveryRun(run: seq<State>, acts: seq<Action>, k: nat)
    requires IsRun(run, acts) && k < |run|
    ensures Inv(run[k])
  {
    if k > 0 {
      EveryRun(run, acts, k - 1);
      NextKeeps(run[k - 1], acts[k - 1]);
    }
  }

  /** The flight an action is about. */
  ghost function About(s: State, a: Action): nat
    requires Enabled(s, a)
  {
    match a
    case Draw => s.nextId + 1
    case Joins(request) => s.entries[Key(request)].generation
    case Starts(request) => s.nextId + 2
    case Leaves(id) => s.regs[id].generation
    case Takes(g, _) => g
    case Sends(g, _) => g
    case Retires(g) => g
  }

  /** What a flight consists of besides the counter. */
  ghost predicate SameFlight(s: State, t: State, g: nat) {
    (forall key :: key in s.entries && s.entries[key].generation == g ==> key in t.entries && t.entries[key] == s.entries[key]) &&
    (g in s.jobs ==> g in t.jobs && t.jobs[g] == s.jobs[g]) && (g in t.cancelled ==> g in s.cancelled) &&
    (forall w :: w in s.inbox && s.inbox[w].generation == g ==> w in t.inbox && t.inbox[w] == s.inbox[w]) &&
    (forall w :: w in s.regs && s.regs[w].generation == g ==> w in t.regs && t.regs[w] == s.regs[w])
  }

  lemma NotYetDrawn(s: State)
    requires Numbered(s)
    ensures s.nextId + 1 !in s.inbox && s.nextId + 1 !in s.regs
  {
    forall w | w in s.inbox ensures w <= s.nextId {
      assert Opened(s, s.inbox[w], w);
    }
    forall w | w in s.regs ensures w in s.inbox {
      assert Enrolled(s, s.regs[w], w);
    }
  }

  lemma ArrivalIsolated(s: State, a: Action, other: nat)
    requires Numbered(s) && Enabled(s, a) && (a.Draw? || a.Joins? || a.Starts?) && other != About(s, a)
    ensures SameFlight(s, Next(s, a), other)
  {
    NotYetDrawn(s);
  }

  lemma LeaveIsolated(s: State, id: nat, other: nat)
    requires id in s.regs && other != s.regs[id].generation
    ensures SameFlight(s, Leave(s, id), other)
  {
  }

  lemma CompletionIsolated(s: State, a: Action, other: nat)
    requires AllOwing(s) && Enabled(s, a) && (a.Takes? || a.Sends? || a.Retires?) && other != About(s, a)
    ensures SameFlight(s, Next(s, a), other)
  {
    if a.Sends? {
      assert Owes(s, a.generation) && Due(s, a.generation, a.id);
    }
  }

  /** Flights do not disturb each other: what happens to one, however late,
      neither removes, answers nor cancels another, even under the same key. */
  lemma Isolation(s: State, a: Action, other: nat)
    requires Inv(s) && Enabled(s, a) && other != About(s, a)
    ensures SameFlight(s, Next(s, a), other)
  {
    if a.Leaves? {
      LeaveIsolated(s, a.id, other);
    } else if a.Draw? || a.Joins? || a.Starts? {
      ArrivalIsolated(s, a, other);
    } else {
      CompletionIsolated(s, a, other);
    }
  }

  /** What an action introduces was used by nothing before, and the counter only
      grows. */
  lemma FreshNumbers(s: State, a: Action)
    requires Numbered(s) && Enabled(s, a)
    ensures Next(s, a).nextId >= s.nextId
    ensures forall w :: w in Next(s, a).inbox && w !in s.inbox ==> w > s.nextId
    ensures forall g :: g in Next(s, a).jobs && g !in s.jobs ==> g > s.nextId
    ensures forall w :: w in s.inbox ==> w in Next(s, a).inbox && s.inbox[w].sent <= Next(s, a).inbox[w].sent
  {
    NotYetDrawn(s);
  }

  /** The number stands for something in this state. */
  ghost predicate Occurs(s: State, n: nat) {
    n in s.inbox || n in s.jobs || n in s.regs || n in s.cancelled || exists w :: w in s.inbox && s.inbox[w].generation == n
  }

  /** The action gave the number to a new waiter or a new flight. */
  ghost predicate Introduced(s: State, t: State, n: nat) {
    (n in t.inbox && n !in s.inbox) || (n in t.jobs && n !in s.jobs)
  }

  lemma OccursBelow(s: State, n: nat)
    requires Numbered(s) && Occurs(s, n)
    ensures n <= s.nextId
  {
    if n in s.regs {
      assert Enrolled(s, s.regs[n], n);
    }
    if n in s.inbox {
      assert Opened(s, s.inbox[n], n);
    } else if w :| w in s.inbox && s.inbox[w].generation == n {
      assert Opened(s, s.inbox[w], w);
    }
  }

  lemma {:induction false} CounterGrows(run: seq<State>, acts: seq<Action>, i: nat, k: nat)
    requires IsRun(run, acts) && i <= k < |run|
    ensures run[i].nextId <= run[k].nextId
  {
    if i < k {
      CounterGrows(run, acts, i, k - 1);
      NumberedInRun(run, acts, k - 1);
      FreshNumbers(run[k - 1], acts[k - 1]);
    }
  }

  /** Numbers are never reused: one that a step gives to a waiter or a flight stood for
      nothing in any earlier state of the run. */
  lemma NeverReused(run: seq<State>, acts: seq<Action>, i: nat, k: nat, n: nat)
    requires IsRun(run, acts) && i < k < |run| && Introduced(run[k - 1], run[k], n)
    ensures !Occurs(run[i], n)
  {
    IntroducedAbove(run, acts, k, n);
    CounterGrows(run, acts, i, k - 1);
    OccursInRun(run, acts, i, n);
  }

  lemma OccursInRun(run: seq<State>, acts: seq<Action>, i: nat, n: nat)
    requires IsRun(run, acts) && i < |run|
    ensures Occurs(run[i], n) ==> n <= run[i].nextId
  {
    NumberedInRun(run, acts, i);
    if Occurs(run[i], n) {
      OccursBelow(run[i], n);
    }
  }

  lemma IntroducedAbove(run: seq<State>, acts: seq<Action>, k: nat, n: nat)
    requires IsRun(run, acts) && 0 < k < |run| && Introduced(run[k - 1], run[k], n)
    ensures n > run[k - 1].nextId
  {
    NumberedInRun(run, acts, k - 1);
    IntroducedFresh(run[k - 1], acts[k - 1], n);
  }

  lemma NumberedInRun(run: seq<State>, acts: seq<Action>, i: nat)
    requires IsRun(run, acts) && i < |run|
    ensures Numbered(run[i])
  {
    EveryRun(run, acts, i);
  }

  lemma IntroducedFresh(s: State, a: Action, n: nat)
    requires Numbered(s) && Enabled(s, a) && Introduced(s, Next(s, a), n)
    ensures n > s.nextId
  {
    FreshNumbers(s, a);
  }

  /** A state some run leads to. */
  ghost predicate Reached(s: State) {
    exists run: seq<State>, acts: seq<Action> :: IsRun(run, acts) && run[|acts|] == s
  }

  lemma ReachedInitially()
    ensures Reached(INITIAL)
  {
    assert IsRun([INITIAL], []);
  }

  lemma ReachedNext(s: State, a: Action)
    requires Reached(s) && Enabled(s, a)
    ensures Reached(Next(s, a))
  {
    var run: seq<State>, acts: seq<Action> :| IsRun(run, acts) && run[|acts|] == s;
    var run', acts' := run + [Next(s, a)], acts + [a];
    assert IsRun(run', acts') && run'[|acts'|] == Next(s, a);
  }

  lemma ReachedArrival(s: State, request: Request)
    requires Reached(s)
    ensures Key(request) in s.entries ==> Reached(JoinFlight(s, request))
    ensures Key(request) !in s.entries ==> Reached(StartFlight(s, request))
    ensures Reached(s.(nextId := s.nextId + 1))
  {
    ReachedNext(s, Draw);
    if Key(request) in s.entries {
      ReachedNext(s, Joins(request));
    } else {
      ReachedNext(s, Starts(request));
    }
  }

  lemma ReachedLeave(s: State, id: nat)
    requires Reached(s) && id in s.regs
    ensures Reached(Leave(s, id))
  {
    ReachedNext(s, Leaves(id));
  }

  lemma ReachedIsSafe(s: State)
    requires Reached(s)
    ensures Inv(s)
  {
    var run: seq<State>, acts: seq<Action> :| IsRun(run, acts) && run[|acts|] == s;
    EveryRun(run, acts, |acts|);
  }

  /** The numbers after the counter are free. */
  lemma ReachedNumbers(s: State)
    requires Reached(s)
    ensures s.nextId + 1 !in s.inbox && s.nextId + 1 !in s.regs && s.nextId + 1 !in s.jobs && s.nextId + 2 !in s.jobs
  {
    ReachedIsSafe(s);
    NotYetDrawn(s);
  }

  /** Whom a delivering job owes an answer has an open channel. */
  lemma ReachedDue(s: State, g: nat, id: nat)
    requires Reached(s) && g in s.jobs && s.jobs[g].Delivering? && id in s.jobs[g].left
    ensures id in s.inbox
  {
    ReachedIsSafe(s);
    assert Owes(s, g) && Due(s, g, id);
  }

  /** A job with nobody left to answer has answered all that are live. */
  lemma ReachedAnswered(s: State, g: nat, w: nat)
    requires Reached(s) && g in s.jobs && s.jobs[g].Delivering? && s.jobs[g].left == {}
    requires w in s.regs && s.regs[w].generation == g
    ensures AnsweredBy(Retire(s, g), s.regs[w], s.jobs[g].result)
  {
    ReachedIsSafe(s);
    assert Owes(s, g) && Served(s, s.regs[w]);
    RetireAnswers(s, g, w);
  }
}

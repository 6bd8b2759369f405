/** A small cache of chunk facts, least recently used first out, whose charges
    follow ownership: a fact is charged until its last holder lets go of it,
    whether or not it is still cached. */
module IndexCache {
  import opened Base
  import opened IndexScan

  const CACHE_ENTRIES: nat := 128

  /** A cached fact: the number of its reservation, and when it was last used. */
  datatype Entry = Entry(id: nat, fact: Index, used: nat)

  type Slots = seq<Option<Entry>>

  predicate Matches(fact: Index, domain: string, digest: Digest, size: nat) {
    fact.domain == domain && fact.digest == digest && fact.size == size && fact.format == INDEX_FORMAT
  }

  predicate SameKey(a: Index, b: Index) {
    Matches(a, b.domain, b.digest, b.size)
  }

  /** Facts of the current format, no two with the same key or reservation. */
  ghost predicate Apart(es: Slots) {
    (forall i :: 0 <= i < |es| && es[i].Some? ==> es[i].value.fact.format == INDEX_FORMAT) &&
    forall i, j :: 0 <= i < |es| && 0 <= j < |es| && i != j && es[i].Some? && es[j].Some? ==>
      es[i].value.id != es[j].value.id && !SameKey(es[i].value.fact, es[j].value.fact)
  }

  /** No entry was used after now. */
  ghost predicate Stamped(es: Slots, clock: nat) {
    forall i :: 0 <= i < |es| && es[i].Some? ==> es[i].value.used <= clock
  }

  /** The fact of this reservation was used just now. */
  ghost predicate Newest(es: Slots, id: nat, clock: nat) {
    exists i :: 0 <= i < |es| && es[i].Some? && es[i].value.id == id && es[i].value.used == clock
  }

  ghost predicate Cached(es: Slots, id: nat) {
    exists i :: 0 <= i < |es| && es[i].Some? && es[i].value.id == id
  }

  ghost predicate Holds(es: Slots, fact: Index) {
    exists i :: 0 <= i < |es| && es[i].Some? && es[i].value.fact == fact
  }

  function Occupied(es: Slots): nat {
    if es == [] then 0 else Occupied(es[..|es| - 1]) + if es[|es| - 1].Some? then 1 else 0
  }

  lemma {:induction false} OccupiedClear(es: Slots, k: nat)
    requires k < |es| && es[k].Some?
    ensures Occupied(es[k := None]) == Occupied(es) - 1
  {
    if k < |es| - 1 {
      assert es[k := None][..|es| - 1] == es[..|es| - 1][k := None];
      OccupiedClear(es[..|es| - 1], k);
    } else {
      assert es[k := None][..|es| - 1] == es[..|es| - 1];
    }
  }

  // ------------------------------------------------------------------------ charges

  /** Live reservations, by number. */
  type Charges = map<nat, nat>

  function Charge(c: Charges, id: nat): nat {
    if id in c then c[id] else 0
  }

  /** The sum of all charges with numbers below `n`. */
  function Sum(c: Charges, n: nat): nat {
    if n == 0 then 0 else Sum(c, n - 1) + Charge(c, n - 1)
  }

  lemma {:induction false} SumChange(c: Charges, d: Charges, n: nat, id: nat)
    requires forall i :: i != id ==> Charge(c, i) == Charge(d, i)
    ensures Sum(d, n) == Sum(c, n) + if id < n then Charge(d, id) - Charge(c, id) else 0
  {
    if n > 0 {
      SumChange(c, d, n - 1, id);
    }
  }

  /** The holders of a reservation outside the cache: its builder and readers. */
  type Handles = map<nat, nat>

  function Handle(h: Handles, id: nat): nat {
    if id in h then h[id] else 0
  }

  /** Charged exactly while held, by the cache or by someone outside. */
  ghost predicate Owned(es: Slots, charges: Charges, outside: Handles, nextId: nat) {
    forall id: nat :: (id in charges <==> Cached(es, id) || Handle(outside, id) > 0) && (id in charges ==> id < nextId)
  }

  class Cache {
    const limit: nat
    const base: nat
    const entries: array<Option<Entry>>
    var owned: nat
    var clock: nat
    var nextId: nat
    var charges: Charges
    var outside: Handles

    /** The counter is the fixed base plus the charge of everything still held;
        slots have distinct keys. */
    ghost predicate Valid()
      reads this, entries
    {
      entries.Length == CACHE_ENTRIES && Apart(entries[..]) && Stamped(entries[..], clock) && clock <= U64_MAX &&
      owned == base + Sum(charges, nextId) && Owned(entries[..], charges, outside, nextId)
    }

    constructor (base: nat, limit: nat)
      ensures Valid() && fresh(entries) && this.base == base && this.limit == limit
      ensures owned == base && charges == map[] && forall k :: 0 <= k < |entries[..]| ==> entries[..][k].None?
    {
      this.base, this.limit, owned, clock, nextId, charges, outside := base, limit, base, 0, 0, map[], map[];
      entries := new Option<Entry>[CACHE_ENTRIES](_ => None);
    }

    /** Let go of one holder; the last one returns the charge. */
    method Release(id: nat)
      requires Valid() && Handle(outside, id) > 0
      modifies this`owned, this`charges, this`outside
      ensures Valid() && outside == old(outside)[id := old(outside)[id] - 1]
      ensures charges == if Cached(entries[..], id) || outside[id] > 0 then old(charges) else old(charges) - {id}
    {
      outside := outside[id := outside[id] - 1];
      Settle(id);
    }

    /** Return the charge of a reservation nobody holds any more. */
    method Settle(id: nat)
      requires entries.Length == CACHE_ENTRIES && owned == base + Sum(charges, nextId) && id in charges && id < nextId
      modifies this`owned, this`charges
      ensures owned == base + Sum(charges, nextId)
      ensures charges == if Cached(entries[..], id) || Handle(outside, id) > 0 then old(charges) else old(charges) - {id}
    {
      var cached := IsCached(id);
      if !cached && Handle(outside, id) == 0 {
        SumChange(charges, charges - {id}, nextId, id);
        owned := owned - charges[id];
        charges := charges - {id};
      }
    }

    method IsCached(id: nat) returns (yes: bool)
      ensures yes <==> Cached(entries[..], id)
    {
      for k := 0 to entries.Length
        invariant forall i :: 0 <= i < k ==> !(entries[i].Some? && entries[i].value.id == id)
      {
        if entries[k].Some? && entries[k].value.id == id {
          assert entries[..][k].value.id == id;
          return true;
        }
      }
      return false;
    }

    method Tick() returns (now: nat)
      requires Valid()
      modifies this`clock
      ensures Valid() && now == clock == Min(old(clock) + 1, U64_MAX)
    {
      clock := Min(clock + 1, U64_MAX);
      return clock;
    }

    /** The occupied slot that has gone unused longest. */
    method Oldest() returns (slot: Option<nat>)
      ensures slot.None? ==> forall i :: 0 <= i < entries.Length ==> entries[i].None?
      ensures slot.Some? ==> slot.value < entries.Length && entries[slot.value].Some?
      ensures slot.Some? ==> forall i :: 0 <= i < entries.Length && entries[i].Some? ==> entries[slot.value].value.used <= entries[i].value.used
    {
      slot := None;
      for k := 0 to entries.Length
        invariant slot.None? ==> forall i :: 0 <= i < k ==> entries[i].None?
        invariant slot.Some? ==> slot.value < k && entries[slot.value].Some?
        invariant slot.Some? ==> forall i :: 0 <= i < k && entries[i].Some? ==> entries[slot.value].value.used <= entries[i].value.used
      {
        if entries[k].Some? && (slot.None? || entries[k].value.used < entries[slot.value].value.used) {
          slot := Some(k);
        }
      }
    }

    /** Drop the cache's own hold on its oldest fact. A reader's hold, and so its
        charge, stays. */
    method EvictOldest() returns (evicted: bool, ghost k: nat)
      requires Valid()
      modifies this`owned, this`charges, entries
      ensures Valid() && outside == old(outside)
      ensures evicted <==> Occupied(entries[..]) < Occupied(old(entries[..]))
      ensures !evicted ==> entries[..] == old(entries[..]) && charges == old(charges) && forall i :: 0 <= i < entries.Length ==> entries[i].None?
      ensures evicted ==> Evicted(old(entries[..]), entries[..], k)
    {
      var slot := Oldest();
      k := 0;
      if slot.None? {
        return false, k;
      }
      ghost var es := entries[..];
      var id := entries[slot.value].value.id;
      OccupiedClear(es, slot.value);
      entries[slot.value] := None;
      assert entries[..] == es[slot.value := None];
      CachedWithout(es, slot.value);
      Settle(id);
      k := slot.value;
      return true, k;
    }

    /** Mark a slot as used now and take a hold on its fact. */
    method Touch(k: nat)
      requires Valid() && k < CACHE_ENTRIES && entries[k].Some?
      modifies this`outside, entries
      ensures Valid() && Newest(entries[..], old(entries[k]).value.id, clock)
      ensures outside == old(outside)[old(entries[k]).value.id := Handle(old(outside), old(entries[k]).value.id) + 1]
      ensures forall f :: Holds(entries[..], f) <==> Holds(old(entries[..]), f)
    {
      ghost var es := entries[..];
      var e := entries[k].value;
      TouchKeeps(es, k, clock);
      entries[k] := Some(e.(used := clock));
      assert entries[..] == es[k := Some(e.(used := clock))];
      assert entries[..][k].Some? && entries[..][k].value.used == clock;
      outside := outside[e.id := Handle(outside, e.id) + 1];
    }

    /** Find a fact and take a hold on it. */
    method Get(domain: string, digest: Digest, size: nat) returns (r: Option<(nat, Index)>)
      requires Valid()
      modifies this`clock, this`outside, entries
      ensures Valid() && charges == old(charges) && owned == old(owned)
      ensures r.Some? ==> Holds(old(entries[..]), r.value.1) && Matches(r.value.1, domain, digest, size)
      ensures r.Some? ==> outside == old(outside)[r.value.0 := Handle(old(outside), r.value.0) + 1]
      ensures r.Some? ==> Newest(entries[..], r.value.0, clock)
      ensures clock == Min(old(clock) + 1, U64_MAX)
      ensures r.None? ==> outside == old(outside) && forall f :: Holds(old(entries[..]), f) ==> !Matches(f, domain, digest, size)
      ensures forall f :: Holds(entries[..], f) <==> Holds(old(entries[..]), f)
    {
      var now := Tick();
      var k := Find(domain, digest, size);
      if k.None? {
        return None;
      }
      r := Hold(k.value);
    }

    /** Stamp a slot as newest and hold its fact. */
    method Hold(k: nat) returns (r: Option<(nat, Index)>)
      requires Valid() && k < CACHE_ENTRIES && entries[k].Some?
      modifies this`outside, entries
      ensures Valid() && r == Some((old(entries[k]).value.id, old(entries[k]).value.fact)) && Newest(entries[..], r.value.0, clock)
      ensures outside == old(outside)[r.value.0 := Handle(old(outside), r.value.0) + 1]
      ensures forall f :: Holds(entries[..], f) <==> Holds(old(entries[..]), f)
    {
      var e := entries[k].value;
      Touch(k);
      return Some((e.id, e.fact));
    }

    /** The slot with a matching fact, if there is one. */
    method Find(domain: string, digest: Digest, size: nat) returns (k: Option<nat>)
      ensures k.Some? ==> k.value < entries.Length && entries[k.value].Some? && Matches(entries[k.value].value.fact, domain, digest, size)
      ensures k.Some? ==> Holds(entries[..], entries[k.value].value.fact)
      ensures k.None? ==> forall f :: Holds(entries[..], f) ==> !Matches(f, domain, digest, size)
    {
      for i := 0 to entries.Length
        invariant forall j :: 0 <= j < i && entries[j].Some? ==> !Matches(entries[j].value.fact, domain, digest, size)
      {
        if entries[i].Some? && Matches(entries[i].value.fact, domain, digest, size) {
          assert entries[..][i].Some?;
          return Some(i);
        }
      }
      return None;
    }

    /** Charge a builder, evicting as needed. Refusal means the cache is empty and
        what is still held outside leaves no room. */
    method Reserve(bytes: nat) returns (r: Option<nat>)
      requires Valid()
      modifies this, entries
      ensures Valid() && clock == old(clock)
      ensures r.Some? ==> owned <= limit && r.value == old(nextId) == nextId - 1
      ensures r.Some? ==> outside == old(outside)[r.value := 1] && r.value in charges && charges[r.value] == bytes
      ensures r.Some? ==> Handle(old(outside), r.value) == 0 && !Cached(entries[..], r.value)
      ensures r.None? ==> outside == old(outside) && owned + bytes > limit && Occupied(entries[..]) == 0
      ensures forall f :: Holds(entries[..], f) ==> Holds(old(entries[..]), f)
    {
      while owned + bytes > limit
        invariant Valid() && clock == old(clock) && nextId == old(nextId) && outside == old(outside)
        invariant forall f :: Holds(entries[..], f) ==> Holds(old(entries[..]), f)
        decreases Occupied(entries[..])
      {
        ghost var es := entries[..];
        var evicted, k := EvictOldest();
        if !evicted {
          NoneOccupied(entries[..]);
          return None;
        }
        EvictedHolds(es, entries[..], k);
      }
      GrantKeeps(entries[..], charges, outside, nextId, bytes);
      charges := charges[nextId := bytes];
      outside := outside[nextId := 1];
      owned := owned + bytes;
      nextId := nextId + 1;
      return Some(nextId - 1);
    }

    method HasKey(fact: Index) returns (yes: bool)
      ensures yes <==> exists i :: 0 <= i < |entries[..]| && entries[..][i].Some? && SameKey(entries[..][i].value.fact, fact)
    {
      for k := 0 to entries.Length
        invariant forall i :: 0 <= i < k ==> !(entries[i].Some? && SameKey(entries[i].value.fact, fact))
      {
        if entries[k].Some? && SameKey(entries[k].value.fact, fact) {
          assert entries[..][k].Some? && SameKey(entries[..][k].value.fact, fact);
          return true;
        }
      }
      return false;
    }

    method FirstFree() returns (slot: Option<nat>)
      ensures slot.Some? ==> slot.value < entries.Length && entries[slot.value].None?
      ensures slot.None? ==> forall i :: 0 <= i < entries.Length ==> entries[i].Some?
    {
      for k := 0 to entries.Length
        invariant forall i :: 0 <= i < k ==> entries[i].Some?
      {
        if entries[k].None? {
          return Some(k);
        }
      }
      return None;
    }

    /** Hand a finished fact to the cache. If its key is already there the new
        fact is dropped, and its charge with it. */
    method Publish(id: nat, fact: Index)
      requires Valid() && fact.format == INDEX_FORMAT && Handle(outside, id) == 1 && !Cached(entries[..], id)
      modifies this, entries
      ensures Valid() && nextId == old(nextId) && outside == old(outside)[id := 0]
      ensures forall f :: Holds(entries[..], f) ==> Holds(old(entries[..]), f) || f == fact
      ensures HasFactFor(entries[..], fact)
      ensures Cached(entries[..], id) ==> Newest(entries[..], id, clock)
    {
      var known := HasKey(fact);
      if known {
        Release(id);
        return;
      }
      var slot := MakeRoom(id, fact);
      var now := Tick();
      Place(slot, id, fact, now);
    }

    /** A free slot, evicting only from a full cache. */
    method MakeRoom(id: nat, fact: Index) returns (slot: nat)
      requires Valid() && KeyFree(entries[..], fact) && !Cached(entries[..], id)
      modifies this`owned, this`charges, entries
      ensures Valid() && outside == old(outside) && KeyFree(entries[..], fact) && !Cached(entries[..], id)
      ensures slot < CACHE_ENTRIES && entries[slot].None?
      ensures forall f :: Holds(entries[..], f) ==> Holds(old(entries[..]), f)
    {
      var free := FirstFree();
      if free.Some? {
        return free.value;
      }
      ghost var es := entries[..];
      assert entries[0].Some?;
      var evicted, k := EvictOldest();
      EvictedHolds(es, entries[..], k);
      EvictedKeys(es, entries[..], k, fact, id);
      free := FirstFree();
      assert entries[..][k].None?;
      return free.value;
    }

    method Place(slot: nat, id: nat, fact: Index, now: nat)
      requires Valid() && Handle(outside, id) == 1 && !Cached(entries[..], id) && slot < CACHE_ENTRIES && entries[slot].None?
      requires KeyFree(entries[..], fact) && now == clock
      modifies this`outside, entries
      ensures Valid() && outside == old(outside)[id := 0] && entries[..] == old(entries[..])[slot := Some(Entry(id, fact, now))]
      ensures forall f :: Holds(entries[..], f) ==> Holds(old(entries[..]), f) || f == fact
      ensures HasFactFor(entries[..], fact) && Newest(entries[..], id, clock)
    {
      PlaceKeeps(entries[..], slot, Entry(id, fact, now));
      ghost var es := entries[..];
      entries[slot] := Some(Entry(id, fact, now));
      assert entries[..] == es[slot := Some(Entry(id, fact, now))];
      assert entries[..][slot].Some? && entries[..][slot].value.used == clock;
      outside := outside[id := 0];
    }
  }

  ghost predicate HasFactFor(es: Slots, fact: Index) {
    exists f :: Holds(es, f) && SameKey(f, fact)
  }

  ghost predicate KeyFree(es: Slots, fact: Index) {
    fact.format == INDEX_FORMAT && forall i :: 0 <= i < |es| && es[i].Some? ==> !SameKey(es[i].value.fact, fact)
  }

  lemma EvictedKeys(es: Slots, es': Slots, k: nat, fact: Index, id: nat)
    requires Evicted(es, es', k)
    ensures KeyFree(es, fact) ==> KeyFree(es', fact)
    ensures !Cached(es, id) ==> !Cached(es', id)
  {
    if Cached(es', id) {
      var i :| 0 <= i < |es'| && es'[i].Some? && es'[i].value.id == id;
      assert es[i] == es'[i];
    }
  }

  lemma PlaceKeeps(es: Slots, k: nat, e: Entry)
    requires k < |es| && es[k].None? && Apart(es) && KeyFree(es, e.fact) && !Cached(es, e.id)
    ensures var es' := es[k := Some(e)];
            Apart(es') && (forall id :: Cached(es', id) <==> Cached(es, id) || id == e.id) &&
            (forall f :: Holds(es', f) ==> Holds(es, f) || f == e.fact) && HasFactFor(es', e.fact)
  {
    var es' := es[k := Some(e)];
    assert es'[k].Some? && es'[k].value.id == e.id;
    forall i | 0 <= i < |es| && es[i].Some? ensures es[i].value.id != e.id && !SameKey(e.fact, es[i].value.fact) {
      assert !SameKey(es[i].value.fact, e.fact);
    }
    forall id | Cached(es, id) ensures Cached(es', id) {
      var i :| 0 <= i < |es| && es[i].Some? && es[i].value.id == id;
      assert es'[i] == es[i];
    }
    forall f | Holds(es', f) && f != e.fact ensures Holds(es, f) {
      var i :| 0 <= i < |es'| && es'[i].Some? && es'[i].value.fact == f;
      assert es[i] == es'[i];
    }
    assert Holds(es', e.fact) && SameKey(e.fact, e.fact);
  }

  lemma TouchKeeps(es: Slots, k: nat, now: nat)
    requires k < |es| && es[k].Some?
    ensures var es' := es[k := Some(es[k].value.(used := now))];
            (Apart(es) ==> Apart(es')) && (forall id :: Cached(es', id) <==> Cached(es, id)) &&
            (forall f :: Holds(es', f) <==> Holds(es, f))
  {
    var es' := es[k := Some(es[k].value.(used := now))];
    forall id | Cached(es, id) ensures Cached(es', id) {
      var i :| 0 <= i < |es| && es[i].Some? && es[i].value.id == id;
      assert es'[i].Some? && es'[i].value.id == id;
    }
    forall f | Holds(es, f) ensures Holds(es', f) {
      var i :| 0 <= i < |es| && es[i].Some? && es[i].value.fact == f;
      assert es'[i].Some? && es'[i].value.fact == f;
    }
  }

  lemma EvictedHolds(es: Slots, es': Slots, k: nat)
    requires Evicted(es, es', k)
    ensures forall f :: Holds(es', f) ==> Holds(es, f)
  {
    forall f | Holds(es', f) ensures Holds(es, f) {
      var i :| 0 <= i < |es'| && es'[i].Some? && es'[i].value.fact == f;
      assert es[i] == es'[i];
    }
  }

  lemma {:induction false} NoneOccupied(es: Slots)
    requires forall i :: 0 <= i < |es| ==> es[i].None?
    ensures Occupied(es) == 0
  {
    if es != [] {
      NoneOccupied(es[..|es| - 1]);
    }
  }

  lemma GrantKeeps(es: Slots, charges: Charges, outside: Handles, nextId: nat, bytes: nat)
    requires Owned(es, charges, outside, nextId)
    ensures Owned(es, charges[nextId := bytes], outside[nextId := 1], nextId + 1)
    ensures Sum(charges[nextId := bytes], nextId + 1) == Sum(charges, nextId) + bytes
  {
    SumChange(charges, charges[nextId := bytes], nextId, nextId);
  }

  /** Slot `k`, one of the longest unused, was cleared and nothing else. */
  ghost predicate Evicted(es: Slots, es': Slots, k: nat) {
    k < |es| && es[k].Some? && es' == es[k := None] &&
    forall i :: 0 <= i < |es| && es[i].Some? ==> es[k].value.used <= es[i].value.used
  }

  lemma CachedWithout(es: Slots, k: nat)
    requires k < |es| && es[k].Some? && Apart(es)
    ensures Apart(es[k := None]) && !Cached(es[k := None], es[k].value.id)
    ensures forall id :: id != es[k].value.id ==> (Cached(es[k := None], id) <==> Cached(es, id))
  {
    var es' := es[k := None];
    forall id | id != es[k].value.id && Cached(es, id) ensures Cached(es', id) {
      var i :| 0 <= i < |es| && es[i].Some? && es[i].value.id == id;
      assert es'[i] == es[i];
    }
    forall id | Cached(es', id) ensures Cached(es, id) {
      var i :| 0 <= i < |es'| && es'[i].Some? && es'[i].value.id == id;
      assert es'[i] == es[i];
    }
  }
}

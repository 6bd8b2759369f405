/** Byte and entry admission of a managed scope: a conservative ledger, writers'
    and hydrations' reservations. */
module CacheLedger {
  import opened Base
  import opened Manifest
  import CacheProof

  const ENTRY_CHARGE: nat := CacheProof.ENTRY_CHARGE
  const CONTROL_BYTES: nat := CacheProof.CONTROL_BYTES
  /** What one write is charged besides its bytes: a control record of 16 KiB and
      three entries of 4 KiB. */
  const WRITE_CHARGE: nat := 28672

  function Overhead(writes: nat): nat {
    28672 * writes
  }

  datatype Limits = Limits(maxBytes: nat, headroom: nat, maxEntries: nat, maxRootNodes: nat, maxDeleteEntries: nat, maxDeleteBytes: nat)

  /** A policy that passed validation. */
  predicate LimitsOk(l: Limits) {
    l.headroom < l.maxBytes <= U64_MAX && CONTROL_BYTES + 8 * ENTRY_CHARGE <= l.headroom && 0 < l.maxEntries <= U64_MAX &&
    0 < l.maxRootNodes && 0 < l.maxDeleteEntries && 0 < l.maxDeleteBytes
  }

  /** Who asks: ordinary writes, proofs of retained roots, and the control records
      that retire or revoke owners. */
  datatype Class = Ordinary | Proof | Emergency

  function ByteCapacity(l: Limits, c: Class): nat
    requires LimitsOk(l)
  {
    match c
    case Emergency => l.maxBytes
    case Proof => l.maxBytes - l.headroom / 4
    case Ordinary => l.maxBytes - l.headroom
  }

  function EntryCapacity(l: Limits, c: Class): nat {
    var headroom := Max(Min(l.headroom / ENTRY_CHARGE, l.maxEntries / 4), 1);
    match c
    case Emergency => l.maxEntries
    case Proof => Max(l.maxEntries - Max(headroom / 4, 1), 0)
    case Ordinary => Max(l.maxEntries - headroom, 0)
  }

  datatype Charges = Charges(bytes: nat, entries: nat)

  /** The ledger has room for this much of the class. */
  predicate Admits(l: Limits, ledger: Charges, c: Class, bytes: nat, entries: nat)
    requires LimitsOk(l)
  {
    ledger.bytes + bytes <= ByteCapacity(l, c) && ledger.entries + entries <= EntryCapacity(l, c)
  }

  /** The ledger has room for one write of so many bytes. */
  predicate AdmitsWrite(l: Limits, ledger: Charges, c: Class, bytes: nat)
    requires LimitsOk(l)
  {
    Admits(l, ledger, c, bytes + WRITE_CHARGE, 3)
  }

  /** After any admission of the one class, a write of the other still fits. */
  ghost predicate AlwaysFits(l: Limits, after: Class, c: Class, bytes: nat)
    requires LimitsOk(l)
  {
    forall ledger :: Admits(l, ledger, after, 0, 0) ==> AdmitsWrite(l, ledger, c, bytes)
  }

  /** It does exactly when it fits on top of a ledger the other class has filled. */
  lemma FitsOnFull(l: Limits, after: Class, c: Class, bytes: nat)
    requires LimitsOk(l)
    ensures AlwaysFits(l, after, c, bytes) <==> AdmitsWrite(l, Charges(ByteCapacity(l, after), EntryCapacity(l, after)), c, bytes)
  {
    assert Admits(l, Charges(ByteCapacity(l, after), EntryCapacity(l, after)), after, 0, 0);
  }

  /** The reserve for revocations: whatever proofs have been admitted, a control record
      of `bytes` bytes is, if and only if the policy leaves it enough headroom and has
      48 entries at least. */
  lemma EmergencyAfterProof(l: Limits, bytes: nat)
    requires LimitsOk(l)
    ensures AlwaysFits(l, Proof, Emergency, bytes) <==> l.headroom >= 4 * (bytes + WRITE_CHARGE) && l.maxEntries >= 48
  {
    FitsOnFull(l, Proof, Emergency, bytes);
    EntryReserve(l);
  }

  /** The reserve for proofs: whatever ordinary writes have been admitted. */
  lemma ProofAfterOrdinary(l: Limits, bytes: nat)
    requires LimitsOk(l)
    ensures AlwaysFits(l, Ordinary, Proof, bytes) <==> l.headroom - l.headroom / 4 >= bytes + WRITE_CHARGE && l.maxEntries >= 16
  {
    FitsOnFull(l, Ordinary, Proof, bytes);
    EntryReserve(l);
  }

  /** Three entries are reserved above proofs from 48 entries on, and above ordinary
      writes from 16 on: the smallest headroom a policy may have pays for 12. */
  lemma EntryReserve(l: Limits)
    requires LimitsOk(l)
    ensures EntryCapacity(l, Proof) + 3 <= EntryCapacity(l, Emergency) <==> l.maxEntries >= 48
    ensures EntryCapacity(l, Ordinary) + 3 <= EntryCapacity(l, Proof) <==> l.maxEntries >= 16
  {
    assert l.headroom / ENTRY_CHARGE >= 12;
  }

  /** A policy that validation accepts and under which a full proof admission leaves
      no room for a single revocation. */
  lemma TightPolicy()
    ensures LimitsOk(Limits(49153, 49152, 4, 1, 1, 1)) && !AlwaysFits(Limits(49153, 49152, 4, 1, 1, 1), Proof, Emergency, 0)
  {
    EmergencyAfterProof(Limits(49153, 49152, 4, 1, 1, 1), 0);
  }

  /** The scope's admission state: its ledger and the hydrations' recorded maxima. */
  class Scope {
    const limits: Limits
    var ledger: Charges
    var intents: map<nat, nat>
    var nextIntent: nat

    predicate Valid()
      reads this
    {
      LimitsOk(limits) && forall id :: id in intents ==> id < nextIntent
    }

    constructor (limits: Limits, ledger: Charges)
      requires LimitsOk(limits)
      ensures Valid() && this.limits == limits && this.ledger == ledger && intents == map[]
    {
      this.limits, this.ledger, intents, nextIntent := limits, ledger, map[], 0;
    }

    /** Charge the ledger for one class of write, or leave it. A record write that
        fails after its rename has charged nevertheless: never too little. */
    method Charge(c: Class, bytes: nat, entries: nat) returns (r: Result<()>)
      requires Valid()
      modifies this`ledger
      ensures r.Ok? ==> ledger == Charges(old(ledger).bytes + bytes, old(ledger).entries + entries)
      ensures r.Ok? ==> ledger.bytes <= ByteCapacity(limits, c) && ledger.entries <= EntryCapacity(limits, c)
      ensures ledger != old(ledger) ==> ledger == Charges(old(ledger).bytes + bytes, old(ledger).entries + entries)
      ensures ledger != old(ledger) ==> ledger.bytes <= ByteCapacity(limits, c) && ledger.entries <= EntryCapacity(limits, c)
      ensures r == Err(LimitExceeded) <==> !Admits(limits, old(ledger), c, bytes, entries)
      ensures r == Err(LimitExceeded) ==> ledger == old(ledger)
      ensures r.Err? ==> r.code == LimitExceeded || r.code == Internal
    {
      var next := Charges(ledger.bytes + bytes, ledger.entries + entries);
      if next.bytes > U64_MAX || next.entries > U64_MAX {
        return Err(LimitExceeded);
      }
      if next.bytes > ByteCapacity(limits, c) || next.entries > EntryCapacity(limits, c) {
        return Err(LimitExceeded);
      }
      var renamed, synced := *, *;
      if !renamed {
        return Err(Internal);
      }
      ledger := next;
      return if synced then Ok(()) else Err(Internal);
    }

    /** One write of its own: bytes, a control record, three entries. */
    method BeginWrite(c: Class, maximum: nat) returns (r: Result<()>)
      requires Valid()
      modifies this`ledger
      ensures r.Ok? ==> ledger == Charges(old(ledger).bytes + maximum + WRITE_CHARGE, old(ledger).entries + 3)
      ensures r == Err(LimitExceeded) <==> !AdmitsWrite(limits, old(ledger), c, maximum)
      ensures c != Emergency && ledger != old(ledger) ==> ledger.bytes <= limits.maxBytes - limits.headroom / 4
    {
      if maximum + WRITE_CHARGE > U64_MAX {
        return Err(LimitExceeded);
      }
      r := Charge(c, maximum + WRITE_CHARGE, 3);
    }
  }

  /** One hydration's reservation. What its children consume is covered by what
      its intent records, and that by what it added to the ledger. */
  class HydrationBudget {
    const scope: Scope
    const proof: bool
    const id: nat
    var remaining: nat
    ghost var consumed: nat
    ghost var added: nat

    function ClassOf(): Class {
      if proof then Proof else Ordinary
    }

    ghost predicate Valid()
      reads this, scope
    {
      scope.Valid() && id in scope.intents && consumed + remaining <= scope.intents[id] <= added
    }

    /** Reserve the whole charge before anything is written. */
    constructor (scope: Scope, id: nat, proof: bool, charge: nat)
      requires scope.Valid() && id in scope.intents && scope.intents[id] == charge
      ensures Valid() && this.scope == scope && this.id == id && this.proof == proof && remaining == charge && consumed == 0 && added == charge
    {
      this.scope, this.id, this.proof, remaining, consumed, added := scope, id, proof, charge, 0, charge;
    }

    /** Cover one child write, from what is left or by an additional reservation. */
    method Consume(bytes: nat) returns (r: Result<()>)
      requires Valid()
      modifies this, scope
      ensures Valid() && consumed == old(consumed) + (if r.Ok? then bytes else 0)
      ensures bytes <= old(remaining) ==> r.Ok? && scope.ledger == old(scope.ledger) && scope.intents == old(scope.intents)
      ensures scope.ledger.bytes - old(scope.ledger).bytes == added - old(added) >= 0
      ensures consumed + remaining - added <= old(consumed) + old(remaining) - old(added)
      ensures bytes <= old(remaining) ==> remaining == old(remaining) - bytes && added == old(added)
      ensures scope.ledger != old(scope.ledger) ==> scope.ledger.bytes <= scope.limits.maxBytes - scope.limits.headroom / 4
      ensures scope.intents.Keys == old(scope.intents.Keys) && forall j :: j in scope.intents && j != id ==> scope.intents[j] == old(scope.intents)[j]
    {
      if bytes <= remaining {
        remaining := remaining - bytes;
        consumed := consumed + bytes;
        return Ok(());
      }
      r := scope.Charge(ClassOf(), bytes, 3);
      if scope.ledger != old(scope.ledger) {
        added := added + bytes;
      }
      if r.Err? {
        return;
      }
      if scope.intents[id] + bytes > U64_MAX {
        return Err(LimitExceeded);
      }
      r := Raise(bytes);
      if r.Ok? {
        consumed := consumed + bytes;
      }
    }

    /** Record the higher maximum; a failed record write may have taken effect. */
    method Raise(bytes: nat) returns (r: Result<()>)
      requires scope.Valid() && id in scope.intents
      modifies scope`intents
      ensures scope.Valid() && scope.intents.Keys == old(scope.intents.Keys)
      ensures forall j :: j in scope.intents && j != id ==> scope.intents[j] == old(scope.intents)[j]
      ensures scope.intents[id] == old(scope.intents)[id] + bytes || (r.Err? && scope.intents[id] == old(scope.intents)[id])
    {
      var renamed, synced := *, *;
      if !renamed {
        return Err(Internal);
      }
      scope.intents := scope.intents[id := scope.intents[id] + bytes];
      return if synced then Ok(()) else Err(Internal);
    }
  }

  /** Admit a hydration: charge the ledger once and record the maximum. */
  method ReserveCharge(scope: Scope, charge: nat, entries: nat, proof: bool) returns (r: Result<HydrationBudget>)
    requires scope.Valid()
    modifies scope
    ensures scope.Valid()
    ensures r.Ok? ==> fresh(r.value) && r.value.Valid() && r.value.scope == scope && r.value.remaining == charge && r.value.added == charge
    ensures r.Ok? ==> scope.ledger.bytes == old(scope.ledger).bytes + charge
    ensures scope.ledger != old(scope.ledger) ==> scope.ledger.bytes <= scope.limits.maxBytes - scope.limits.headroom / 4
    ensures scope.ledger.bytes >= old(scope.ledger).bytes
  {
    var charged := scope.Charge(if proof then Proof else Ordinary, charge, entries);
    if charged.Err? {
      return Err(charged.code);
    }
    var recorded := *;
    if !recorded {
      return Err(Internal);
    }
    var id := scope.nextIntent;
    scope.intents := scope.intents[id := charge];
    scope.nextIntent := id + 1;
    var budget := new HydrationBudget(scope, id, proof, charge);
    return Ok(budget);
  }

  function Sum(ns: seq<nat>): nat {
    if ns == [] then 0 else Sum(ns[..|ns| - 1]) + ns[|ns| - 1]
  }

  function Granted(writes: seq<nat>, granted: seq<bool>): nat
    requires |writes| == |granted|
  {
    if writes == [] then 0
    else Granted(writes[..|writes| - 1], granted[..|writes| - 1]) + if granted[|writes| - 1] then writes[|writes| - 1] else 0
  }

  lemma {:induction false} SumPrefix(ns: seq<nat>, k: nat)
    requires k <= |ns|
    ensures Sum(ns[..k]) <= Sum(ns)
    decreases |ns|
  {
    if k < |ns| {
      SumPrefix(ns[..|ns| - 1], k);
      assert ns[..|ns| - 1][..k] == ns[..k];
    } else {
      assert ns[..k] == ns;
    }
  }

  /** Any sequence of child writes, planned or not: in all they never take more
      than the intent records, nor the intent more than was added. Writes within
      the reservation never touch the ledger. */
  method ConsumeAll(budget: HydrationBudget, writes: seq<nat>) returns (granted: seq<bool>)
    requires budget.Valid()
    modifies budget, budget.scope
    ensures budget.Valid() && |granted| == |writes|
    ensures budget.consumed - old(budget.consumed) == Granted(writes, granted) <= budget.added - old(budget.added) + old(budget.remaining)
    ensures budget.scope.ledger.bytes - old(budget.scope.ledger).bytes == budget.added - old(budget.added)
    ensures Sum(writes) <= old(budget.remaining) ==> budget.scope.ledger == old(budget.scope.ledger) && forall i :: 0 <= i < |granted| ==> granted[i]
  {
    granted := [];
    for k := 0 to |writes|
      invariant budget.Valid() && |granted| == k
      invariant budget.consumed - old(budget.consumed) == Granted(writes[..k], granted)
      invariant budget.consumed + budget.remaining - budget.added <= old(budget.consumed) + old(budget.remaining) - old(budget.added)
      invariant budget.scope.ledger.bytes - old(budget.scope.ledger).bytes == budget.added - old(budget.added)
      invariant Sum(writes) <= old(budget.remaining) ==>
                  budget.scope.ledger == old(budget.scope.ledger) && budget.remaining == old(budget.remaining) - Sum(writes[..k]) &&
                  forall i :: 0 <= i < k ==> granted[i]
    {
      SumPrefix(writes, k + 1);
      assert writes[..k + 1][..k] == writes[..k];
      var r := budget.Consume(writes[k]);
      assert (granted + [r.Ok?])[..k] == granted;
      granted := granted + [r.Ok?];
    }
    assert writes[..|writes|] == writes;
  }

  // -------------------------------------------------------------- planning a hydration

  /** The distinct contents a hydration still has to write. */
  function Missing(m: seq<SnapshotFile>, present: BlobDependency -> bool): seq<BlobDependency> {
    Absent(FirstUses(m), present)
  }

  function Absent(deps: seq<BlobDependency>, present: BlobDependency -> bool): seq<BlobDependency> {
    if deps == [] then []
    else Absent(deps[..|deps| - 1], present) + if present(deps[|deps| - 1]) then [] else [deps[|deps| - 1]]
  }

  function Sizes(deps: seq<BlobDependency>): (ns: seq<nat>)
    ensures |ns| == |deps|
  {
    seq(|deps|, i requires 0 <= i < |deps| => deps[i].size)
  }

  /** Journal chunks, proof pages and a fixed allowance of control records. */
  function ControlWrites(files: nat, manifestBytes: nat, proofPages: nat): nat {
    proofPages + manifestBytes / (128 * 1024) + files / 64 + 2 + 64
  }

  function PlannedCharge(missing: seq<BlobDependency>, control: nat, manifestBytes: nat, proofBytes: nat): nat {
    Sum(Sizes(missing)) + 16 * manifestBytes + 3 * proofBytes + Overhead(|missing| + control)
  }

  lemma SizesGrow(deps: seq<BlobDependency>, d: BlobDependency)
    ensures Sum(Sizes(deps + [d])) == Sum(Sizes(deps)) + d.size
  {
    assert Sizes(deps + [d])[..|deps|] == Sizes(deps);
  }

  /** Count one more manifest file. */
  lemma MissingStep(m: seq<SnapshotFile>, k: nat, present: BlobDependency -> bool)
    requires k < |m|
    ensures var dep, before, after := BlobDependency(m[k].contentDigest, m[k].size), Missing(m[..k], present), Missing(m[..k + 1], present);
            (forall d :: Uses(FirstUses(m[..k + 1]), d) <==> Uses(FirstUses(m[..k]), d) || d == dep.digest) &&
            (if Uses(FirstUses(m[..k]), dep.digest) || present(dep) then after == before
             else |after| == |before| + 1 && Sum(Sizes(after)) == Sum(Sizes(before)) + dep.size)
  {
    var dep := BlobDependency(m[k].contentDigest, m[k].size);
    assert m[..k + 1][..k] == m[..k] && m[..k + 1][k] == m[k];
    if !Uses(FirstUses(m[..k]), dep.digest) {
      UsesGrow(FirstUses(m[..k]), dep);
      AbsentGrow(FirstUses(m[..k]), dep, present);
      SizesGrow(Missing(m[..k], present), dep);
    }
  }

  lemma {:induction false} MissingGrows(m: seq<SnapshotFile>, k: nat, present: BlobDependency -> bool)
    requires k <= |m|
    ensures Sum(Sizes(Missing(m[..k], present))) <= Sum(Sizes(Missing(m, present)))
    decreases |m| - k
  {
    if k < |m| {
      MissingStep(m, k, present);
      MissingGrows(m, k + 1, present);
    } else {
      assert m[..k] == m;
    }
  }

  method CountMissing(m: seq<SnapshotFile>, present: BlobDependency -> bool) returns (r: Result<(nat, nat)>)
    ensures r.Ok? ==> r.value == (Sum(Sizes(Missing(m, present))), |Missing(m, present)|)
    ensures r.Err? ==> r.code == LimitExceeded && Sum(Sizes(Missing(m, present))) > U64_MAX
  {
    var unique: set<Digest>, bytes: nat, objects: nat := {}, 0, 0;
    for k := 0 to |m|
      invariant forall d :: d in unique <==> Uses(FirstUses(m[..k]), d)
      invariant bytes == Sum(Sizes(Missing(m[..k], present))) && objects == |Missing(m[..k], present)|
    {
      var dep := BlobDependency(m[k].contentDigest, m[k].size);
      MissingStep(m, k, present);
      if dep.digest !in unique {
        unique := unique + {dep.digest};
        if !present(dep) {
          if bytes + dep.size > U64_MAX {
            MissingGrows(m, k + 1, present);
            return Err(LimitExceeded);
          }
          bytes, objects := bytes + dep.size, objects + 1;
        }
      }
    }
    assert m[..|m|] == m;
    return Ok((bytes, objects));
  }

  /** The reservation a hydration asks for: every distinct missing object, and the
      control records. */
  method PlanHydration(l: Limits, m: seq<SnapshotFile>, present: BlobDependency -> bool, manifestBytes: nat, proofPages: nat, proofBytes: nat)
    returns (r: Result<(nat, nat)>)
    ensures r.Ok? ==> r.value.0 == PlannedCharge(Missing(m, present), ControlWrites(|m|, manifestBytes, proofPages), manifestBytes, proofBytes)
    ensures r.Ok? ==> r.value.1 == 3 * (|Missing(m, present)| + ControlWrites(|m|, manifestBytes, proofPages)) + 8
    ensures r.Ok? ==> |m| <= l.maxRootNodes && r.value.0 <= U64_MAX
    ensures r.Err? ==>
              r.code == LimitExceeded &&
              (|m| > l.maxRootNodes ||
               PlannedCharge(Missing(m, present), ControlWrites(|m|, manifestBytes, proofPages), manifestBytes, proofBytes) > U64_MAX)
  {
    if |m| > l.maxRootNodes {
      return Err(LimitExceeded);
    }
    var counted := CountMissing(m, present);
    if counted.Err? {
      return Err(counted.code);
    }
    var bytes, objects := counted.value.0, counted.value.1;
    var control := ControlWrites(|m|, manifestBytes, proofPages);
    var charge := bytes + 16 * manifestBytes + 3 * proofBytes + Overhead(objects + control);
    if charge > U64_MAX {
      return Err(LimitExceeded);
    }
    return Ok((charge, 3 * (objects + control) + 8));
  }

  lemma UsesGrow(deps: seq<BlobDependency>, d: BlobDependency)
    ensures forall x :: Uses(deps + [d], x) <==> Uses(deps, x) || x == d.digest
  {
    forall x | Uses(deps, x) || x == d.digest ensures Uses(deps + [d], x) {
      if Uses(deps, x) {
        var e :| e in deps && e.digest == x;
        assert e in deps + [d];
      } else {
        assert d in deps + [d];
      }
    }
  }

  lemma AbsentGrow(deps: seq<BlobDependency>, d: BlobDependency, present: BlobDependency -> bool)
    ensures Absent(deps + [d], present) == Absent(deps, present) + if present(d) then [] else [d]
  {
    assert (deps + [d])[..|deps|] == deps;
  }

  /** Each write with its control record. */
  function Charged(ns: seq<nat>): (cs: seq<nat>)
    ensures |cs| == |ns|
  {
    seq(|ns|, i requires 0 <= i < |ns| => ns[i] + WRITE_CHARGE)
  }

  lemma {:induction false} ChargedSum(ns: seq<nat>)
    ensures Sum(Charged(ns)) == Sum(ns) + Overhead(|ns|)
  {
    if ns != [] {
      ChargedSum(ns[..|ns| - 1]);
      assert Charged(ns)[..|ns| - 1] == Charged(ns[..|ns| - 1]);
    }
  }

  lemma {:induction false} SumConcat(a: seq<nat>, b: seq<nat>)
    ensures Sum(a + b) == Sum(a) + Sum(b)
    decreases |b|
  {
    if b == [] {
      assert a + b == a;
    } else {
      assert (a + b)[..|a + b| - 1] == a + b[..|b| - 1];
      SumConcat(a, b[..|b| - 1]);
    }
  }

  /** The plan covers the hydration: writing every missing object once, and the
      control records within their allowance, stays within the reservation. */
  lemma PlanCovers(missing: seq<BlobDependency>, control: nat, manifestBytes: nat, proofBytes: nat, records: seq<nat>)
    requires |records| <= control && Sum(records) <= 16 * manifestBytes + 3 * proofBytes
    ensures Sum(Charged(Sizes(missing)) + Charged(records)) <= PlannedCharge(missing, control, manifestBytes, proofBytes)
  {
    SumConcat(Charged(Sizes(missing)), Charged(records));
    ChargedSum(Sizes(missing));
    ChargedSum(records);
  }
}

/** The evidence cache: a file of endpoint evidence by identifier, with a time to live. */
module Cache {
  import opened Domain
  import opened Strings
  import opened Wrappers

  /** Instants and the time to live are in nanoseconds. */
  const SECOND: int := 1_000_000_000

  type Entries = map<string, Evidence>

  /** A record of a schema-0 file; a record that does not decode is Invalid. */
  datatype LegacyRecord = Invalid | Record(evidence: Evidence, schema: Option<nat>)

  datatype CacheFile =
    | Absent
    | Malformed
    | Newer(schema: nat)
    | Legacy(records: seq<LegacyRecord>)
    | Current(entries: Entries)

  datatype CacheError = UnsupportedEvidence | MalformedFile | NewerSchema | InvalidLegacyRecord | WriteFailed

  datatype CacheLookup = CacheLookup(evidence: Evidence, ageSeconds: nat, isFresh: bool)

  /** Whole seconds since the observation; an observation in the future is new. */
  function AgeSeconds(e: Evidence, now: int): nat {
    if now < e.observedAt then 0 else (now - e.observedAt) / SECOND
  }

  predicate Fresh(ttl: nat, e: Evidence, now: int) {
    AgeSeconds(e, now) * SECOND <= ttl
  }

  lemma FreshEarlier(ttl: nat, e: Evidence, now: int, later: int)
    requires now <= later && Fresh(ttl, e, later)
    ensures Fresh(ttl, e, now)
  {
    if e.observedAt <= now {
      assert (now - e.observedAt) / SECOND <= (later - e.observedAt) / SECOND;
    }
  }

  // ---------------------------------------------------------------- reading the file

  function Decode(record: LegacyRecord): Evidence
    requires record.Record?
  {
    record.evidence.(schemaVersion := if record.schema.Some? then record.schema.value else SCHEMA_VERSION)
  }

  /** The entries of a schema-0 file: the last record of an identifier counts. */
  function Migrated(records: seq<LegacyRecord>): Entries
    requires forall r :: r in records ==> r.Record?
  {
    if records == [] then map[] else
      assert records[|records| - 1] in records;
      var e := Decode(records[|records| - 1]);
      Migrated(records[..|records| - 1])[e.endpointId := e]
  }

  method MigrateV0(records: seq<LegacyRecord>) returns (r: Result<Entries, CacheError>)
    ensures r == LoadLegacy(records)
  {
    var entries: Entries := map[];
    for i := 0 to |records|
      invariant forall x :: x in records[..i] ==> x.Record?
      invariant entries == Migrated(records[..i])
    {
      if records[i].Invalid? {
        assert records[i] in records;
        return Failure(InvalidLegacyRecord);
      }
      var e := Decode(records[i]);
      entries := entries[e.endpointId := e];
      assert records[..i + 1][..i] == records[..i];
      assert records[..i + 1] == records[..i] + [records[i]];
    }
    assert records[..|records|] == records;
    r := Success(entries);
  }

  function LoadLegacy(records: seq<LegacyRecord>): Result<Entries, CacheError> {
    if Invalid in records then Failure(InvalidLegacyRecord) else Success(Migrated(records))
  }

  /** What the file holds. Only a file of this or an older schema can be read. */
  function Load(file: CacheFile): Result<Entries, CacheError> {
    match file
    case Absent => Success(map[])
    case Malformed => Failure(MalformedFile)
    case Newer(_) => Failure(NewerSchema)
    case Legacy(records) => LoadLegacy(records)
    case Current(entries) => Success(entries)
  }

  // ---------------------------------------------------------------- operations on the entries

  datatype Op = Store(evidence: Evidence) | Prune(now: int)

  function Apply(ttl: nat, m: Entries, op: Op): Entries {
    match op
    case Store(e) => m[e.endpointId := e]
    case Prune(now) => map id | id in m && Fresh(ttl, m[id], now) :: m[id]
  }

  function Stale(ttl: nat, m: Entries, now: int): set<string> {
    set id | id in m && !Fresh(ttl, m[id], now)
  }

  function FreshEntry(ttl: nat, m: Entries, id: string, now: int): Option<Evidence> {
    if id in m && Fresh(ttl, m[id], now) then Some(m[id]) else None
  }

  class CapabilityCache {
    const ttl: nat
    const identify: string -> string
    var file: CacheFile

    constructor (ttl: nat, identify: string -> string, file: CacheFile)
      ensures this.ttl == ttl && this.identify == identify && this.file == file
    {
      this.ttl, this.identify, this.file := ttl, identify, file;
    }

    method LoadDocument() returns (r: Result<Entries, CacheError>)
      ensures r == Load(file)
    {
      match file {
        case Absent => r := Success(map[]);
        case Malformed => r := Failure(MalformedFile);
        case Newer(_) => r := Failure(NewerSchema);
        case Legacy(records) => r := MigrateV0(records);
        case Current(entries) => r := Success(entries);
      }
    }

    method Lookup(endpoint: string, now: int) returns (r: Result<Option<CacheLookup>, CacheError>)
      ensures Load(file).Failure? ==> r == Failure(Load(file).error)
      ensures Load(file).Success? ==> var m, id := Load(file).value, identify(endpoint);
        r == Success(if id in m then Some(CacheLookup(m[id], AgeSeconds(m[id], now), Fresh(ttl, m[id], now))) else None)
    {
      var loaded := LoadDocument();
      if loaded.Failure? { return Failure(loaded.error); }
      var id := identify(endpoint);
      if id !in loaded.value { return Success(None); }
      var e := loaded.value[id];
      var age := AgeSeconds(e, now);
      r := Success(Some(CacheLookup(e, age, age * SECOND <= ttl)));
    }

    method GetFresh(endpoint: string, now: int) returns (r: Result<Option<Evidence>, CacheError>)
      ensures Load(file).Failure? ==> r == Failure(Load(file).error)
      ensures Load(file).Success? ==> r == Success(FreshEntry(ttl, Load(file).value, identify(endpoint), now))
    {
      var found := Lookup(endpoint, now);
      if found.Failure? { return Failure(found.error); }
      if found.value.Some? && found.value.value.isFresh {
        r := Success(Some(found.value.value.evidence));
      } else {
        r := Success(None);
      }
    }

    /** The file is replaced whole, or, when writing fails, not at all. */
    method WriteDocument(entries: Entries, writable: bool) returns (r: Result<(), CacheError>)
      modifies this
      ensures r == if writable then Success(()) else Failure(WriteFailed)
      ensures file == if writable then Current(entries) else old(file)
    {
      if !writable { return Failure(WriteFailed); }
      file := Current(entries);
      r := Success(());
    }

    /** An unsupported record, an unreadable file or a failing write leaves the file as it is. */
    method StoreEvidence(e: Evidence, writable: bool) returns (r: Result<(), CacheError>)
      modifies this
      ensures r ==
        if e.schemaVersion != SCHEMA_VERSION then Failure(UnsupportedEvidence)
        else if old(Load(file)).Failure? then Failure(old(Load(file)).error)
        else if !writable then Failure(WriteFailed)
        else Success(())
      ensures r.Success? ==> file == Current(Apply(ttl, old(Load(file)).value, Store(e)))
      ensures r.Failure? ==> file == old(file)
    {
      if e.schemaVersion != SCHEMA_VERSION { return Failure(UnsupportedEvidence); }
      var loaded := LoadDocument();
      if loaded.Failure? { return Failure(loaded.error); }
      r := WriteDocument(loaded.value[e.endpointId := e], writable);
    }

    /** Removes and counts exactly the stale entries; without any the file is not rewritten. */
    method RemoveExpired(now: int, writable: bool) returns (r: Result<nat, CacheError>)
      modifies this
      ensures old(Load(file)).Failure? ==> r == Failure(old(Load(file)).error)
      ensures old(Load(file)).Success? ==>
        var stale := Stale(ttl, old(Load(file)).value, now);
        r == if stale != {} && !writable then Failure(WriteFailed) else Success(|stale|)
      ensures r.Success? ==> Load(file) == Success(Apply(ttl, old(Load(file)).value, Prune(now)))
      ensures r.Failure? || r.value == 0 ==> file == old(file)
    {
      var loaded := LoadDocument();
      if loaded.Failure? { return Failure(loaded.error); }
      var before := loaded.value;
      var kept := map id | id in before && Fresh(ttl, before[id], now) :: before[id];
      PruneCounts(ttl, before, now);
      var removed := |before| - |kept|;
      if removed > 0 {
        var written := WriteDocument(kept, writable);
        if written.Failure? { return Failure(written.error); }
      }
      r := Success(removed);
    }

    /** All entries in the order of their identifiers. */
    method List(now: int) returns (r: Result<seq<CacheLookup>, CacheError>)
      ensures Load(file).Failure? ==> r == Failure(Load(file).error)
      ensures Load(file).Success? ==> r.Success?
      ensures r.Success? ==> var m := Load(file).value; var ids := Ascending(m.Keys);
        && |r.value| == |ids|
        && (forall i :: 0 <= i < |ids| ==> ids[i] in m)
        && (forall i :: 0 <= i < |ids| ==>
              r.value[i] == CacheLookup(m[ids[i]], AgeSeconds(m[ids[i]], now), Fresh(ttl, m[ids[i]], now)))
    {
      var loaded := LoadDocument();
      if loaded.Failure? { return Failure(loaded.error); }
      var m := loaded.value;
      var ids := Ascending(m.Keys);
      assert forall i :: 0 <= i < |ids| ==> ids[i] in ids;
      r := Success(seq(|ids|, i requires 0 <= i < |ids| =>
        CacheLookup(m[ids[i]], AgeSeconds(m[ids[i]], now), AgeSeconds(m[ids[i]], now) * SECOND <= ttl)));
    }
  }

  lemma PruneCounts(ttl: nat, m: Entries, now: int)
    ensures |Apply(ttl, m, Prune(now))| == |m| - |Stale(ttl, m, now)|
    ensures Stale(ttl, m, now) == {} ==> Apply(ttl, m, Prune(now)) == m
  {
    var kept := Apply(ttl, m, Prune(now));
    assert kept.Keys + Stale(ttl, m, now) == m.Keys;
    assert kept.Keys !! Stale(ttl, m, now);
    assert |kept.Keys| == |kept| && |m.Keys| == |m|;
  }

  // ---------------------------------------------------------------- runs

  /** The entries after a sequence of stores and prunes. */
  function Run(ttl: nat, m: Entries, ops: seq<Op>): Entries {
    if ops == [] then m else Apply(ttl, Run(ttl, m, ops[..|ops| - 1]), ops[|ops| - 1])
  }

  /** The plain map in which the last store of an identifier wins and nothing ever expires. */
  function LastStored(m: Entries, ops: seq<Op>): Entries {
    if ops == [] then m else
      var before := LastStored(m, ops[..|ops| - 1]);
      match ops[|ops| - 1]
      case Store(e) => before[e.endpointId := e]
      case Prune(_) => before
  }

  /** No prune since the last store of `id` met it stale. */
  predicate Survives(ttl: nat, m: Entries, ops: seq<Op>, id: string) {
    if ops == [] then true else
      var init := ops[..|ops| - 1];
      match ops[|ops| - 1]
      case Store(e) => e.endpointId == id || Survives(ttl, m, init, id)
      case Prune(now) =>
        && Survives(ttl, m, init, id)
        && (id in LastStored(m, init) ==> Fresh(ttl, LastStored(m, init)[id], now))
  }

  lemma {:induction false} RunIsLastStored(ttl: nat, m: Entries, ops: seq<Op>, id: string)
    ensures id in Run(ttl, m, ops) <==> id in LastStored(m, ops) && Survives(ttl, m, ops, id)
    ensures id in Run(ttl, m, ops) ==> Run(ttl, m, ops)[id] == LastStored(m, ops)[id]
  {
    if ops != [] {
      RunIsLastStored(ttl, m, ops[..|ops| - 1], id);
    }
  }

  /** When reading the cache after any run gives what the plain map filtered by age gives: unless a
      prune dropped evidence that the time of reading would still call fresh. */
  lemma ReadsAgreeIff(ttl: nat, m: Entries, ops: seq<Op>, id: string, now: int)
    ensures FreshEntry(ttl, Run(ttl, m, ops), id, now) == FreshEntry(ttl, LastStored(m, ops), id, now)
      <==> Survives(ttl, m, ops, id) || id !in LastStored(m, ops) || !Fresh(ttl, LastStored(m, ops)[id], now)
  {
    RunIsLastStored(ttl, m, ops, id);
  }

  /** A prune whose clock is a second ahead hides evidence from a read that would still call it fresh. */
  lemma PruneAheadHidesEvidence(e: Evidence)
    requires e.observedAt == 0
    ensures var ops := [Store(e), Prune(SECOND)];
      && FreshEntry(0, Run(0, map[], ops), e.endpointId, 0) == None
      && FreshEntry(0, LastStored(map[], ops), e.endpointId, 0) == Some(e)
  {
    var ops := [Store(e), Prune(SECOND)];
    assert ops[..1] == [Store(e)] && ops[..1][..0] == [];
    assert Run(0, map[], [Store(e)]) == Apply(0, Run(0, map[], []), Store(e));
    assert LastStored(map[], [Store(e)]) == map[e.endpointId := e];
    assert AgeSeconds(e, SECOND) == 1 && AgeSeconds(e, 0) == 0;
  }

  ghost predicate PrunesBy(ops: seq<Op>, now: int) {
    forall op :: op in ops && op.Prune? ==> op.now <= now
  }

  lemma {:induction false} FreshSurvives(ttl: nat, m: Entries, ops: seq<Op>, id: string, now: int)
    requires PrunesBy(ops, now)
    requires id in LastStored(m, ops) && Fresh(ttl, LastStored(m, ops)[id], now)
    ensures Survives(ttl, m, ops, id)
  {
    if ops != [] {
      var init, last := ops[..|ops| - 1], ops[|ops| - 1];
      assert last in ops;
      assert forall op :: op in init ==> op in ops;
      if last.Prune? {
        FreshSurvives(ttl, m, init, id, now);
        FreshEarlier(ttl, LastStored(m, init)[id], last.now, now);
      } else if last.evidence.endpointId != id {
        FreshSurvives(ttl, m, init, id, now);
      }
    }
  }

  /** While no prune is ahead of the reading time, the cache reads as the plain map filtered by age:
      prunes are invisible. */
  lemma {:induction false} ReadsLikeAPlainMap(ttl: nat, m: Entries, ops: seq<Op>, id: string, now: int)
    requires PrunesBy(ops, now)
    ensures FreshEntry(ttl, Run(ttl, m, ops), id, now) == FreshEntry(ttl, LastStored(m, ops), id, now)
  {
    ReadsAgreeIff(ttl, m, ops, id, now);
    if id in LastStored(m, ops) && Fresh(ttl, LastStored(m, ops)[id], now) {
      FreshSurvives(ttl, m, ops, id, now);
    }
  }

  /** One prune changes no reading from its own time on. */
  lemma PruneInvisible(ttl: nat, m: Entries, now: int, id: string, later: int)
    requires now <= later
    ensures FreshEntry(ttl, Apply(ttl, m, Prune(now)), id, later) == FreshEntry(ttl, m, id, later)
  {
    if id in m && Fresh(ttl, m[id], later) {
      FreshEarlier(ttl, m[id], now, later);
    }
  }

  // ---------------------------------------------------------------- keys

  ghost predicate KeyedById(m: Entries) {
    forall id :: id in m ==> m[id].endpointId == id
  }

  lemma {:induction false} RunKeepsKeys(ttl: nat, m: Entries, ops: seq<Op>)
    requires KeyedById(m)
    ensures KeyedById(Run(ttl, m, ops))
  {
    if ops != [] {
      RunKeepsKeys(ttl, m, ops[..|ops| - 1]);
    }
  }

  /** A migrated file holds every identifier of its records, and for each the last of its records. */
  lemma {:induction false} MigrationKeepsLast(records: seq<LegacyRecord>, id: string, i: nat)
    requires Invalid !in records && LastOf(records, id, i)
    ensures id in Migrated(records) && Migrated(records)[id] == Decode(records[i])
  {
    var init := records[..|records| - 1];
    assert records[|records| - 1] in records;
    if i < |init| {
      assert forall j :: 0 <= j < |init| ==> init[j] == records[j];
      MigrationKeepsLast(init, id, i);
    }
  }

  /** And it holds nothing else; every entry is filed under its own identifier. */
  lemma {:induction false} MigrationInventsNothing(records: seq<LegacyRecord>)
    requires Invalid !in records
    ensures KeyedById(Migrated(records))
    ensures forall id :: id in Migrated(records) ==> exists r :: r in records && r.Record? && Decode(r).endpointId == id
  {
    if records != [] {
      var init, last := records[..|records| - 1], records[|records| - 1];
      assert records == init + [last];
      MigrationInventsNothing(init);
    }
  }

  ghost predicate LastOf(records: seq<LegacyRecord>, id: string, i: int) {
    && 0 <= i < |records| && records[i].Record? && Decode(records[i]).endpointId == id
    && forall j :: i < j < |records| && records[j].Record? ==> Decode(records[j]).endpointId != id
  }

  // ---------------------------------------------------------------- nanoseconds, stores and records

  /** Evidence is fresh while less than one whole second has passed since the last whole second of its
      time to live; evidence from the future is fresh. */
  lemma FreshIff(ttl: nat, e: Evidence, now: int)
    ensures Fresh(ttl, e, now) <==> now - e.observedAt < (ttl / 1_000_000_000 + 1) * 1_000_000_000
    ensures e.observedAt <= now ==>
        AgeSeconds(e, now) * 1_000_000_000 <= now - e.observedAt < (AgeSeconds(e, now) + 1) * 1_000_000_000
    ensures now < e.observedAt ==> AgeSeconds(e, now) == 0
  {
    WholeSeconds(AgeSeconds(e, now), ttl);
    if e.observedAt <= now { SecondsPassed(now - e.observedAt, ttl / SECOND); }
  }

  lemma WholeSeconds(age: nat, ttl: nat)
    ensures age * SECOND <= ttl <==> age <= ttl / SECOND
  {
  }

  lemma SecondsPassed(nanoseconds: nat, seconds: nat)
    ensures nanoseconds / SECOND <= seconds <==> nanoseconds < (seconds + 1) * SECOND
  {
  }

  /** What a read finds, in nanoseconds. */
  lemma FreshEntryIff(ttl: nat, m: Entries, id: string, now: int, e: Evidence)
    ensures FreshEntry(ttl, m, id, now) == Some(e) <==>
      id in m && m[id] == e && now - e.observedAt < (ttl / 1_000_000_000 + 1) * 1_000_000_000
  {
    FreshIff(ttl, e, now);
    hide Fresh;
  }

  /** A store files its evidence and nothing else; a prune drops what is too old and nothing else. */
  lemma OperationRules(ttl: nat, m: Entries, e: Evidence, now: int, id: string)
    ensures var stored := Apply(ttl, m, Store(e));
      && e.endpointId in stored && stored[e.endpointId] == e
      && (id != e.endpointId ==> (id in stored <==> id in m) && (id in m ==> stored[id] == m[id]))
    ensures var pruned := Apply(ttl, m, Prune(now));
      && (id in pruned <==> id in m && now - m[id].observedAt < (ttl / 1_000_000_000 + 1) * 1_000_000_000)
      && (id in pruned ==> pruned[id] == m[id])
  {
    if id in m { FreshIff(ttl, m[id], now); }
    hide Fresh;
  }

  predicate Stores(op: Op, id: string) {
    op.Store? && op.evidence.endpointId == id
  }

  ghost predicate NeverStored(ops: seq<Op>, id: string) {
    forall j | 0 <= j < |ops| :: !Stores(ops[j], id)
  }

  ghost predicate LastStore(ops: seq<Op>, id: string, i: int) {
    0 <= i < |ops| && Stores(ops[i], id) && forall j | i < j < |ops| :: !Stores(ops[j], id)
  }

  lemma NeverStoredGrows(ops: seq<Op>, op: Op, id: string)
    ensures NeverStored(ops + [op], id) <==> NeverStored(ops, id) && !Stores(op, id)
  {
    hide Stores;
    assert forall j | 0 <= j < |ops| :: (ops + [op])[j] == ops[j];
    if NeverStored(ops + [op], id) {
      assert !Stores((ops + [op])[|ops|], id);
    }
  }

  /** The plain map holds what the last store of an identifier brought, or what was there before. */
  lemma {:induction false} LastStoredIff(m: Entries, ops: seq<Op>, id: string, e: Evidence)
    ensures id in LastStored(m, ops) && LastStored(m, ops)[id] == e <==>
      || (exists i :: LastStore(ops, id, i) && ops[i].evidence == e)
      || (NeverStored(ops, id) && id in m && m[id] == e)
  {
    if ops != [] {
      var init, last := ops[..|ops| - 1], ops[|ops| - 1];
      LastStoredIff(m, init, id, e);
      assert ops == init + [last];
      NeverStoredGrows(init, last, id);
      if Stores(last, id) {
        assert LastStore(ops, id, |ops| - 1);
        hide NeverStored, Stores;
        forall i | LastStore(ops, id, i) ensures i == |ops| - 1 { LastStoreIs(ops, id, i); }
      } else {
        hide NeverStored, Stores;
        forall i ensures LastStore(ops, id, i) <==> LastStore(init, id, i) { LastStoreBefore(init, last, id, i); }
      }
    }
  }

  lemma LastStoreIs(ops: seq<Op>, id: string, i: int)
    requires LastStore(ops, id, i) && Stores(ops[|ops| - 1], id)
    ensures i == |ops| - 1
  {
  }

  lemma LastStoreBefore(ops: seq<Op>, op: Op, id: string, i: int)
    requires !Stores(op, id)
    ensures LastStore(ops + [op], id, i) <==> LastStore(ops, id, i)
  {
    hide Stores;
    assert forall j | 0 <= j < |ops| :: (ops + [op])[j] == ops[j];
  }

  /** The prune at `k` comes after the last store of `id` and meets its evidence too old. */
  ghost predicate DroppedAt(ttl: nat, m: Entries, ops: seq<Op>, id: string, k: int) {
    && 0 <= k < |ops| && ops[k].Prune? && NeverStored(ops[k..], id)
    && id in LastStored(m, ops[..k])
    && ops[k].now - LastStored(m, ops[..k])[id].observedAt >= (ttl / 1_000_000_000 + 1) * 1_000_000_000
  }

  lemma DroppedBefore(ttl: nat, m: Entries, ops: seq<Op>, op: Op, id: string, k: nat)
    requires k < |ops|
    ensures DroppedAt(ttl, m, ops + [op], id, k) <==> DroppedAt(ttl, m, ops, id, k) && !Stores(op, id)
  {
    hide LastStored, NeverStored, Stores;
    assert (ops + [op])[k..] == ops[k..] + [op] && (ops + [op])[..k] == ops[..k];
    NeverStoredGrows(ops[k..], op, id);
  }

  lemma DroppedLast(ttl: nat, m: Entries, ops: seq<Op>, op: Op, id: string)
    ensures DroppedAt(ttl, m, ops + [op], id, |ops|) <==>
      op.Prune? && id in LastStored(m, ops) && !Fresh(ttl, LastStored(m, ops)[id], op.now)
  {
    hide LastStored;
    assert (ops + [op])[|ops|..] == [op] && (ops + [op])[..|ops|] == ops;
    if op.Prune? && id in LastStored(m, ops) { FreshIff(ttl, LastStored(m, ops)[id], op.now); }
    hide Fresh;
  }

  lemma {:induction false} SurvivesIff(ttl: nat, m: Entries, ops: seq<Op>, id: string)
    ensures Survives(ttl, m, ops, id) <==> forall k :: !DroppedAt(ttl, m, ops, id, k)
  {
    if ops == [] {
      forall k ensures !DroppedAt(ttl, m, ops, id, k) { }
    } else {
      hide LastStored, NeverStored, DroppedAt, Fresh;
      var init, last := ops[..|ops| - 1], ops[|ops| - 1];
      SurvivesIff(ttl, m, init, id);
      assert ops == init + [last];
      DroppedLast(ttl, m, init, last, id);
      forall k
        ensures 0 <= k < |init| ==>
            (DroppedAt(ttl, m, ops, id, k) <==> DroppedAt(ttl, m, init, id, k) && !Stores(last, id))
        ensures !(0 <= k < |init|) ==> !DroppedAt(ttl, m, init, id, k)
        ensures !(0 <= k < |ops|) ==> !DroppedAt(ttl, m, ops, id, k)
      {
        if 0 <= k < |init| { DroppedBefore(ttl, m, init, last, id, k); }
        OutOfRange(ttl, m, init, id, k);
        OutOfRange(ttl, m, ops, id, k);
      }
    }
  }

  lemma OutOfRange(ttl: nat, m: Entries, ops: seq<Op>, id: string, k: int)
    ensures DroppedAt(ttl, m, ops, id, k) ==> 0 <= k < |ops|
  {
  }

  /** A record keeps everything it says; only a schema it does not say is filled in, with the current one. */
  lemma DecodeRules(record: LegacyRecord)
    requires record.Record?
    ensures record.schema == None ==> Decode(record).schemaVersion == 1
    ensures record.schema.Some? ==> Decode(record).schemaVersion == record.schema.value
    ensures Decode(record).(schemaVersion := record.evidence.schemaVersion) == record.evidence
  {
  }
}

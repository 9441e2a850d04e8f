/** A request collection (`fac_requests`, and the FAC Lite one): records keyed by the unique
    `requestId`, the insert that a duplicate key rejects with error 11000, the bounded
    create-with-retry loop, the conditional update that claims a PENDING record for a
    decision, and the save of the review card's location. */
module RequestStores {
  import opened Wrappers
  import opened Faults
  import opened RequestSchema

  /** What MongoDB throws when the unique `requestId` index already holds the key. */
  const DuplicateKeyError: Thrown := ErrorInstance("E11000 duplicate key error", Some(Numeric(DuplicateKeyCode)), None)

  /** `for (let attempt = 0; attempt < 5; attempt++)`. */
  const MaxCreateAttempts := 5

  /** Every record is stored under its own `requestId`, which the unique index makes a key. */
  predicate KeyedById(records: map<string, RequestRecord>) {
    forall id :: id in records ==> records[id].requestId == id
  }

  /** How an insert under `requestId` fails: a taken key is a duplicate-key error; otherwise
      the store's own answer for this attempt (`fault`, e.g. a network or validation error). */
  function InsertError(records: map<string, RequestRecord>, requestId: string, fault: Option<Thrown>): (e: Option<Thrown>)
    ensures requestId in records ==> e == Some(DuplicateKeyError) && IsDuplicateError(e.value)
    ensures requestId !in records ==> e == fault
  {
    if requestId in records then Some(DuplicateKeyError) else fault
  }

  /** What `createPending...Request` ends with: the created record, `null` after five
      duplicate keys, or the first other error, which it rethrows. */
  datatype CreateOutcome = Created(record: RequestRecord) | Exhausted | Failed(error: Thrown)

  /** The create-with-retry loop over the generated ids and the store's answers, one per attempt. */
  function CreateSpec(records: map<string, RequestRecord>, ids: seq<string>, faults: seq<Option<Thrown>>, data: NewRequest, now: int): CreateOutcome
    requires |ids| == |faults|
    decreases |ids|
  {
    if ids == [] then Exhausted
    else
      match InsertError(records, ids[0], faults[0])
      case None => Created(PendingRecord(ids[0], data, now))
      case Some(e) =>
        if IsDuplicateError(e) then CreateSpec(records, ids[1..], faults[1..], data, now) else Failed(e)
  }

  /** The collection after a create: the new record added, or nothing changed. */
  function AfterCreate(records: map<string, RequestRecord>, outcome: CreateOutcome): map<string, RequestRecord> {
    if outcome.Created? then records[outcome.record.requestId := outcome.record] else records
  }

  /** `findOneAndUpdate({requestId, status: "PENDING"}, {$set: {status, decidedBy, decidedAt}}, {new: true})`:
      the updated record when it was still pending, nothing otherwise. */
  function ClaimResult(records: map<string, RequestRecord>, requestId: string, status: Status, decider: string, at: int): (r: Option<RequestRecord>)
    requires status != Pending
    ensures r.Some? <==> requestId in records && records[requestId].status == Pending
    ensures r.Some? ==> r.value == Decided(records[requestId], status, decider, at)
  {
    if requestId in records && records[requestId].status == Pending
    then Some(Decided(records[requestId], status, decider, at))
    else None
  }

  /** The collection after that conditional update. */
  function AfterClaim(records: map<string, RequestRecord>, requestId: string, status: Status, decider: string, at: int): map<string, RequestRecord>
    requires status != Pending
  {
    match ClaimResult(records, requestId, status, decider, at)
    case Some(d) => records[requestId := d]
    case None => records
  }

  /** The same request: the fields fixed at creation agree. */
  predicate SameRequest(a: RequestRecord, b: RequestRecord) {
    a.requestId == b.requestId && a.guildId == b.guildId && a.userId == b.userId
    && a.facRoleId == b.facRoleId && a.form == b.form && a.createdAt == b.createdAt
  }

  /** How a collection may evolve: no record disappears or changes identity, and a decided
      record keeps its status, decider and decision time. */
  predicate Evolves(before: map<string, RequestRecord>, after: map<string, RequestRecord>) {
    forall id :: id in before ==>
      id in after && SameRequest(before[id], after[id])
      && (before[id].status != Pending ==>
            after[id].status == before[id].status && after[id].decidedBy == before[id].decidedBy
            && after[id].decidedAt == before[id].decidedAt)
  }

  class RequestStore {
    var records: map<string, RequestRecord>

    predicate Valid()
      reads this
    {
      KeyedById(records)
    }

    constructor()
      ensures records == map[] && Valid()
    {
      records := map[];
    }

    /** `Model.create(record)`: rejected with error 11000 when the key is taken, with the
        store's own error when it fails otherwise, stored as given when it succeeds. */
    method Insert(r: RequestRecord, fault: Option<Thrown>) returns (result: Result<RequestRecord, Thrown>)
      requires Valid()
      modifies this
      ensures Valid()
      ensures result == (match InsertError(old(records), r.requestId, fault) case Some(e) => Err(e) case None => Ok(r))
      ensures records == (if result.Ok? then old(records)[r.requestId := r] else old(records))
    {
      var e := InsertError(records, r.requestId, fault);
      if e.Some? {
        return Err(e.value);
      }
      records := records[r.requestId := r];
      return Ok(r);
    }

    /** `createPending...Request`: up to five inserts, each under the next generated id,
        retrying only after a duplicate-key error. */
    method CreatePending(ids: seq<string>, faults: seq<Option<Thrown>>, data: NewRequest, now: int) returns (outcome: CreateOutcome)
      requires Valid() && |ids| == MaxCreateAttempts && |faults| == MaxCreateAttempts
      modifies this
      ensures Valid()
      ensures outcome == CreateSpec(old(records), ids, faults, data, now)
      ensures records == AfterCreate(old(records), outcome)
    {
      var attempt := 0;
      while attempt < MaxCreateAttempts
        invariant 0 <= attempt <= MaxCreateAttempts
        invariant Valid() && records == old(records)
        invariant CreateSpec(old(records), ids, faults, data, now)
               == CreateSpec(old(records), ids[attempt..], faults[attempt..], data, now)
      {
        assert ids[attempt..][1..] == ids[attempt + 1..];
        assert faults[attempt..][1..] == faults[attempt + 1..];
        var requestId := ids[attempt];
        var result := Insert(PendingRecord(requestId, data, now), faults[attempt]);
        if result.Ok? {
          return Created(result.value);
        }
        if !IsDuplicateError(result.error) {
          return Failed(result.error);
        }
        attempt := attempt + 1;
      }
      return Exhausted;
    }

    /** The atomic claim: decide the record only if it is still PENDING. */
    method Claim(requestId: string, status: Status, decider: string, at: int) returns (locked: Option<RequestRecord>)
      requires Valid() && status != Pending
      modifies this
      ensures Valid()
      ensures locked == ClaimResult(old(records), requestId, status, decider, at)
      ensures records == AfterClaim(old(records), requestId, status, decider, at)
    {
      if requestId in records && records[requestId].status == Pending {
        var d := Decided(records[requestId], status, decider, at);
        records := records[requestId := d];
        return Some(d);
      }
      return None;
    }

    /** `request.set("analiseMessageId", ...); request.set("analiseChannelId", ...); await request.save()`
        on the document just created: only those two fields change, unless the save fails. */
    method SaveCardLocation(requestId: string, messageId: string, channelId: string, fault: Option<Thrown>) returns (error: Option<Thrown>)
      requires Valid() && requestId in records
      modifies this
      ensures Valid()
      ensures error == fault
      ensures fault.Some? ==> records == old(records)
      ensures fault.None? ==> records == old(records)[requestId := old(records)[requestId].(analiseMessageId := Some(messageId), analiseChannelId := Some(channelId))]
    {
      if fault.Some? {
        return fault;
      }
      records := records[requestId := records[requestId].(analiseMessageId := Some(messageId), analiseChannelId := Some(channelId))];
      return None;
    }
  }

  // ---------------------------------------------------------------- create-with-retry

  /** The loop gives up (`null`) exactly when every attempt met a duplicate key. */
  lemma {:induction false} ExhaustedIffAllDuplicates(records: map<string, RequestRecord>, ids: seq<string>, faults: seq<Option<Thrown>>, data: NewRequest, now: int)
    requires |ids| == |faults|
    ensures CreateSpec(records, ids, faults, data, now) == Exhausted <==>
      forall k :: 0 <= k < |ids| ==> InsertError(records, ids[k], faults[k]).Some? && IsDuplicateError(InsertError(records, ids[k], faults[k]).value)
    decreases |ids|
  {
    if ids != [] {
      ExhaustedIffAllDuplicates(records, ids[1..], faults[1..], data, now);
      assert forall k :: 1 <= k < |ids| ==> ids[k] == ids[1..][k - 1] && faults[k] == faults[1..][k - 1];
    }
  }

  /** Only a non-duplicate error is rethrown, and it is the answer to some attempt. */
  lemma {:induction false} FailedOnlyOnOtherError(records: map<string, RequestRecord>, ids: seq<string>, faults: seq<Option<Thrown>>, data: NewRequest, now: int)
    requires |ids| == |faults| && CreateSpec(records, ids, faults, data, now).Failed?
    ensures !IsDuplicateError(CreateSpec(records, ids, faults, data, now).error)
    ensures exists k :: 0 <= k < |ids| && ids[k] !in records && faults[k] == Some(CreateSpec(records, ids, faults, data, now).error)
    decreases |ids|
  {
    var e := InsertError(records, ids[0], faults[0]);
    if e.Some? && IsDuplicateError(e.value) {
      FailedOnlyOnOtherError(records, ids[1..], faults[1..], data, now);
      var k :| 0 <= k < |ids[1..]| && ids[1..][k] !in records && faults[1..][k] == Some(CreateSpec(records, ids, faults, data, now).error);
      assert ids[k + 1] == ids[1..][k] && faults[k + 1] == faults[1..][k];
    } else {
      assert ids[0] !in records;
    }
  }

  /** A created record is a fresh PENDING record built from the request data, under one of
      the generated ids that was not taken. */
  lemma {:induction false} CreatedIsFreshPending(records: map<string, RequestRecord>, ids: seq<string>, faults: seq<Option<Thrown>>, data: NewRequest, now: int)
    requires |ids| == |faults| && CreateSpec(records, ids, faults, data, now).Created?
    ensures var r := CreateSpec(records, ids, faults, data, now).record;
      r == PendingRecord(r.requestId, data, now) && r.status == Pending && r.requestId !in records && r.requestId in ids
    decreases |ids|
  {
    var e := InsertError(records, ids[0], faults[0]);
    if e.Some? {
      CreatedIsFreshPending(records, ids[1..], faults[1..], data, now);
    }
  }

  /** Creating keeps the collection keyed by id and lets it evolve legally. */
  lemma CreateEvolves(records: map<string, RequestRecord>, ids: seq<string>, faults: seq<Option<Thrown>>, data: NewRequest, now: int)
    requires |ids| == |faults| && KeyedById(records)
    ensures Evolves(records, AfterCreate(records, CreateSpec(records, ids, faults, data, now)))
  {
    if CreateSpec(records, ids, faults, data, now).Created? {
      CreatedIsFreshPending(records, ids, faults, data, now);
    }
  }

  // ---------------------------------------------------------------- claim

  /** Exactly once: after a successful claim, any second claim of the same request, for
      either decision and by anyone, finds nothing and changes nothing. */
  lemma ClaimExactlyOnce(records: map<string, RequestRecord>, requestId: string, status: Status, decider: string, at: int,
                         status2: Status, decider2: string, at2: int)
    requires status != Pending && status2 != Pending
    requires ClaimResult(records, requestId, status, decider, at).Some?
    ensures var after := AfterClaim(records, requestId, status, decider, at);
      ClaimResult(after, requestId, status2, decider2, at2).None?
      && AfterClaim(after, requestId, status2, decider2, at2) == after
  {
  }

  /** A claim changes at most the claimed record, and only its decision fields. */
  lemma ClaimEvolves(records: map<string, RequestRecord>, requestId: string, status: Status, decider: string, at: int)
    requires status != Pending
    ensures Evolves(records, AfterClaim(records, requestId, status, decider, at))
    ensures forall id :: id != requestId && id in records ==> AfterClaim(records, requestId, status, decider, at)[id] == records[id]
  {
  }

  /** Legal evolution composes, so along any sequence of creates, claims and card saves a
      record leaves PENDING at most once and its decision never changes afterwards. */
  lemma EvolvesTransitive(a: map<string, RequestRecord>, b: map<string, RequestRecord>, c: map<string, RequestRecord>)
    requires Evolves(a, b) && Evolves(b, c)
    ensures Evolves(a, c)
  {
  }
}

/** The FAC Lite request flow: a picker of FAC roles, a selection that creates the request
    directly (no form), the review card with rollback, and a staff decision that grants only
    the chosen role. As the handlers are written, the picker, the eligibility check, the
    analysis channel, the log channel and the reviewer permission all read the full FAC
    settings, not the lite ones; the model keeps that. */
module FacLiteResponder {
  import opened Wrappers
  import opened Faults
  import opened Paging
  import opened GuildConfigs
  import opened RequestSchema
  import opened RequestStores
  import opened FacRules
  import opened FacLiteRules
  import opened FacResponder

  // ---------------------------------------------------------------- picker and guards

  /** The lite panel button (page 0) and page buttons: a complete lite configuration, a
      resolvable member holding none of the full flavour's FAC roles, and a page of those
      roles that exist in the guild. */
  function OpenLitePicker(c: GuildConfig, member: Option<Member>, guildRoles: set<string>, page: PageInput): (r: Result<PickerPage<string>, Refusal>)
    ensures GetMissingFacLiteConfig(c) != [] ==> r == Err(IncompleteLiteConfig(GetMissingFacLiteConfig(c)))
    ensures r.Ok? <==> GetMissingFacLiteConfig(c) == [] && member.Some?
                       && (forall id :: id in c.facRoleIds ==> id !in member.value.roles)
                       && exists id :: id in c.facRoleIds && id in guildRoles
    ensures r.Ok? ==> forall id :: id in r.value.items ==> id in c.facRoleIds && id in guildRoles && id !in member.value.roles
  {
    var missing := GetMissingFacLiteConfig(c);
    if missing != [] then Err(IncompleteLiteConfig(missing))
    else if member.None? then Err(MemberUnavailable)
    else if HasAnyFacRole(member.value.roles, c.facRoleIds) then Err(AlreadyFac)
    else
      var rows := FacLiteRoleSelectRows(c.facRoleIds, guildRoles, page);
      if rows.None? then Err(FacUnavailable) else Ok(rows.value)
  }

  /** What the lite selection carries: the chosen role and the text channels the bot can reach. */
  datatype LiteSubmission = LiteSubmission(
    guildId: string, userId: string, facRoleId: string, member: Option<Member>, textChannels: set<string>)

  /** `getTextChannelFast` on the configured analysis channel: an absent id finds nothing. */
  predicate AnalysisChannelReachable(c: GuildConfig, textChannels: set<string>) {
    Present(c.analiseChannelId) && c.analiseChannelId.value in textChannels
  }

  /** The guards of the lite selection handler, in their order. */
  function LiteSubmitGate(c: GuildConfig, s: LiteSubmission): (r: Option<Refusal>)
    ensures GetMissingFacLiteConfig(c) != [] ==> r == Some(IncompleteLiteConfig(GetMissingFacLiteConfig(c)))
    ensures GetMissingFacLiteConfig(c) == [] && s.facRoleId !in c.facRoleIds ==> r == Some(FacNotAllowed)
    ensures GetMissingFacLiteConfig(c) == [] && s.facRoleId in c.facRoleIds && s.member.None? ==> r == Some(MemberUnavailable)
    ensures r.None? <==>
      GetMissingFacLiteConfig(c) == [] && s.facRoleId in c.facRoleIds && s.member.Some?
      && (forall id :: id in c.facRoleIds ==> id !in s.member.value.roles)
      && AnalysisChannelReachable(c, s.textChannels)
    ensures r.Some? && r.value.IncompleteLiteConfig? ==> GetMissingFacLiteConfig(c) != []
  {
    var missing := GetMissingFacLiteConfig(c);
    if missing != [] then Some(IncompleteLiteConfig(missing))
    else if s.facRoleId !in c.facRoleIds then Some(FacNotAllowed)
    else if s.member.None? then Some(MemberUnavailable)
    else if HasAnyFacRole(s.member.value.roles, c.facRoleIds) then Some(AlreadyFac)
    else if !AnalysisChannelReachable(c, s.textChannels) then Some(ChannelUnavailable)
    else None
  }

  /** What `createPendingFacLiteRequest` stores: guild, user, role and analysis channel, no form. */
  function LiteRequestData(c: GuildConfig, s: LiteSubmission): (data: NewRequest)
    requires LiteSubmitGate(c, s).None?
    ensures data.form.None? && data.facRoleId == s.facRoleId && data.userId == s.userId && data.guildId == s.guildId
    ensures Some(data.analiseChannelId) == c.analiseChannelId
  {
    NewRequest(s.guildId, s.userId, s.facRoleId, None, c.analiseChannelId.value)
  }

  // ---------------------------------------------------------------- submission

  /** The lite selection handler from the configuration it read onward, over a registered
      lite request collection. */
  function LiteSubmitSpec(records: map<string, RequestRecord>, c: GuildConfig, s: LiteSubmission, d: Delivery, botId: string, now: int): SubmitResult
    requires |d.ids| == |d.faults|
  {
    match LiteSubmitGate(c, s)
    case Some(reason) => SubmitResult(Refused(reason), records)
    case None => CreateAndDeliver(records, LiteRequestData(c, s), d, botId, now)
  }

  /** The lite selection handler: read the configuration, run the guards, create the PENDING
      request, post the card and save its location, denying the request in the bot's name
      when posting, saving or replying fails. */
  method SubmitLite(configs: ConfigStore, store: RequestStore, s: LiteSubmission, d: Delivery, botId: string, now: int)
    returns (outcome: SubmitOutcome)
    requires configs.Valid() && store.Valid()
    requires |d.ids| == MaxCreateAttempts && |d.faults| == MaxCreateAttempts
    modifies configs, store
    ensures configs.Valid() && store.Valid()
    ensures configs.docs == AfterGet(old(configs.docs), s.guildId)
    ensures outcome == LiteSubmitSpec(old(store.records), configs.docs[s.guildId], s, d, botId, now).outcome
    ensures store.records == LiteSubmitSpec(old(store.records), configs.docs[s.guildId], s, d, botId, now).records
  {
    var c := configs.Get(s.guildId);
    var gate := LiteSubmitGate(c, s);
    if gate.Some? {
      return Refused(gate.value);
    }
    var data := LiteRequestData(c, s);
    var created := store.CreatePending(d.ids, d.faults, data, now);
    if created.Exhausted? {
      return NoUniqueId;
    }
    if created.Failed? {
      return Crashed(created.error);
    }
    var requestId := created.record.requestId;
    CreatedIsFreshPending(old(store.records), d.ids, d.faults, data, now);
    var failure: Option<Thrown> := None;
    if d.post.Err? {
      failure := Some(d.post.error);
    } else {
      var saveError := store.SaveCardLocation(requestId, d.post.value, data.analiseChannelId, d.saveFault);
      failure := if saveError.Some? then saveError else d.replyFault;
    }
    if failure.Some? {
      var rolledBack := store.Claim(requestId, Denied, botId, now);
      return RolledBack(requestId, failure.value);
    }
    return Sent(requestId);
  }

  /** How the lite handler's stages shape the result. */
  lemma LiteSubmitStages(records: map<string, RequestRecord>, c: GuildConfig, s: LiteSubmission, d: Delivery, botId: string, now: int)
    requires |d.ids| == |d.faults|
    ensures var res := LiteSubmitSpec(records, c, s, d, botId, now);
      var gate := LiteSubmitGate(c, s);
      (gate.Some? ==> res == SubmitResult(Refused(gate.value), records))
      && (gate.None? ==>
            var data := LiteRequestData(c, s);
            var created := CreateSpec(records, d.ids, d.faults, data, now);
            (created.Exhausted? ==> res == SubmitResult(NoUniqueId, records))
            && (created.Failed? ==> res == SubmitResult(Crashed(created.error), records))
            && (created.Created? ==> res == Deliver(records, created.record, data.analiseChannelId, d, botId, now)))
  {
  }

  /** A lite submission never alters an existing request, keeps the store keyed and every
      pending request carded, and stores nothing unless every guard passed. */
  lemma LiteSubmitPreservesStore(records: map<string, RequestRecord>, c: GuildConfig, s: LiteSubmission, d: Delivery, botId: string, now: int)
    requires |d.ids| == |d.faults| && KeyedById(records) && CardedPending(records)
    ensures var after := LiteSubmitSpec(records, c, s, d, botId, now).records;
      KeyedById(after) && CardedPending(after) && Evolves(records, after)
      && (forall id :: id in records ==> id in after && after[id] == records[id])
      && (after != records ==> LiteSubmitGate(c, s).None?)
  {
    if LiteSubmitGate(c, s).None? {
      CreateAndDeliverPreservesStore(records, LiteRequestData(c, s), d, botId, now);
    }
  }

  /** A sent lite request is PENDING and carries only the guild, the requester, the chosen
      role and the card's location: no name, game id or rank. */
  lemma SentLiteRequestAwaitsReview(records: map<string, RequestRecord>, c: GuildConfig, s: LiteSubmission, d: Delivery, botId: string, now: int)
    requires |d.ids| == |d.faults|
    requires LiteSubmitSpec(records, c, s, d, botId, now).outcome.Sent?
    ensures var res := LiteSubmitSpec(records, c, s, d, botId, now);
      var id := res.outcome.requestId;
      id !in records && id in res.records && d.post.Ok?
      && res.records[id].status == Pending && res.records[id].form.None?
      && res.records[id].userId == s.userId && res.records[id].facRoleId == s.facRoleId && res.records[id].guildId == s.guildId
      && res.records[id].analiseMessageId == Some(d.post.value) && res.records[id].analiseChannelId == c.analiseChannelId
  {
    LiteSubmitStages(records, c, s, d, botId, now);
    var data := LiteRequestData(c, s);
    CreatedIsFreshPending(records, d.ids, d.faults, data, now);
    DeliverFacts(records, CreateSpec(records, d.ids, d.faults, data, now).record, data.analiseChannelId, d, botId, now);
  }

  /** With the guards passed, a free first id and every step succeeding, the request is sent. */
  lemma LiteSubmitSends(records: map<string, RequestRecord>, c: GuildConfig, s: LiteSubmission, d: Delivery, botId: string, now: int)
    requires |d.ids| == |d.faults| && |d.ids| >= 1
    requires LiteSubmitGate(c, s).None? && d.ids[0] !in records && d.faults[0].None?
    requires d.post.Ok? && d.saveFault.None? && d.replyFault.None?
    ensures LiteSubmitSpec(records, c, s, d, botId, now).outcome == Sent(d.ids[0])
  {
    LiteSubmitStages(records, c, s, d, botId, now);
  }

  // ---------------------------------------------------------------- decision

  const FacRoleMissingMessage := "Cargo FAC nao configurado."

  /** `applyFacLiteRole`: add exactly the requested role, or say why not. */
  function ApplyFacLiteRole(target: Option<Member>, facRoleId: string, fault: Option<Thrown>): (g: RoleGrant)
    ensures g.applied <==> target.Some? && facRoleId != "" && fault.None?
    ensures g.applied ==> g.granted == [facRoleId] && g.error.None?
    ensures !g.applied ==> g.granted == [] && g.error.Some?
    ensures target.None? ==> g.error == Some(MemberNotFoundMessage)
    ensures target.Some? && facRoleId == "" ==> g.error == Some(FacRoleMissingMessage)
    ensures target.Some? && facRoleId != "" && fault.Some? ==> g.error == Some(ToErrorMessage(fault.value))
  {
    if target.None? then RoleGrant(false, Some(MemberNotFoundMessage), [])
    else if facRoleId == "" then RoleGrant(false, Some(FacRoleMissingMessage), [])
    else if fault.Some? then RoleGrant(false, Some(ToErrorMessage(fault.value)), [])
    else RoleGrant(true, None, [facRoleId])
  }

  datatype LiteDecisionOutcome =
    | LiteForbidden
    | LiteUnavailable
    | LiteCrashed(error: Thrown)
    | LiteApproval(record: RequestRecord, grant: RoleGrant, log: Option<LogEntry>, roleReply: string)
    | LiteDenial(record: RequestRecord, log: Option<LogEntry>)

  /** The effects of a lite approval once the record is claimed: the role, the card, the log
      (in the full flavour's log channel, with no nickname result passed) and the reply. */
  function LiteApprovalEffects(c: GuildConfig, locked: RequestRecord, reviewerId: string, env: DecisionEnv): (o: LiteDecisionOutcome)
    ensures o.LiteApproval? && o.record == locked
    ensures o.grant == ApplyFacLiteRole(env.target, locked.facRoleId, env.rolesFault)
    ensures o.log == FacLog(c.logChannelId, env.guildCached, env.logChannelReachable, locked, reviewerId,
                            o.grant.applied, o.grant.error, false, None)
    ensures o.roleReply == ReplyStatus(o.grant.applied, o.grant.error)
  {
    var grant := ApplyFacLiteRole(env.target, locked.facRoleId, env.rolesFault);
    LiteApproval(locked, grant,
                 FacLog(c.logChannelId, env.guildCached, env.logChannelReachable, locked, reviewerId, grant.applied, grant.error, false, None),
                 ReplyStatus(grant.applied, grant.error))
  }

  function LiteDenialEffects(c: GuildConfig, locked: RequestRecord, reviewerId: string, env: DecisionEnv): (o: LiteDecisionOutcome)
    ensures o.LiteDenial? && o.record == locked
    ensures o.log == FacLog(c.logChannelId, env.guildCached, env.logChannelReachable, locked, reviewerId, false, None, false, None)
  {
    LiteDenial(locked, FacLog(c.logChannelId, env.guildCached, env.logChannelReachable, locked, reviewerId, false, None, false, None))
  }

  /** The lite approve and deny buttons over a registered lite collection: the full
      flavour's reviewer check, the atomic claim, then the decision's effects. */
  method DecideLite(configs: ConfigStore, store: RequestStore, guildId: string, reviewerId: string, reviewer: Option<Member>,
                    requestId: string, status: Status, env: DecisionEnv, now: int) returns (o: LiteDecisionOutcome)
    requires configs.Valid() && store.Valid() && status != Pending
    modifies configs, store
    ensures configs.Valid() && store.Valid()
    ensures configs.docs == AfterGet(old(configs.docs), guildId)
    ensures !MayReview(reviewer, configs.docs[guildId]) ==> o == LiteForbidden && store.records == old(store.records)
    ensures MayReview(reviewer, configs.docs[guildId]) ==>
      store.records == AfterClaim(old(store.records), requestId, status, reviewerId, now)
    ensures MayReview(reviewer, configs.docs[guildId]) ==>
      match ClaimResult(old(store.records), requestId, status, reviewerId, now)
      case None => o == LiteUnavailable
      case Some(locked) =>
        o == (if status == Approved then LiteApprovalEffects(configs.docs[guildId], locked, reviewerId, env)
              else LiteDenialEffects(configs.docs[guildId], locked, reviewerId, env))
  {
    var c := configs.Get(guildId);
    if !MayReview(reviewer, c) {
      return LiteForbidden;
    }
    var locked := store.Claim(requestId, status, reviewerId, now);
    if locked.None? {
      return LiteUnavailable;
    }
    if status == Approved {
      o := LiteApprovalEffects(c, locked.value, reviewerId, env);
    } else {
      o := LiteDenialEffects(c, locked.value, reviewerId, env);
    }
  }

  /** A lite approval grants the requested role and nothing else: no Verificado, no ramo role. */
  lemma LiteApprovalGrantsOnlyTheRole(c: GuildConfig, locked: RequestRecord, reviewerId: string, env: DecisionEnv)
    ensures var o := LiteApprovalEffects(c, locked, reviewerId, env);
      (forall x :: x in o.grant.granted ==> x == locked.facRoleId)
      && (env.target.Some? && locked.facRoleId != "" && env.rolesFault.None? ==> o.grant.granted == [locked.facRoleId] && o.roleReply == "OK")
  {
  }

  /** As written, a logged lite approval reports the nickname as failed, because no nickname
      result is ever passed to the lite log. */
  lemma LiteApprovalLogReportsNicknameFailure(c: GuildConfig, locked: RequestRecord, reviewerId: string, env: DecisionEnv)
    requires locked.status == Approved
    ensures var o := LiteApprovalEffects(c, locked, reviewerId, env);
      o.log.Some? ==> o.log.value.nickname == "FALHA"
  {
  }

  /** Lite decisions are authorised by the full flavour's staff roles: a member holding only a
      lite staff role, without Manage Guild, is refused, and the lite staff list has no effect. */
  lemma LiteReviewIgnoresLiteStaff(c: GuildConfig, m: Member, liteStaff: seq<string>)
    requires !m.manageGuild && (forall id :: id in c.staffRoleIds ==> id !in m.roles)
    ensures !MayReview(Some(m), c)
    ensures MayReview(Some(m), c.(facLiteStaffRoleIds := liteStaff)) == MayReview(Some(m), c)
  {
  }

  // ---------------------------------------------------------------- as written: no lite collection

  /** `db.facLiteRequests` is not among the models the database module exports, so each call
      on it throws a TypeError, which has no `code`. */
  const UndefinedCollectionError: Thrown := ErrorInstance("Cannot read properties of undefined (reading 'create')", None, None)

  /** The answers of the missing collection: a TypeError on every attempt. */
  function MissingCollectionAnswers(n: nat): (answers: seq<Option<Thrown>>)
    ensures |answers| == n && forall k :: 0 <= k < n ==> answers[k] == Some(UndefinedCollectionError)
  {
    seq(n, k => Some(UndefinedCollectionError))
  }

  /** The lite selection handler as written: creation runs against the missing collection,
      which holds nothing and throws on every call. */
  function LiteSubmitAsWritten(c: GuildConfig, s: LiteSubmission, d: Delivery, botId: string, now: int): SubmitOutcome {
    LiteSubmitSpec(map[], c, s, d.(faults := MissingCollectionAnswers(|d.ids|)), botId, now).outcome
  }

  /** As written, no lite request is ever created: a selection that passes every guard
      crashes on the first insert with the TypeError, which is not a duplicate-key error. */
  lemma LiteSubmitAsWrittenNeverSends(c: GuildConfig, s: LiteSubmission, d: Delivery, botId: string, now: int)
    requires |d.ids| == MaxCreateAttempts
    ensures LiteSubmitGate(c, s).None? ==> LiteSubmitAsWritten(c, s, d, botId, now) == Crashed(UndefinedCollectionError)
    ensures LiteSubmitGate(c, s).Some? ==> LiteSubmitAsWritten(c, s, d, botId, now) == Refused(LiteSubmitGate(c, s).value)
  {
    var d' := d.(faults := MissingCollectionAnswers(|d.ids|));
    LiteSubmitStages(map[], c, s, d', botId, now);
    assert !IsDuplicateError(UndefinedCollectionError);
  }

  // ---------------------------------------------------------------- as written: no rank on lite records

  /** The lite request schema requires `rank`, and the lite create passes none, so even a
      registered collection refuses the record with a validation error, which has no `code`. */
  const RankRequiredError: Thrown := ErrorInstance("FacLiteRequest validation failed: rank: Path `rank` is required.", None, None)

  /** With the collection registered but the schema as written, no lite request is created
      either: an insert under a fresh id fails validation, which is not a duplicate-key error,
      so the handler rethrows it and the store keeps what it had. */
  lemma LiteSubmitWithoutRankNeverSends(records: map<string, RequestRecord>, c: GuildConfig, s: LiteSubmission, d: Delivery, botId: string, now: int)
    requires |d.ids| == |d.faults| && |d.ids| >= 1
    requires LiteSubmitGate(c, s).None? && d.ids[0] !in records && d.faults[0] == Some(RankRequiredError)
    ensures LiteSubmitSpec(records, c, s, d, botId, now).outcome == Crashed(RankRequiredError)
    ensures LiteSubmitSpec(records, c, s, d, botId, now).records == records
  {
    LiteSubmitStages(records, c, s, d, botId, now);
    assert !IsDuplicateError(RankRequiredError);
    assert InsertError(records, d.ids[0], d.faults[0]) == Some(RankRequiredError);
    assert CreateSpec(records, d.ids, d.faults, LiteRequestData(c, s), now) == Failed(RankRequiredError);
  }

  /** The lite decision buttons as written: the claim runs against the missing collection. */
  function DecideLiteAsWritten(c: GuildConfig, reviewer: Option<Member>): (o: LiteDecisionOutcome)
    ensures !MayReview(reviewer, c) ==> o == LiteForbidden
    ensures MayReview(reviewer, c) ==> o == LiteCrashed(UndefinedCollectionError)
  {
    if !MayReview(reviewer, c) then LiteForbidden else LiteCrashed(UndefinedCollectionError)
  }

  /** As written, no lite decision ever grants a role or writes a log; with the collection
      registered, an authorised decision on a pending request does. */
  lemma LiteDecisionAsWrittenNeverApplies(c: GuildConfig, reviewer: Option<Member>, records: map<string, RequestRecord>,
                                          requestId: string, reviewerId: string, env: DecisionEnv, now: int)
    requires MayReview(reviewer, c) && requestId in records && records[requestId].status == Pending
    ensures !DecideLiteAsWritten(c, reviewer).LiteApproval?
    ensures ClaimResult(records, requestId, Approved, reviewerId, now).Some?
    ensures LiteApprovalEffects(c, ClaimResult(records, requestId, Approved, reviewerId, now).value, reviewerId, env).record.status == Approved
  {
  }
}

/** The FAC request flow as the interaction handlers run it: the panel button and the
    picker pages, the FAC selection, the form submission (guards, create, review card,
    rollback) and the staff decision (atomic claim, roles, nickname, final log). Discord
    is seen through the values it answers with: the member or nothing, whether a channel
    is reachable, and the error an action throws, if any. */
module FacResponder {
  import opened Wrappers
  import opened Lists
  import opened Faults
  import opened Paging
  import opened GuildConfigs
  import opened Settings
  import opened RequestSchema
  import opened RequestStores
  import opened FacRules
  import opened FacLiteRules

  /** Why a handler stops before creating anything; each shows its own notice. */
  datatype Refusal =
    | IncompleteConfig(missing: seq<FacSetting>)
    | IncompleteLiteConfig(liteMissing: seq<FacLiteSetting>)
    | FacNotAllowed
    | NoRamo
    | MemberUnavailable
    | AlreadyVerified
    | AlreadyFac
    | FacUnavailable
    | InvalidForm(message: string)
    | ChannelUnavailable

  const MemberNotFoundMessage := "Membro nao encontrado no servidor."
  const NoRolesMessage := "Nenhum cargo configurado para aplicacao."

  // ---------------------------------------------------------------- requester gates

  /** The requester checks shared by every entry point: the member must be resolvable, must
      not hold the Verificado role and must not hold any configured FAC role. */
  function Eligibility(c: GuildConfig, member: Option<Member>): (r: Option<Refusal>)
    ensures r.None? <==> member.Some? && !(Present(c.verificadoRoleId) && c.verificadoRoleId.value in member.value.roles)
                         && forall id :: id in c.facRoleIds ==> id !in member.value.roles
    ensures r.Some? ==> r.value in {MemberUnavailable, AlreadyVerified, AlreadyFac}
    ensures member.None? ==> r == Some(MemberUnavailable)
  {
    if member.None? then Some(MemberUnavailable)
    else if Present(c.verificadoRoleId) && c.verificadoRoleId.value in member.value.roles then Some(AlreadyVerified)
    else if HasAnyFacRole(member.value.roles, c.facRoleIds) then Some(AlreadyFac)
    else None
  }

  /** The panel button (page 0) and the picker page buttons: a complete configuration, an
      eligible member and at least one configured FAC role that exists in the guild. */
  function OpenPicker(c: GuildConfig, member: Option<Member>, guildRoles: set<string>, page: PageInput): (r: Result<PickerPage<string>, Refusal>)
    ensures GetMissingFacConfig(c) != [] ==> r == Err(IncompleteConfig(GetMissingFacConfig(c)))
    ensures r.Ok? <==> GetMissingFacConfig(c) == [] && Eligibility(c, member).None?
                       && exists id :: id in c.facRoleIds && id in guildRoles
    ensures r.Ok? ==> 1 <= |r.value.items| <= PickerPageSize
    ensures r.Ok? ==> forall id :: id in r.value.items ==> id in c.facRoleIds && id in guildRoles && id !in member.value.roles
  {
    var missing := GetMissingFacConfig(c);
    if missing != [] then Err(IncompleteConfig(missing))
    else
      var eligibility := Eligibility(c, member);
      if eligibility.Some? then Err(eligibility.value)
      else
        var rows := FacRoleSelectRows(c.facRoleIds, guildRoles, page);
        if rows.None? then Err(FacUnavailable) else Ok(rows.value)
  }

  /** The select menu: only a configured FAC role opens the form. */
  function SelectFac(c: GuildConfig, facRoleId: string): (r: Option<Refusal>)
    ensures r.None? <==> facRoleId in c.facRoleIds
    ensures r.Some? ==> r.value == FacNotAllowed
  {
    if facRoleId in c.facRoleIds then None else Some(FacNotAllowed)
  }

  /** Every role the picker offers opens the form when selected. */
  lemma OfferedRoleIsSelectable(c: GuildConfig, member: Option<Member>, guildRoles: set<string>, page: PageInput, id: string)
    requires OpenPicker(c, member, guildRoles, page).Ok? && id in OpenPicker(c, member, guildRoles, page).value.items
    ensures SelectFac(c, id).None?
  {
  }

  /** What the submitted form carries besides the configuration. */
  datatype Submission = Submission(
    guildId: string, userId: string, facRoleId: string, member: Option<Member>,
    nomeRaw: string, gameIdRaw: string, rankRaw: string, analysisChannelReachable: bool)

  /** The guards of the form handler, in their order; the validated form when all pass. */
  function SubmitGate(c: GuildConfig, s: Submission): (r: Result<FormData, Refusal>)
    ensures GetMissingFacConfig(c) != [] ==> r == Err(IncompleteConfig(GetMissingFacConfig(c)))
    ensures GetMissingFacConfig(c) == [] && s.facRoleId !in c.facRoleIds ==> r == Err(FacNotAllowed)
    ensures GetMissingFacConfig(c) == [] && s.facRoleId in c.facRoleIds && ResolveRamoRolesForFac(c, s.facRoleId) == [] ==> r == Err(NoRamo)
    ensures r.Ok? <==>
      GetMissingFacConfig(c) == [] && s.facRoleId in c.facRoleIds && ResolveRamoRolesForFac(c, s.facRoleId) != []
      && Eligibility(c, s.member).None? && NormalizeFacForm(s.nomeRaw, s.gameIdRaw, s.rankRaw).Ok?
      && s.analysisChannelReachable
    ensures r.Ok? ==> r.value == NormalizeFacForm(s.nomeRaw, s.gameIdRaw, s.rankRaw).value && Present(c.analiseChannelId)
    ensures r.Ok? ==> NormalizeName(r.value.nome) == Some(r.value.nome) && IsGameId(r.value.gameId)
  {
    var missing := GetMissingFacConfig(c);
    if missing != [] then Err(IncompleteConfig(missing))
    else if s.facRoleId !in c.facRoleIds then Err(FacNotAllowed)
    else if ResolveRamoRolesForFac(c, s.facRoleId) == [] then Err(NoRamo)
    else
      var eligibility := Eligibility(c, s.member);
      if eligibility.Some? then Err(eligibility.value)
      else
        var form := NormalizeFacForm(s.nomeRaw, s.gameIdRaw, s.rankRaw);
        if form.Err? then Err(InvalidForm(form.error))
        else if !s.analysisChannelReachable then Err(ChannelUnavailable)
        else
          assert Present(c.analiseChannelId) by {
            NothingMissingIffComplete(c);
          }
          AcceptedFormIsClean(s.nomeRaw, s.gameIdRaw, s.rankRaw);
          Ok(form.value)
  }

  // ---------------------------------------------------------------- submission

  /** What the store and Discord answer during a submission: the five generated ids and the
      store's answer to each insert, the posted card's message id or the error posting it,
      and the errors (if any) of saving the card location and of the final reply. */
  datatype Delivery = Delivery(
    ids: seq<string>, faults: seq<Option<Thrown>>,
    post: Result<string, Thrown>, saveFault: Option<Thrown>, replyFault: Option<Thrown>)

  datatype SubmitOutcome =
    | Refused(reason: Refusal)
    | NoUniqueId
    | Crashed(error: Thrown)
    | Sent(requestId: string)
    | RolledBack(requestId: string, error: Thrown)

  datatype SubmitResult = SubmitResult(outcome: SubmitOutcome, records: map<string, RequestRecord>)

  /** Every full request carries its form (the schema requires name, game id and rank). */
  predicate AllHaveForms(records: map<string, RequestRecord>) {
    forall id :: id in records ==> records[id].form.Some?
  }

  /** No request waits for review without a card staff can act on. */
  predicate CardedPending(records: map<string, RequestRecord>) {
    forall id :: id in records && records[id].status == Pending ==> records[id].analiseMessageId.Some?
  }

  /** The first error of the post / save / reply sequence, if any. */
  function DeliveryFailure(d: Delivery): (f: Option<Thrown>)
    ensures d.post.Err? ==> f == Some(d.post.error)
    ensures d.post.Ok? ==> f == (if d.saveFault.Some? then d.saveFault else d.replyFault)
  {
    match d.post
    case Err(e) => Some(e)
    case Ok(_) => if d.saveFault.Some? then d.saveFault else d.replyFault
  }

  /** The records after the card is posted: the location is saved when post and save succeed. */
  function WithCard(records: map<string, RequestRecord>, requestId: string, channelId: string, d: Delivery): map<string, RequestRecord>
    requires requestId in records
  {
    if d.post.Ok? && d.saveFault.None?
    then records[requestId := records[requestId].(analiseMessageId := Some(d.post.value), analiseChannelId := Some(channelId))]
    else records
  }

  /** Posting the card for the freshly created record `r`, saving its location and replying;
      any failure on the way denies the request in the bot's name. */
  function Deliver(records: map<string, RequestRecord>, r: RequestRecord, channelId: string, d: Delivery, botId: string, now: int): SubmitResult {
    var carded := WithCard(records[r.requestId := r], r.requestId, channelId, d);
    var failure := DeliveryFailure(d);
    if failure.Some? then SubmitResult(RolledBack(r.requestId, failure.value), AfterClaim(carded, r.requestId, Denied, botId, now))
    else SubmitResult(Sent(r.requestId), carded)
  }

  /** The form handler from the configuration it read onward. */
  function SubmitSpec(records: map<string, RequestRecord>, c: GuildConfig, s: Submission, d: Delivery, botId: string, now: int): SubmitResult
    requires |d.ids| == |d.faults|
  {
    match SubmitGate(c, s)
    case Err(reason) => SubmitResult(Refused(reason), records)
    case Ok(form) =>
      CreateAndDeliver(records, NewRequest(s.guildId, s.userId, s.facRoleId, Some(form), c.analiseChannelId.value), d, botId, now)
  }

  /** Both handlers once their guards pass: create the PENDING request, then deliver its card. */
  function CreateAndDeliver(records: map<string, RequestRecord>, data: NewRequest, d: Delivery, botId: string, now: int): SubmitResult
    requires |d.ids| == |d.faults|
  {
    match CreateSpec(records, d.ids, d.faults, data, now)
    case Exhausted => SubmitResult(NoUniqueId, records)
    case Failed(e) => SubmitResult(Crashed(e), records)
    case Created(r) => Deliver(records, r, data.analiseChannelId, d, botId, now)
  }

  /** Creating and delivering never alters an existing request, keeps every store invariant,
      and adds at most one request, under one of the generated ids. */
  lemma CreateAndDeliverPreservesStore(records: map<string, RequestRecord>, data: NewRequest, d: Delivery, botId: string, now: int)
    requires |d.ids| == |d.faults|
    requires KeyedById(records) && CardedPending(records)
    ensures var after := CreateAndDeliver(records, data, d, botId, now).records;
      KeyedById(after) && CardedPending(after) && Evolves(records, after)
      && (AllHaveForms(records) && data.form.Some? ==> AllHaveForms(after))
      && (forall id :: id in records ==> id in after && after[id] == records[id])
      && forall id :: id in after && id !in records ==> id in d.ids
  {
    var after := CreateAndDeliver(records, data, d, botId, now).records;
    var created := CreateSpec(records, d.ids, d.faults, data, now);
    if !created.Created? {
      assert after == records;
      return;
    }
    var r := created.record;
    CreatedIsFreshPending(records, d.ids, d.faults, data, now);
    assert r.form == data.form && r.requestId in d.ids;
    assert after == Deliver(records, r, data.analiseChannelId, d, botId, now).records;
    DeliverPreservesStore(records, r, data.analiseChannelId, d, botId, now);
  }

  /** What delivering a fresh PENDING record does to the collection: it adds that one record,
      which ends either PENDING with its card location or DENIED by the bot. */
  lemma DeliverFacts(records: map<string, RequestRecord>, r: RequestRecord, channelId: string, d: Delivery, botId: string, now: int)
    requires r.requestId !in records && r.status == Pending
    ensures var res := Deliver(records, r, channelId, d, botId, now);
      res.records.Keys == records.Keys + {r.requestId}
      && (forall id :: id in records ==> res.records[id] == records[id])
      && SameRequest(res.records[r.requestId], r) && res.records[r.requestId].requestId == r.requestId
      && res.outcome.requestId == r.requestId
      && (res.outcome.Sent? <==> DeliveryFailure(d).None?)
      && (res.outcome.Sent? ==>
            (res.outcome == Sent(r.requestId) && d.post.Ok?
             && res.records[r.requestId] == r.(analiseMessageId := Some(d.post.value), analiseChannelId := Some(channelId))))
      && (res.outcome.RolledBack? ==>
            (res.outcome == RolledBack(r.requestId, DeliveryFailure(d).value)
             && res.records[r.requestId].status == Denied && res.records[r.requestId].decidedBy == Some(botId)))
  {
  }

  /** Delivering a fresh PENDING record keeps the store invariants; a record with a form
      keeps every record carrying one. */
  lemma DeliverPreservesStore(records: map<string, RequestRecord>, r: RequestRecord, channelId: string, d: Delivery, botId: string, now: int)
    requires r.requestId !in records && r.status == Pending
    requires KeyedById(records) && CardedPending(records)
    ensures var after := Deliver(records, r, channelId, d, botId, now).records;
      KeyedById(after) && CardedPending(after) && Evolves(records, after)
      && (AllHaveForms(records) && r.form.Some? ==> AllHaveForms(after))
      && after.Keys == records.Keys + {r.requestId}
      && (forall id :: id in records ==> after[id] == records[id])
  {
    DeliverFacts(records, r, channelId, d, botId, now);
    var res := Deliver(records, r, channelId, d, botId, now);
    assert res.records[r.requestId].status == Pending ==> res.records[r.requestId].analiseMessageId.Some?;
  }

  /** How the handler's three stages shape the result. */
  lemma SubmitStages(records: map<string, RequestRecord>, c: GuildConfig, s: Submission, d: Delivery, botId: string, now: int)
    requires |d.ids| == |d.faults|
    ensures var res := SubmitSpec(records, c, s, d, botId, now);
      var gate := SubmitGate(c, s);
      (gate.Err? ==> res == SubmitResult(Refused(gate.error), records))
      && (gate.Ok? ==>
            var data := NewRequest(s.guildId, s.userId, s.facRoleId, Some(gate.value), c.analiseChannelId.value);
            var created := CreateSpec(records, d.ids, d.faults, data, now);
            (created.Exhausted? ==> res == SubmitResult(NoUniqueId, records))
            && (created.Failed? ==> res == SubmitResult(Crashed(created.error), records))
            && (created.Created? ==> res == Deliver(records, created.record, c.analiseChannelId.value, d, botId, now)))
  {
  }

  /** The form handler: read the configuration (creating the default document for a new guild),
      run the guards, create the PENDING request, post the review card and save its location;
      if posting, saving or the final reply fails, the request is denied in the bot's name. */
  method Submit(configs: ConfigStore, store: RequestStore, s: Submission, d: Delivery, botId: string, now: int)
    returns (outcome: SubmitOutcome)
    requires configs.Valid() && store.Valid()
    requires |d.ids| == MaxCreateAttempts && |d.faults| == MaxCreateAttempts
    modifies configs, store
    ensures configs.Valid() && store.Valid()
    ensures configs.docs == AfterGet(old(configs.docs), s.guildId)
    ensures outcome == SubmitSpec(old(store.records), configs.docs[s.guildId], s, d, botId, now).outcome
    ensures store.records == SubmitSpec(old(store.records), configs.docs[s.guildId], s, d, botId, now).records
  {
    var c := configs.Get(s.guildId);
    var gate := SubmitGate(c, s);
    if gate.Err? {
      return Refused(gate.error);
    }
    var channelId := c.analiseChannelId.value;
    var data := NewRequest(s.guildId, s.userId, s.facRoleId, Some(gate.value), channelId);
    var created := store.CreatePending(d.ids, d.faults, data, now);
    if created.Exhausted? {
      return NoUniqueId;
    }
    if created.Failed? {
      return Crashed(created.error);
    }
    var requestId := created.record.requestId;
    CreatedIsFreshPending(old(store.records), d.ids, d.faults, data, now);
    var failure: Option<Thrown> := None;
    if d.post.Err? {
      failure := Some(d.post.error);
    } else {
      var saveError := store.SaveCardLocation(requestId, d.post.value, channelId, d.saveFault);
      failure := if saveError.Some? then saveError else d.replyFault;
    }
    if failure.Some? {
      var rolledBack := store.Claim(requestId, Denied, botId, now);
      return RolledBack(requestId, failure.value);
    }
    return Sent(requestId);
  }

  /** A submission never alters an existing request, keeps every store invariant, and adds
      at most one request, under one of the generated ids. */
  lemma SubmitPreservesStore(records: map<string, RequestRecord>, c: GuildConfig, s: Submission, d: Delivery, botId: string, now: int)
    requires |d.ids| == |d.faults|
    requires KeyedById(records) && AllHaveForms(records) && CardedPending(records)
    ensures var after := SubmitSpec(records, c, s, d, botId, now).records;
      KeyedById(after) && AllHaveForms(after) && CardedPending(after) && Evolves(records, after)
      && (forall id :: id in records ==> id in after && after[id] == records[id])
      && forall id :: id in after && id !in records ==> id in d.ids
  {
    var gate := SubmitGate(c, s);
    if gate.Ok? {
      var data := NewRequest(s.guildId, s.userId, s.facRoleId, Some(gate.value), c.analiseChannelId.value);
      assert SubmitSpec(records, c, s, d, botId, now) == CreateAndDeliver(records, data, d, botId, now);
      CreateAndDeliverPreservesStore(records, data, d, botId, now);
    }
  }

  /** A sent request is stored PENDING with the requester, the chosen FAC role, the validated
      form and the location of its review card. */
  lemma SentRequestAwaitsReview(records: map<string, RequestRecord>, c: GuildConfig, s: Submission, d: Delivery, botId: string, now: int)
    requires |d.ids| == |d.faults|
    requires SubmitSpec(records, c, s, d, botId, now).outcome.Sent?
    ensures var res := SubmitSpec(records, c, s, d, botId, now);
      var id := res.outcome.requestId;
      id !in records && id in res.records && d.post.Ok?
      && res.records[id].status == Pending && res.records[id].userId == s.userId
      && res.records[id].facRoleId == s.facRoleId && res.records[id].guildId == s.guildId
      && res.records[id].form == Some(NormalizeFacForm(s.nomeRaw, s.gameIdRaw, s.rankRaw).value)
      && res.records[id].analiseMessageId == Some(d.post.value)
      && res.records[id].analiseChannelId == c.analiseChannelId
  {
    SubmitStages(records, c, s, d, botId, now);
    var gate := SubmitGate(c, s);
    var data := NewRequest(s.guildId, s.userId, s.facRoleId, Some(gate.value), c.analiseChannelId.value);
    CreatedIsFreshPending(records, d.ids, d.faults, data, now);
    var r := CreateSpec(records, d.ids, d.faults, data, now).record;
    DeliverFacts(records, r, c.analiseChannelId.value, d, botId, now);
  }

  /** A failed delivery leaves the request DENIED by the bot, never PENDING. */
  lemma FailedDeliveryDeniesRequest(records: map<string, RequestRecord>, c: GuildConfig, s: Submission, d: Delivery, botId: string, now: int)
    requires |d.ids| == |d.faults|
    requires SubmitSpec(records, c, s, d, botId, now).outcome.RolledBack?
    ensures var res := SubmitSpec(records, c, s, d, botId, now);
      var id := res.outcome.requestId;
      id !in records && id in res.records && DeliveryFailure(d) == Some(res.outcome.error)
      && res.records[id].status == Denied && res.records[id].decidedBy == Some(botId)
  {
    SubmitStages(records, c, s, d, botId, now);
    var gate := SubmitGate(c, s);
    var data := NewRequest(s.guildId, s.userId, s.facRoleId, Some(gate.value), c.analiseChannelId.value);
    CreatedIsFreshPending(records, d.ids, d.faults, data, now);
    var r := CreateSpec(records, d.ids, d.faults, data, now).record;
    DeliverFacts(records, r, c.analiseChannelId.value, d, botId, now);
  }

  /** Nothing is stored unless every guard passed; a refused, exhausted or crashed
      submission leaves the collection as it was. */
  lemma StoredOnlyAfterGuards(records: map<string, RequestRecord>, c: GuildConfig, s: Submission, d: Delivery, botId: string, now: int)
    requires |d.ids| == |d.faults|
    ensures var res := SubmitSpec(records, c, s, d, botId, now);
      (res.outcome.Refused? || res.outcome.NoUniqueId? || res.outcome.Crashed?) <==> res.records == records
    ensures SubmitSpec(records, c, s, d, botId, now).outcome.Refused? <==> SubmitGate(c, s).Err?
  {
    SubmitStages(records, c, s, d, botId, now);
    var gate := SubmitGate(c, s);
    if gate.Ok? {
      var data := NewRequest(s.guildId, s.userId, s.facRoleId, Some(gate.value), c.analiseChannelId.value);
      var created := CreateSpec(records, d.ids, d.faults, data, now);
      if created.Created? {
        CreatedIsFreshPending(records, d.ids, d.faults, data, now);
        DeliverFacts(records, created.record, c.analiseChannelId.value, d, botId, now);
      }
    }
  }

  // ---------------------------------------------------------------- decision effects

  /** The roles an approval adds: the FAC role, Verificado and the ramo roles, without
      empty ids and without repeats. */
  function ApprovedRoles(facRoleId: string, verificadoRoleId: Option<string>, ramoRoleIds: seq<string>): (r: seq<string>)
    ensures NoDuplicates(r)
    ensures forall x :: x in r <==> x != "" && (x == facRoleId || verificadoRoleId == Some(x) || x in ramoRoleIds)
  {
    var listed := [facRoleId] + (if verificadoRoleId.Some? then [verificadoRoleId.value] else []) + ramoRoleIds;
    Dedup(Filter(listed, IsNonEmpty))
  }

  /** The outcome of `member.roles.add`: the roles added, or why none were. */
  datatype RoleGrant = RoleGrant(applied: bool, error: Option<string>, granted: seq<string>)

  function ApplyApprovedRoles(target: Option<Member>, roles: seq<string>, fault: Option<Thrown>): (g: RoleGrant)
    ensures g.applied <==> target.Some? && roles != [] && fault.None?
    ensures g.applied ==> g.granted == roles && g.error.None?
    ensures !g.applied ==> g.granted == [] && g.error.Some?
    ensures target.None? ==> g.error == Some(MemberNotFoundMessage)
    ensures target.Some? && roles == [] ==> g.error == Some(NoRolesMessage)
    ensures target.Some? && roles != [] && fault.Some? ==> g.error == Some(ToErrorMessage(fault.value))
  {
    if target.None? then RoleGrant(false, Some(MemberNotFoundMessage), [])
    else if roles == [] then RoleGrant(false, Some(NoRolesMessage), [])
    else if fault.Some? then RoleGrant(false, Some(ToErrorMessage(fault.value)), [])
    else RoleGrant(true, None, roles)
  }

  /** The outcome of `member.setNickname`: the nickname set, or why it was not. */
  datatype NicknameChange = NicknameChange(applied: bool, error: Option<string>, nickname: Option<string>)

  function ApplyApprovedNickname(target: Option<Member>, form: FormData, fault: Option<Thrown>): (n: NicknameChange)
    ensures n.applied <==> target.Some? && fault.None?
    ensures n.applied ==> n.nickname == Some(BuildFacNickname(form.rank, form.nome, form.gameId)) && n.error.None?
    ensures !n.applied ==> n.nickname.None? && n.error.Some?
    ensures target.None? ==> n.error == Some(MemberNotFoundMessage)
    ensures target.Some? && fault.Some? ==> n.error == Some(ToErrorMessage(fault.value))
  {
    if target.None? then NicknameChange(false, Some(MemberNotFoundMessage), None)
    else if fault.Some? then NicknameChange(false, Some(ToErrorMessage(fault.value)), None)
    else NicknameChange(true, None, Some(BuildFacNickname(form.rank, form.nome, form.gameId)))
  }

  /** The final log message, reduced to what it records. */
  datatype LogEntry = LogEntry(channelId: string, requestId: string, status: Status, reviewerId: string, cargos: string, nickname: string)

  /** `sendFacLog`: nothing without a log channel, a cached guild and a reachable channel;
      a failed send is swallowed. */
  function FacLog(logChannelId: Option<string>, guildCached: bool, channelReachable: bool, r: RequestRecord, reviewerId: string,
                  rolesApplied: bool, rolesError: Option<string>, nicknameApplied: bool, nicknameError: Option<string>): (e: Option<LogEntry>)
    ensures e.Some? <==> Present(logChannelId) && guildCached && channelReachable
    ensures e.Some? ==> e.value.channelId == logChannelId.value && e.value.requestId == r.requestId && e.value.status == r.status
    ensures e.Some? ==> e.value.cargos == EffectStatus(r.status, rolesApplied, rolesError)
                        && e.value.nickname == EffectStatus(r.status, nicknameApplied, nicknameError)
  {
    if !Present(logChannelId) || !guildCached || !channelReachable then None
    else Some(LogEntry(logChannelId.value, r.requestId, r.status, reviewerId,
                       EffectStatus(r.status, rolesApplied, rolesError),
                       EffectStatus(r.status, nicknameApplied, nicknameError)))
  }

  /** One line of the approval reply: `OK`, or `FALHA (<error or "sem detalhe">)`. */
  function ReplyStatus(applied: bool, error: Option<string>): (s: string)
    ensures applied <==> s == "OK"
    ensures !applied && error.Some? ==> s == "FALHA (" + error.value + ")"
    ensures !applied && error.None? ==> s == "FALHA (sem detalhe)"
  {
    if applied then "OK" else "FALHA (" + error.GetOr("sem detalhe") + ")"
  }

  /** What Discord answers while a decision is carried out. */
  datatype DecisionEnv = DecisionEnv(
    target: Option<Member>, rolesFault: Option<Thrown>, nicknameFault: Option<Thrown>,
    guildCached: bool, logChannelReachable: bool)

  datatype DecisionOutcome =
    | Forbidden
    | Unavailable
    | Approval(record: RequestRecord, grant: RoleGrant, nickname: NicknameChange, log: Option<LogEntry>,
               rolesReply: string, nicknameReply: string)
    | Denial(record: RequestRecord, log: Option<LogEntry>)

  /** Only a resolvable member with Manage Guild or a staff role may decide. */
  predicate MayReview(reviewer: Option<Member>, c: GuildConfig) {
    reviewer.Some? && CanReviewFac(reviewer.value, c)
  }

  /** The effects of an approval once the record is claimed. */
  function ApprovalEffects(c: GuildConfig, locked: RequestRecord, reviewerId: string, env: DecisionEnv): (o: DecisionOutcome)
    requires locked.form.Some?
    ensures o.Approval? && o.record == locked
    ensures o.grant == ApplyApprovedRoles(env.target, ApprovedRoles(locked.facRoleId, c.verificadoRoleId, ResolveRamoRolesForFac(c, locked.facRoleId)), env.rolesFault)
    ensures o.nickname == ApplyApprovedNickname(env.target, locked.form.value, env.nicknameFault)
    ensures o.log == FacLog(c.logChannelId, env.guildCached, env.logChannelReachable, locked, reviewerId,
                            o.grant.applied, o.grant.error, o.nickname.applied, o.nickname.error)
    ensures o.rolesReply == ReplyStatus(o.grant.applied, o.grant.error) && o.nicknameReply == ReplyStatus(o.nickname.applied, o.nickname.error)
  {
    var roles := ApprovedRoles(locked.facRoleId, c.verificadoRoleId, ResolveRamoRolesForFac(c, locked.facRoleId));
    var grant := ApplyApprovedRoles(env.target, roles, env.rolesFault);
    var nickname := ApplyApprovedNickname(env.target, locked.form.value, env.nicknameFault);
    var log := FacLog(c.logChannelId, env.guildCached, env.logChannelReachable, locked, reviewerId,
                      grant.applied, grant.error, nickname.applied, nickname.error);
    Approval(locked, grant, nickname, log, ReplyStatus(grant.applied, grant.error), ReplyStatus(nickname.applied, nickname.error))
  }

  /** The effects of a denial once the record is claimed: no role or nickname change, only the log. */
  function DenialEffects(c: GuildConfig, locked: RequestRecord, reviewerId: string, env: DecisionEnv): (o: DecisionOutcome)
    ensures o.Denial? && o.record == locked
    ensures o.log == FacLog(c.logChannelId, env.guildCached, env.logChannelReachable, locked, reviewerId, false, None, false, None)
  {
    Denial(locked, FacLog(c.logChannelId, env.guildCached, env.logChannelReachable, locked, reviewerId, false, None, false, None))
  }

  /** The approve and deny buttons: check the reviewer, claim the request while it is still
      PENDING, then carry out the decision's effects. */
  method Decide(configs: ConfigStore, store: RequestStore, guildId: string, reviewerId: string, reviewer: Option<Member>,
                requestId: string, status: Status, env: DecisionEnv, now: int) returns (o: DecisionOutcome)
    requires configs.Valid() && store.Valid() && AllHaveForms(store.records) && status != Pending
    modifies configs, store
    ensures configs.Valid() && store.Valid() && AllHaveForms(store.records)
    ensures configs.docs == AfterGet(old(configs.docs), guildId)
    ensures !MayReview(reviewer, configs.docs[guildId]) ==> o == Forbidden && store.records == old(store.records)
    ensures MayReview(reviewer, configs.docs[guildId]) ==>
      store.records == AfterClaim(old(store.records), requestId, status, reviewerId, now)
    ensures MayReview(reviewer, configs.docs[guildId]) ==>
      match ClaimResult(old(store.records), requestId, status, reviewerId, now)
      case None => o == Unavailable
      case Some(locked) =>
        o == (if status == Approved then ApprovalEffects(configs.docs[guildId], locked, reviewerId, env)
              else DenialEffects(configs.docs[guildId], locked, reviewerId, env))
  {
    var c := configs.Get(guildId);
    if !MayReview(reviewer, c) {
      return Forbidden;
    }
    var locked := store.Claim(requestId, status, reviewerId, now);
    if locked.None? {
      return Unavailable;
    }
    if status == Approved {
      o := ApprovalEffects(c, locked.value, reviewerId, env);
    } else {
      o := DenialEffects(c, locked.value, reviewerId, env);
    }
  }

  // ---------------------------------------------------------------- decision properties

  /** With the member present and Discord accepting both changes, an approval grants the FAC
      role, Verificado (when configured) and every ramo role for that FAC, sets the
      `[01]`/`[02]` nickname, and any final log reads OK twice. */
  lemma CleanApprovalAppliesEverything(c: GuildConfig, locked: RequestRecord, reviewerId: string, env: DecisionEnv)
    requires locked.form.Some? && locked.facRoleId != ""
    requires env.target.Some? && env.rolesFault.None? && env.nicknameFault.None?
    ensures var o := ApprovalEffects(c, locked, reviewerId, env);
      o.grant.applied && locked.facRoleId in o.grant.granted
      && (Present(c.verificadoRoleId) ==> c.verificadoRoleId.value in o.grant.granted)
      && (forall x :: x in ResolveRamoRolesForFac(c, locked.facRoleId) && x != "" ==> x in o.grant.granted)
      && o.nickname.nickname == Some(BuildFacNickname(locked.form.value.rank, locked.form.value.nome, locked.form.value.gameId))
      && (o.log.Some? && locked.status == Approved ==> o.log.value.cargos == "OK" && o.log.value.nickname == "OK")
      && o.rolesReply == "OK" && o.nicknameReply == "OK"
  {
    var roles := ApprovedRoles(locked.facRoleId, c.verificadoRoleId, ResolveRamoRolesForFac(c, locked.facRoleId));
    assert locked.facRoleId in roles;
  }

  /** When the requester has left the guild, both effects fail with the same message and
      nothing is granted. */
  lemma ApprovalWithoutMember(c: GuildConfig, locked: RequestRecord, reviewerId: string, env: DecisionEnv)
    requires locked.form.Some? && env.target.None?
    ensures var o := ApprovalEffects(c, locked, reviewerId, env);
      o.grant.granted == [] && o.nickname.nickname.None?
      && o.grant.error == Some(MemberNotFoundMessage) && o.nickname.error == Some(MemberNotFoundMessage)
      && o.rolesReply == "FALHA (" + MemberNotFoundMessage + ")"
  {
  }

  /** A denial's log, when written, records that nothing was applied. */
  lemma DenialLogAppliesNothing(c: GuildConfig, locked: RequestRecord, reviewerId: string, env: DecisionEnv)
    requires locked.status == Denied
    ensures var o := DenialEffects(c, locked, reviewerId, env);
      o.log.Some? ==> o.log.value.cargos == "NAO APLICADO" && o.log.value.nickname == "NAO APLICADO"
  {
  }

  /** Decisions keep every store invariant and change only the claimed record. */
  lemma DecisionPreservesStore(records: map<string, RequestRecord>, requestId: string, status: Status, reviewerId: string, now: int)
    requires status != Pending && KeyedById(records) && AllHaveForms(records) && CardedPending(records)
    ensures var after := AfterClaim(records, requestId, status, reviewerId, now);
      KeyedById(after) && AllHaveForms(after) && CardedPending(after) && Evolves(records, after)
  {
  }

  /** Exactly one decision: once a request is claimed, a second approve or deny by anyone
      finds it unavailable and changes nothing. */
  lemma SecondDecisionUnavailable(records: map<string, RequestRecord>, requestId: string,
                                  first: Status, firstReviewer: string, firstAt: int,
                                  second: Status, secondReviewer: string, secondAt: int)
    requires first != Pending && second != Pending
    requires ClaimResult(records, requestId, first, firstReviewer, firstAt).Some?
    ensures var after := AfterClaim(records, requestId, first, firstReviewer, firstAt);
      ClaimResult(after, requestId, second, secondReviewer, secondAt).None?
      && after[requestId].status == first && after[requestId].decidedBy == Some(firstReviewer)
  {
    ClaimExactlyOnce(records, requestId, first, firstReviewer, firstAt, second, secondReviewer, secondAt);
  }
}

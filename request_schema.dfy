/** A role request as stored: who asked for which FAC role, the form data (full flavour
    only), the decision status and where the review card was posted. */
module RequestSchema {
  import opened Wrappers

  datatype Status = Pending | Approved | Denied

  datatype Rank = Lider | Sub

  /** A validated request form. */
  datatype FormData = FormData(nome: string, gameId: string, rank: Rank)

  datatype RequestRecord = RequestRecord(
    requestId: string,
    guildId: string,
    userId: string,
    facRoleId: string,
    form: Option<FormData>,
    status: Status,
    createdAt: int,
    decidedBy: Option<string>,
    decidedAt: Option<int>,
    analiseMessageId: Option<string>,
    analiseChannelId: Option<string>)

  /** What a creation call supplies; the store adds the status and the timestamps. */
  datatype NewRequest = NewRequest(guildId: string, userId: string, facRoleId: string, form: Option<FormData>, analiseChannelId: string)

  /** The record `create` writes: status PENDING (the schema default, also passed explicitly),
      `createdAt` = now, no decision yet, the analysis channel but no card message yet. */
  function PendingRecord(requestId: string, data: NewRequest, now: int): (r: RequestRecord)
    ensures r.requestId == requestId && r.status == Pending && r.createdAt == now
    ensures r.guildId == data.guildId && r.userId == data.userId && r.facRoleId == data.facRoleId && r.form == data.form
    ensures r.decidedBy.None? && r.decidedAt.None? && r.analiseMessageId.None?
    ensures r.analiseChannelId == Some(data.analiseChannelId)
  {
    RequestRecord(requestId, data.guildId, data.userId, data.facRoleId, data.form, Pending, now,
                  None, None, None, Some(data.analiseChannelId))
  }

  /** The record after the conditional update `{status: PENDING} -> {status, decidedBy, decidedAt}`. */
  function Decided(r: RequestRecord, status: Status, decider: string, at: int): (d: RequestRecord)
    requires status != Pending
    ensures d.status == status && d.status != Pending && d.decidedBy == Some(decider) && d.decidedAt == Some(at)
    ensures d.requestId == r.requestId && d.guildId == r.guildId && d.userId == r.userId
    ensures d.facRoleId == r.facRoleId && d.form == r.form && d.createdAt == r.createdAt
    ensures d.analiseMessageId == r.analiseMessageId && d.analiseChannelId == r.analiseChannelId
  {
    r.(status := status, decidedBy := Some(decider), decidedAt := Some(at))
  }
}

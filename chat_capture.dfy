/** The chat capture of role ids: after an administrator presses "edit ids" in a panel, the
    next message they type in that channel is parsed into role ids, which replace the FAC
    role list (or, in the lite flavour, the lite role list). The two message handlers are
    identical except for the session map they read and the field they write, so one handler
    parameterised by its target models both. */
module ChatCapture {
  import opened Wrappers
  import opened Lists
  import opened Text
  import opened GuildConfigs
  import opened Settings
  import opened ChatSessions
  import opened Faults

  /** Which role list a capture writes. */
  datatype CaptureTarget = FacRoleIdsTarget | FacLiteRoleIdsTarget

  /** The list a capture target names. */
  function Stored(c: GuildConfig, target: CaptureTarget): seq<string> {
    match target
    case FacRoleIdsTarget => c.facRoleIds
    case FacLiteRoleIdsTarget => c.facLiteRoleIds
  }

  /** `config.set(<field>, ids)`: the target list becomes `ids`; every other field is kept. */
  function SetTarget(c: GuildConfig, target: CaptureTarget, ids: seq<string>): (r: GuildConfig)
    ensures Stored(r, target) == ids
    ensures r.(facRoleIds := c.facRoleIds, facLiteRoleIds := c.facLiteRoleIds) == c
    ensures target == FacRoleIdsTarget ==> r.facLiteRoleIds == c.facLiteRoleIds
    ensures target == FacLiteRoleIdsTarget ==> r.facRoleIds == c.facRoleIds
  {
    match target
    case FacRoleIdsTarget => c.(facRoleIds := ids)
    case FacLiteRoleIdsTarget => c.(facLiteRoleIds := ids)
  }

  /** What the handler reads from a message. `managesGuild` is false when the author is not
      resolved as a guild member; `guildRoles` is the guild's role cache. */
  datatype ChatMessage = ChatMessage(
    authorId: string, authorIsBot: bool, guildId: Option<string>, channelId: string,
    content: string, managesGuild: bool, guildRoles: set<string>)

  datatype CaptureOutcome =
    | Ignored
    | Cancelled
    | NotPermitted
    | NoValidIds
    | NoExistingIds
    | Saved(saved: seq<string>, notFound: seq<string>, invalid: seq<string>)

  /** The words that abandon a capture, compared after trimming and lower-casing. */
  const CancelWords: set<string> := {"cancelar", "cancel", "sair"}

  predicate IsCancelWord(s: string) {
    s in CancelWords
  }

  /** Whether the handler considers the message at all, before reading a session. */
  predicate Considered(msg: ChatMessage) {
    !msg.authorIsBot && Present(msg.guildId)
  }

  /** The session belongs to this guild and channel. */
  predicate SessionMatches(live: Option<Session>, msg: ChatMessage) {
    live.Some? && msg.guildId.Some? && live.value.guildId == msg.guildId.value && live.value.channelId == msg.channelId
  }

  /** The parsed ids whose role exists in the guild, in parsed order. */
  function ExistingIds(ids: seq<string>, guildRoles: set<string>): (r: seq<string>)
    ensures forall id :: id in r <==> id in ids && id in guildRoles
  {
    Filter(ids, id => id in guildRoles)
  }

  /** The parsed ids whose role does not exist in the guild, in parsed order. */
  function MissingIds(ids: seq<string>, guildRoles: set<string>): (r: seq<string>)
    ensures forall id :: id in r <==> id in ids && id !in guildRoles
  {
    Filter(ids, id => id !in guildRoles)
  }

  /** The two filters split the parsed ids: every id lands in exactly one list, once. */
  lemma {:induction false} ExistenceSplitsIds(ids: seq<string>, guildRoles: set<string>)
    requires NoDuplicates(ids)
    ensures |ExistingIds(ids, guildRoles)| + |MissingIds(ids, guildRoles)| == |ids|
    ensures NoDuplicates(ExistingIds(ids, guildRoles)) && NoDuplicates(MissingIds(ids, guildRoles))
    decreases |ids|
  {
    if ids != [] {
      var tail := ids[1..];
      assert NoDuplicates(tail) by {
        forall i, j | 0 <= i < j < |tail|
          ensures tail[i] != tail[j]
        {
          assert tail[i] == ids[i + 1] && tail[j] == ids[j + 1];
        }
      }
      assert ids[0] !in tail by {
        forall k | 0 <= k < |tail|
          ensures tail[k] != ids[0]
        {
          assert tail[k] == ids[k + 1];
        }
      }
      ExistenceSplitsIds(tail, guildRoles);
      var e, m := ExistingIds(tail, guildRoles), MissingIds(tail, guildRoles);
      if ids[0] in guildRoles {
        assert ExistingIds(ids, guildRoles) == [ids[0]] + e;
        assert MissingIds(ids, guildRoles) == m;
        ConsKeepsDistinct(ids[0], e);
      } else {
        assert ExistingIds(ids, guildRoles) == e;
        assert MissingIds(ids, guildRoles) == [ids[0]] + m;
        ConsKeepsDistinct(ids[0], m);
      }
    }
  }

  /** The handler's decision, given the author's live session (when the message is considered). */
  function Capture(live: Option<Session>, msg: ChatMessage): CaptureOutcome
  {
    if !Considered(msg) || !SessionMatches(live, msg) then Ignored
    else Settle(msg)
  }

  /** The decision once the message is known to belong to the author's session. */
  function Settle(msg: ChatMessage): (o: CaptureOutcome)
    ensures o != Ignored
  {
    if IsCancelWord(Lower(Trim(msg.content))) then Cancelled
    else if !msg.managesGuild then NotPermitted
    else ReadIds(msg)
  }

  /** The decision for a Manage Guild holder's message that is not a cancel word. */
  function ReadIds(msg: ChatMessage): (o: CaptureOutcome)
    ensures o.NoValidIds? || o.NoExistingIds? || o.Saved?
  {
    var content := Trim(msg.content);
    var roleIds := ParsedRoleIds(content);
    if roleIds == [] then NoValidIds
    else
      var valid := ExistingIds(roleIds, msg.guildRoles);
      if valid == [] then NoExistingIds
      else Saved(valid, MissingIds(roleIds, msg.guildRoles), ParsedInvalid(content))
  }

  /** What the handler throws: only a decision to save reaches the store, and a rejected save
      propagates its error before the session is cleared or the confirmation sent. */
  function SaveError(o: CaptureOutcome, saveFault: Option<Thrown>): (e: Option<Thrown>)
    ensures e.Some? <==> o.Saved? && saveFault.Some?
    ensures e.Some? ==> e == saveFault
  {
    if o.Saved? then saveFault else None
  }

  /** Whether the handler ends the author's session: a cancel, a refusal, or a save the store
      accepted. */
  predicate EndsSession(o: CaptureOutcome, error: Option<Thrown>) {
    o.Cancelled? || o.NotPermitted? || (o.Saved? && error.None?)
  }

  /** Each outcome of the handler and the exact conditions that lead to it. */
  lemma CaptureOutcomes(live: Option<Session>, msg: ChatMessage)
    ensures Capture(live, msg) == Ignored <==> !Considered(msg) || !SessionMatches(live, msg)
    ensures Capture(live, msg) == Cancelled <==> Considered(msg) && SessionMatches(live, msg) && IsCancelWord(Lower(Trim(msg.content)))
    ensures Capture(live, msg) == NotPermitted <==>
      Considered(msg) && SessionMatches(live, msg) && !IsCancelWord(Lower(Trim(msg.content))) && !msg.managesGuild
    ensures Capture(live, msg) == NoValidIds ==> ParsedRoleIds(Trim(msg.content)) == [] && msg.managesGuild
    ensures Capture(live, msg).Saved? ==>
      var o := Capture(live, msg);
      Considered(msg) && SessionMatches(live, msg) && msg.managesGuild && !IsCancelWord(Lower(Trim(msg.content)))
      && o.saved != [] && o.invalid == ParsedInvalid(Trim(msg.content))
      && (forall id :: id in o.saved <==> id in ParsedRoleIds(Trim(msg.content)) && id in msg.guildRoles)
      && (forall id :: id in o.notFound <==> id in ParsedRoleIds(Trim(msg.content)) && id !in msg.guildRoles)
  {
    if !Considered(msg) || !SessionMatches(live, msg) {
      assert Capture(live, msg) == Ignored;
    } else if IsCancelWord(Lower(Trim(msg.content))) {
      assert Capture(live, msg) == Cancelled;
    } else if !msg.managesGuild {
      assert Capture(live, msg) == NotPermitted;
    } else {
      assert Capture(live, msg) == ReadIds(msg);
      var content := Trim(msg.content);
      var roleIds := ParsedRoleIds(content);
      if roleIds != [] {
        var valid := ExistingIds(roleIds, msg.guildRoles);
        if valid != [] {
          assert ReadIds(msg) == Saved(valid, MissingIds(roleIds, msg.guildRoles), ParsedInvalid(content));
        }
      }
    }
  }

  /** The session map after the handler: a considered message reads (and so may evict) the
      author's session; a cancel, a refusal or an accepted save then clears it. */
  function SessionsAfter(sessions: map<string, Session>, msg: ChatMessage, o: CaptureOutcome, error: Option<Thrown>, now: int): map<string, Session> {
    if !Considered(msg) then sessions
    else
      var read := AfterRead(sessions, msg.authorId, now);
      if EndsSession(o, error) then read - {msg.authorId} else read
  }

  /** The configuration collection after a save: the guild's document, read (or created)
      by `get`, with the target list replaced. */
  function SavedConfigs(docs: map<string, GuildConfig>, target: CaptureTarget, guildId: string, ids: seq<string>): map<string, GuildConfig> {
    var read := AfterGet(docs, guildId);
    read[guildId := SetTarget(read[guildId], target, ids)]
  }

  /** The `messageCreate` handler up to the session check. `o` is the handler's decision and
      `error` what it throws; `saveFault` is the store's answer to the save. */
  method HandleMessage(sessions: SessionStore, configs: ConfigStore, target: CaptureTarget, msg: ChatMessage,
                       saveFault: Option<Thrown>, now: int)
    returns (o: CaptureOutcome, error: Option<Thrown>)
    requires configs.Valid()
    modifies sessions, configs
    ensures configs.Valid()
    ensures o == Capture(if Considered(msg) then LiveSession(old(sessions.sessions), msg.authorId, now) else None, msg)
    ensures error == SaveError(o, saveFault)
    ensures sessions.sessions == SessionsAfter(old(sessions.sessions), msg, o, error, now)
    ensures !o.Saved? ==> configs.docs == old(configs.docs)
    ensures o.Saved? && error.None? ==> configs.docs == SavedConfigs(old(configs.docs), target, msg.guildId.value, o.saved)
    ensures o.Saved? && error.Some? ==> configs.docs == AfterGet(old(configs.docs), msg.guildId.value)
  {
    if msg.authorIsBot || !Present(msg.guildId) {
      return Ignored, None;
    }
    var session := sessions.Get(msg.authorId, now);
    if session.None? || session.value.guildId != msg.guildId.value || session.value.channelId != msg.channelId {
      return Ignored, None;
    }
    o, error := SettleMessage(sessions, configs, target, msg, saveFault);
  }

  /** The rest of the handler, for a message typed in the author's capture channel: cancel,
      refuse, reject the input, or save the ids that exist and end the capture. */
  method SettleMessage(sessions: SessionStore, configs: ConfigStore, target: CaptureTarget, msg: ChatMessage,
                       saveFault: Option<Thrown>)
    returns (o: CaptureOutcome, error: Option<Thrown>)
    requires configs.Valid() && Present(msg.guildId)
    modifies sessions, configs
    ensures KeyedByGuild(configs.docs)
    ensures IsCancelWord(Lower(Trim(msg.content))) ==> o == Cancelled
    ensures !IsCancelWord(Lower(Trim(msg.content))) && !msg.managesGuild ==> o == NotPermitted
    ensures !IsCancelWord(Lower(Trim(msg.content))) && msg.managesGuild ==> o == ReadIds(msg)
    ensures error == SaveError(o, saveFault)
    ensures EndsSession(o, error) ==> sessions.sessions == old(sessions.sessions) - {msg.authorId}
    ensures !EndsSession(o, error) ==> sessions.sessions == old(sessions.sessions)
    ensures !o.Saved? ==> configs.docs == old(configs.docs)
    ensures o.Saved? && error.None? ==> configs.docs == SavedConfigs(old(configs.docs), target, msg.guildId.value, o.saved)
    ensures o.Saved? && error.Some? ==> configs.docs == AfterGet(old(configs.docs), msg.guildId.value)
  {
    var content := Trim(msg.content);
    if IsCancelWord(Lower(content)) {
      sessions.Clear(msg.authorId);
      return Cancelled, None;
    }
    if !msg.managesGuild {
      sessions.Clear(msg.authorId);
      return NotPermitted, None;
    }
    o, error := SaveTypedIds(configs, target, msg, saveFault);
    assert !o.Cancelled? && !o.NotPermitted?;
    if o.Saved? && error.None? {
      sessions.Clear(msg.authorId);
    }
  }

  /** Parse the typed ids and, when some of them exist in the guild, store those. */
  method SaveTypedIds(configs: ConfigStore, target: CaptureTarget, msg: ChatMessage, saveFault: Option<Thrown>)
    returns (o: CaptureOutcome, error: Option<Thrown>)
    requires configs.Valid() && Present(msg.guildId)
    modifies configs
    ensures configs.Valid()
    ensures o == ReadIds(msg)
    ensures error == SaveError(o, saveFault)
    ensures !o.Saved? ==> configs.docs == old(configs.docs)
    ensures o.Saved? && error.None? ==> configs.docs == SavedConfigs(old(configs.docs), target, msg.guildId.value, o.saved)
    ensures o.Saved? && error.Some? ==> configs.docs == AfterGet(old(configs.docs), msg.guildId.value)
  {
    var content := Trim(msg.content);
    var roleIds, invalid := ParseRoleIdsInput(content);
    if roleIds == [] {
      return NoValidIds, None;
    }
    var valid := ExistingIds(roleIds, msg.guildRoles);
    var notFound := MissingIds(roleIds, msg.guildRoles);
    if valid == [] {
      return NoExistingIds, None;
    }
    var c := configs.Get(msg.guildId.value);
    error := configs.Save(SetTarget(c, target, valid), saveFault);
    return Saved(valid, notFound, invalid), error;
  }

  /** A save stores exactly the typed snowflakes that exist in the guild, in the order first
      typed, without repeats; typed ids that do not exist are reported, not stored. */
  lemma SavedIdsAreExistingSnowflakes(live: Option<Session>, msg: ChatMessage)
    requires Capture(live, msg).Saved?
    ensures var o := Capture(live, msg);
      NoDuplicates(o.saved) && (forall id :: id in o.saved ==> IsRoleId(id) && id in msg.guildRoles)
      && (forall id :: id in o.notFound ==> IsRoleId(id) && id !in msg.guildRoles)
      && |o.saved| + |o.notFound| == |ParsedRoleIds(Trim(msg.content))|
  {
    var content := Trim(msg.content);
    var roleIds := ParsedRoleIds(content);
    assert Capture(live, msg) == Settle(msg);
    assert !IsCancelWord(Lower(content)) && msg.managesGuild;
    assert Settle(msg) == ReadIds(msg);
    assert ReadIds(msg) == Saved(ExistingIds(roleIds, msg.guildRoles), MissingIds(roleIds, msg.guildRoles), ParsedInvalid(content));
    ParsedListsPartitionTokens(content);
    ExistenceSplitsIds(roleIds, msg.guildRoles);
  }

  /** The session survives a message it ignores, one that carries no usable id or one whose
      save is rejected, so the administrator can try again; a cancel, a refusal or an accepted
      save ends it. */
  lemma SessionEndsOnlyWhenSettled(sessions: map<string, Session>, msg: ChatMessage, saveFault: Option<Thrown>, now: int, later: int)
    requires now <= later
    ensures var live := if Considered(msg) then LiveSession(sessions, msg.authorId, now) else None;
      var o := Capture(live, msg);
      var after := SessionsAfter(sessions, msg, o, SaveError(o, saveFault), now);
      ((o.NoValidIds? || o.NoExistingIds? || (o.Saved? && saveFault.Some?)) ==>
         LiveSession(after, msg.authorId, later) == LiveSession(sessions, msg.authorId, later))
      && ((o.Cancelled? || o.NotPermitted? || (o.Saved? && saveFault.None?)) ==> LiveSession(after, msg.authorId, later).None?)
      && (forall u :: u != msg.authorId ==> LiveSession(after, u, later) == LiveSession(sessions, u, later))
  {
  }

  /** A save writes only the target list of the message's guild: every other field of that
      document and every other guild's document stay as they were, and the collection stays
      keyed by guild. */
  lemma SaveWritesOnlyTarget(docs: map<string, GuildConfig>, target: CaptureTarget, guildId: string, ids: seq<string>)
    requires KeyedByGuild(docs)
    ensures var after := SavedConfigs(docs, target, guildId, ids);
      var before := AfterGet(docs, guildId)[guildId];
      KeyedByGuild(after) && after.Keys == docs.Keys + {guildId}
      && Stored(after[guildId], target) == ids
      && after[guildId].(facRoleIds := before.facRoleIds, facLiteRoleIds := before.facLiteRoleIds) == before
      && (forall h :: h in docs && h != guildId ==> after[h] == docs[h])
  {
    var read := AfterGet(docs, guildId);
    assert KeyedByGuild(read);
    assert read[guildId].guildId == guildId && UniqueKeys(read[guildId].ramoRoleByFac);
  }

  // ---------------------------------------------------------------- the confirmation

  /** A list shown in the confirmation: the first ten entries, then "..." when there are more. */
  datatype Preview = Preview(shown: seq<string>, truncated: bool)

  function PreviewOf(xs: seq<string>): (p: Preview)
    ensures |p.shown| <= 10 && |p.shown| <= |xs| && p.shown == xs[..|p.shown|]
    ensures p.truncated <==> |xs| > 10
    ensures !p.truncated ==> p.shown == xs
    ensures p.truncated ==> |p.shown| == 10
  {
    if |xs| > 10 then Preview(xs[..10], true) else Preview(xs, false)
  }

  /** The confirmation of a save: how many roles were saved, then the not-found and the
      ignored tokens, each section only when it has entries. */
  datatype SaveReport = SaveReport(count: nat, saved: seq<string>, notFound: Option<Preview>, ignored: Option<Preview>)

  function Report(o: CaptureOutcome): (r: SaveReport)
    requires o.Saved?
    ensures r.count == |o.saved| && r.saved == o.saved
    ensures r.notFound.Some? <==> o.notFound != []
    ensures r.ignored.Some? <==> o.invalid != []
    ensures r.notFound.Some? ==> r.notFound.value == PreviewOf(o.notFound)
    ensures r.ignored.Some? ==> r.ignored.value == PreviewOf(o.invalid)
  {
    SaveReport(|o.saved|, o.saved,
               if o.notFound != [] then Some(PreviewOf(o.notFound)) else None,
               if o.invalid != [] then Some(PreviewOf(o.invalid)) else None)
  }
}

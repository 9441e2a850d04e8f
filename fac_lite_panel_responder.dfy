/** The FAC Lite settings panel's handlers. They share the FAC panel's Manage Guild gate and
    outcomes, but touch only the four FAC Lite settings. */
module FacLitePanelResponder {
  import opened Wrappers
  import opened Lists
  import opened Paging
  import opened GuildConfigs
  import opened ChatSessions
  import opened FacLiteRules
  import opened PanelResponder
  import opened Faults

  const LiteChannelKeys: seq<string> := ["facLiteAnaliseChannelId", "facLiteLogChannelId"]
  const LiteRoleKeys: seq<string> := ["facLiteStaffRoleIds", "facLiteRoleIds"]

  predicate IsFacLiteChannelKey(key: string) {
    key in LiteChannelKeys
  }

  predicate IsFacLiteRoleKey(key: string) {
    key in LiteRoleKeys
  }

  /** The lite fields, as a value: what the lite panel may change. */
  datatype LiteFields = LiteFields(analise: Option<string>, log: Option<string>, staff: seq<string>, roles: seq<string>)

  function LiteFieldsOf(c: GuildConfig): LiteFields {
    LiteFields(c.facLiteAnaliseChannelId, c.facLiteLogChannelId, c.facLiteStaffRoleIds, c.facLiteRoleIds)
  }

  /** Two documents that differ at most in their lite fields. */
  predicate SameOutsideLite(c: GuildConfig, d: GuildConfig) {
    d.(facLiteAnaliseChannelId := c.facLiteAnaliseChannelId, facLiteLogChannelId := c.facLiteLogChannelId,
       facLiteStaffRoleIds := c.facLiteStaffRoleIds, facLiteRoleIds := c.facLiteRoleIds) == c
  }

  // ---------------------------------------------------------------- channels

  function LiteChannelField(c: GuildConfig, key: string): Option<string>
    requires IsFacLiteChannelKey(key)
  {
    if key == "facLiteAnaliseChannelId" then c.facLiteAnaliseChannelId else c.facLiteLogChannelId
  }

  /** `config.set(key, channelId)` for a lite channel key. */
  function SetLiteChannelField(c: GuildConfig, key: string, channelId: Option<string>): (r: GuildConfig)
    requires IsFacLiteChannelKey(key)
    ensures LiteChannelField(r, key) == channelId
    ensures forall k :: IsFacLiteChannelKey(k) && k != key ==> LiteChannelField(r, k) == LiteChannelField(c, k)
    ensures r.facLiteStaffRoleIds == c.facLiteStaffRoleIds && r.facLiteRoleIds == c.facLiteRoleIds
    ensures SameOutsideLite(c, r)
  {
    if key == "facLiteAnaliseChannelId" then c.(facLiteAnaliseChannelId := channelId)
    else c.(facLiteLogChannelId := channelId)
  }

  /** The lite channel selector (`faclite/painel/channel/:key`): an unknown key is refused
      before reading. */
  method SetLiteChannel(configs: ConfigStore, a: Actor, key: string, channelId: Option<string>, saveFault: Option<Thrown>)
    returns (o: PanelOutcome)
    requires configs.Valid()
    modifies configs
    ensures configs.Valid()
    ensures !MayConfigure(a) ==> o == Refusal(a) && configs.docs == old(configs.docs)
    ensures MayConfigure(a) && !IsFacLiteChannelKey(key) ==> o == InvalidKey && configs.docs == old(configs.docs)
    ensures MayConfigure(a) && IsFacLiteChannelKey(key) ==>
      var g := a.guildId.value;
      var read := AfterGet(old(configs.docs), g);
      SettledBySave(o, configs.docs, read, g, SetLiteChannelField(read[g], key, channelId), saveFault)
  {
    if !MayConfigure(a) {
      return Refusal(a);
    }
    if !IsFacLiteChannelKey(key) {
      return InvalidKey;
    }
    var c := configs.Get(a.guildId.value);
    var error := configs.Save(SetLiteChannelField(c, key, channelId), saveFault);
    o := if error.Some? then Rejected(error.value) else Done;
  }

  // ---------------------------------------------------------------- roles

  function LiteRoleList(c: GuildConfig, key: string): seq<string>
    requires IsFacLiteRoleKey(key)
  {
    if key == "facLiteStaffRoleIds" then c.facLiteStaffRoleIds else c.facLiteRoleIds
  }

  /** `config.set(key, roleIds)` for a lite role key. */
  function SetLiteRoleList(c: GuildConfig, key: string, roleIds: seq<string>): (r: GuildConfig)
    requires IsFacLiteRoleKey(key)
    ensures LiteRoleList(r, key) == roleIds
    ensures forall k :: IsFacLiteRoleKey(k) && k != key ==> LiteRoleList(r, k) == LiteRoleList(c, k)
    ensures r.facLiteAnaliseChannelId == c.facLiteAnaliseChannelId && r.facLiteLogChannelId == c.facLiteLogChannelId
    ensures SameOutsideLite(c, r)
  {
    if key == "facLiteStaffRoleIds" then c.(facLiteStaffRoleIds := roleIds)
    else c.(facLiteRoleIds := roleIds)
  }

  /** The lite role menu (`faclite/painel/select-role`): the requestable lite roles are typed
      in chat, so that key restarts the user's lite capture session and reads the current
      list; the staff key only answers with a picker. */
  method SelectLiteRole(sessions: SessionStore, configs: ConfigStore, a: Actor, key: string, channelId: string, now: int)
    returns (o: PanelOutcome, current: Option<seq<string>>)
    requires configs.Valid()
    modifies sessions, configs
    ensures configs.Valid()
    ensures !MayConfigure(a) || !IsFacLiteRoleKey(key) || key != "facLiteRoleIds" ==>
      sessions.sessions == old(sessions.sessions) && configs.docs == old(configs.docs) && current.None?
    ensures o == SelectKey(a, key, IsFacLiteRoleKey)
    ensures MayConfigure(a) && key == "facLiteRoleIds" ==>
      sessions.sessions == old(sessions.sessions)[a.userId := Session(a.guildId.value, channelId, now + SessionTtlMs)]
      && configs.docs == AfterGet(old(configs.docs), a.guildId.value)
      && current == Some(configs.docs[a.guildId.value].facLiteRoleIds)
  {
    o := SelectKey(a, key, IsFacLiteRoleKey);
    if o != Done || key != "facLiteRoleIds" {
      return o, None;
    }
    sessions.Clear(a.userId);
    sessions.Start(a.userId, a.guildId.value, channelId, now);
    var c := configs.Get(a.guildId.value);
    return Done, Some(c.facLiteRoleIds);
  }

  /** The lite role selector (`faclite/painel/role/:key`): an unknown key or a selection with
      no role is refused before reading; otherwise the selection, without repeats, replaces
      that list. */
  method SetLiteRole(configs: ConfigStore, a: Actor, key: string, values: seq<string>, saveFault: Option<Thrown>)
    returns (o: PanelOutcome)
    requires configs.Valid()
    modifies configs
    ensures configs.Valid()
    ensures !MayConfigure(a) ==> o == Refusal(a) && configs.docs == old(configs.docs)
    ensures MayConfigure(a) && !IsFacLiteRoleKey(key) ==> o == InvalidKey && configs.docs == old(configs.docs)
    ensures MayConfigure(a) && IsFacLiteRoleKey(key) && values == [] ==> o == EmptySelection && configs.docs == old(configs.docs)
    ensures MayConfigure(a) && IsFacLiteRoleKey(key) && values != [] ==>
      var g := a.guildId.value;
      var read := AfterGet(old(configs.docs), g);
      SettledBySave(o, configs.docs, read, g, SetLiteRoleList(read[g], key, Dedup(values)), saveFault)
  {
    if !MayConfigure(a) {
      return Refusal(a);
    }
    if !IsFacLiteRoleKey(key) {
      return InvalidKey;
    }
    var roleIds := Dedup(values);
    DedupEmptyOnlyForEmpty(values);
    if roleIds == [] {
      return EmptySelection;
    }
    var c := configs.Get(a.guildId.value);
    var error := configs.Save(SetLiteRoleList(c, key, roleIds), saveFault);
    o := if error.Some? then Rejected(error.value) else Done;
  }

  /** A selection loses no role to deduplication: it is empty only when nothing was selected. */
  lemma DedupEmptyOnlyForEmpty(values: seq<string>)
    ensures Dedup(values) == [] <==> values == []
  {
    if values != [] {
      assert values[0] in values;
    }
  }

  /** A saved lite role list holds each selected role once and never comes out empty, so the
      lite configuration check stops reporting it. */
  lemma SavedLiteRolesComplete(c: GuildConfig, key: string, values: seq<string>)
    requires IsFacLiteRoleKey(key) && values != []
    ensures var r := SetLiteRoleList(c, key, Dedup(values));
      NoDuplicates(LiteRoleList(r, key)) && (forall id :: id in LiteRoleList(r, key) <==> id in values)
      && (key == "facLiteRoleIds" ==> LiteRoles !in GetMissingFacLiteConfig(r))
      && (key == "facLiteStaffRoleIds" ==> LiteStaffRoles !in GetMissingFacLiteConfig(r))
  {
    DedupEmptyOnlyForEmpty(values);
  }

  // ---------------------------------------------------------------- panel pages

  /** The lite panel's refresh button: the first page for the (possibly new) document. */
  method LiteRefresh(configs: ConfigStore, a: Actor) returns (o: PanelOutcome, view: Option<PanelView<string, string>>)
    requires configs.Valid()
    modifies configs
    ensures configs.Valid()
    ensures !MayConfigure(a) ==> o == Refusal(a) && view.None? && configs.docs == old(configs.docs)
    ensures MayConfigure(a) ==>
      o == Done && configs.docs == AfterGet(old(configs.docs), a.guildId.value)
      && view == Some(FacLiteSettingsPanelPage(configs.docs[a.guildId.value], 0))
  {
    if !MayConfigure(a) {
      return Refusal(a), None;
    }
    var c := configs.Get(a.guildId.value);
    return Done, Some(FacLiteSettingsPanelPage(c, 0));
  }

  /** The lite panel's page buttons: a page number that is not finite is refused before
      reading; a finite one (already truncated) is clamped by the panel. */
  method LitePage(configs: ConfigStore, a: Actor, page: PageInput) returns (o: PanelOutcome, view: Option<PanelView<string, string>>)
    requires configs.Valid()
    modifies configs
    ensures configs.Valid()
    ensures !MayConfigure(a) ==> o == Refusal(a) && view.None? && configs.docs == old(configs.docs)
    ensures MayConfigure(a) && !page.Finite? ==> o == InvalidPage && view.None? && configs.docs == old(configs.docs)
    ensures MayConfigure(a) && page.Finite? ==>
      o == Done && configs.docs == AfterGet(old(configs.docs), a.guildId.value)
      && view == Some(FacLiteSettingsPanelPage(configs.docs[a.guildId.value], page.n))
  {
    if !MayConfigure(a) {
      return Refusal(a), None;
    }
    if !page.Finite? {
      return InvalidPage, None;
    }
    var c := configs.Get(a.guildId.value);
    return Done, Some(FacLiteSettingsPanelPage(c, page.n));
  }

  /** Whatever finite page is asked for, the view shows a page that exists, and a page past
      the end shows the last one. */
  lemma LitePageClamped(c: GuildConfig, n: int)
    ensures var v := FacLiteSettingsPanelPage(c, n);
      v.current < v.totalPages
      && (n <= 0 ==> v.current == 0)
      && (0 <= n < v.totalPages ==> v.current == n)
      && (n >= v.totalPages ==> v.current == v.totalPages - 1)
  {
    var v := FacLiteSettingsPanelPage(c, n);
    assert v == PanelPage(c.facLiteStaffRoleIds, c.facLiteRoleIds, n);
  }

  // ---------------------------------------------------------------- reset

  /** The lite reset's `updateOne`: both lite role lists emptied, both lite channels unset. */
  function ResetFacLite(c: GuildConfig): (r: GuildConfig)
    ensures LiteFieldsOf(r) == LiteFields(None, None, [], [])
    ensures SameOutsideLite(c, r)
  {
    c.(facLiteStaffRoleIds := [], facLiteRoleIds := [], facLiteAnaliseChannelId := None, facLiteLogChannelId := None)
  }

  /** The lite reset button: `updateOne` without upsert, then `get`. */
  method LiteResetAll(configs: ConfigStore, a: Actor) returns (o: PanelOutcome, view: Option<PanelView<string, string>>)
    requires configs.Valid()
    modifies configs
    ensures configs.Valid()
    ensures !MayConfigure(a) ==> o == Refusal(a) && view.None? && configs.docs == old(configs.docs)
    ensures MayConfigure(a) ==>
      var g := a.guildId.value;
      o == Done
      && (g in old(configs.docs) ==> configs.docs == old(configs.docs)[g := ResetFacLite(old(configs.docs)[g])])
      && (g !in old(configs.docs) ==> configs.docs == old(configs.docs)[g := DefaultConfig(g)])
      && view == Some(FacLiteSettingsPanelPage(configs.docs[g], 0))
  {
    if !MayConfigure(a) {
      return Refusal(a), None;
    }
    configs.UpdateOne(a.guildId.value, ResetFacLite);
    var c := configs.Get(a.guildId.value);
    return Done, Some(FacLiteSettingsPanelPage(c, 0));
  }

  /** After the lite reset every lite setting is reported missing and the lite panel shows a
      single empty page, while the full FAC settings are kept. */
  lemma LiteResetLeavesLiteUnconfigured(c: GuildConfig)
    ensures GetMissingFacLiteConfig(ResetFacLite(c)) == [LiteAnaliseChannel, LiteLogChannel, LiteStaffRoles, LiteRoles]
    ensures FacLiteSettingsPanelPage(ResetFacLite(c), 0).totalPages == 1
    ensures FacLiteSettingsPanelPage(ResetFacLite(c), 0).first == [] && FacLiteSettingsPanelPage(ResetFacLite(c), 0).second == []
    ensures ResetFacLite(c).facRoleIds == c.facRoleIds && ResetFacLite(c).staffRoleIds == c.staffRoleIds
    ensures ResetFacLite(c).analiseChannelId == c.analiseChannelId && ResetFacLite(c).ramoRoleByFac == c.ramoRoleByFac
  {
    var r := ResetFacLite(c);
    assert PanelTotalPages(0, 0) == 1;
  }

  /** The two resets are independent: each leaves the other flow's settings as they were. */
  lemma ResetsAreIndependent(c: GuildConfig)
    ensures LiteFieldsOf(ResetFac(c)) == LiteFieldsOf(c)
    ensures SameOutsideLite(c, ResetFacLite(c))
    ensures ResetFac(ResetFacLite(c)) == ResetFacLite(ResetFac(c))
  {
  }
}

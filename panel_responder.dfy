/** The FAC settings panel's handlers: the Manage Guild gate, the chat-capture restart, the
    ramo link editor, the channel and role setters, the reset and the publication of the
    public FAC panel. Each handler reads the guild's configuration through the upserting
    `get` and writes it back with `save` (or `updateOne` for the reset). */
module PanelResponder {
  import opened Wrappers
  import opened Lists
  import opened Text
  import opened GuildConfigs
  import opened Settings
  import opened ChatSessions
  import opened Paging
  import opened FacRules
  import opened Faults

  // ---------------------------------------------------------------- permission gate

  /** Who used the panel: the user, the guild (absent outside a guild) and whether their
      permissions include Manage Guild. */
  datatype Actor = Actor(userId: string, guildId: Option<string>, managesGuild: bool)

  /** How a handler ends; `Rejected` is a store or Discord call whose promise rejected, and
      the handler throws its error. */
  datatype PanelOutcome =
    | NoGuild | NotPermitted | InvalidKey | EmptySelection | InvalidFac | InvalidPage | Done
    | Rejected(error: Thrown)

  /** How a handler ends once it saves `x` over the collection `read` that its `get` left:
      a successful save stores `x` and answers; a rejected save stores nothing and its error
      propagates, so the document stays as `get` left it. */
  predicate SettledBySave(o: PanelOutcome, docs: map<string, GuildConfig>, read: map<string, GuildConfig>,
                          g: string, x: GuildConfig, saveFault: Option<Thrown>)
  {
    if saveFault.None? then o == Done && docs == read[g := x]
    else o == Rejected(saveFault.value) && docs == read
  }

  /** `ensurePanelPermission`: a guild interaction by a Manage Guild holder. */
  predicate MayConfigure(a: Actor) {
    Present(a.guildId) && a.managesGuild
  }

  /** What the gate answers when it refuses: silence outside a guild, an error otherwise. */
  function Refusal(a: Actor): (o: PanelOutcome)
    requires !MayConfigure(a)
    ensures o == NoGuild <==> !Present(a.guildId)
    ensures o == NotPermitted <==> Present(a.guildId) && !a.managesGuild
  {
    if !Present(a.guildId) then NoGuild else NotPermitted
  }

  /** The two key menus (`select-channel`, `select-role`) only answer with a picker for a
      known key. */
  function SelectKey(a: Actor, key: string, known: string -> bool): (o: PanelOutcome)
    ensures o == Done <==> MayConfigure(a) && known(key)
    ensures o == InvalidKey <==> MayConfigure(a) && !known(key)
  {
    if !MayConfigure(a) then Refusal(a)
    else if known(key) then Done
    else InvalidKey
  }

  /** The refresh button: the settings panel's first page for the (possibly new) document. */
  method Refresh(configs: ConfigStore, a: Actor) returns (o: PanelOutcome, view: Option<PanelView<string, RamoLink>>)
    requires configs.Valid()
    modifies configs
    ensures configs.Valid()
    ensures !MayConfigure(a) ==> o == Refusal(a) && view.None? && configs.docs == old(configs.docs)
    ensures MayConfigure(a) ==>
      o == Done && configs.docs == AfterGet(old(configs.docs), a.guildId.value)
      && view == Some(FacSettingsPanelPage(configs.docs[a.guildId.value], 0))
  {
    if !MayConfigure(a) {
      return Refusal(a), None;
    }
    var c := configs.Get(a.guildId.value);
    return Done, Some(FacSettingsPanelPage(c, 0));
  }

  // ---------------------------------------------------------------- edit FAC ids by chat

  /** The "edit FAC ids" button: replace the user's capture session by a fresh one bound to
      this guild and channel, and read the current FAC roles for the reply. */
  method EditFacIds(sessions: SessionStore, configs: ConfigStore, a: Actor, channelId: string, now: int)
    returns (o: PanelOutcome, current: seq<string>)
    requires configs.Valid()
    modifies sessions, configs
    ensures configs.Valid()
    ensures !MayConfigure(a) ==> o == Refusal(a) && sessions.sessions == old(sessions.sessions) && configs.docs == old(configs.docs)
    ensures MayConfigure(a) ==>
      o == Done
      && sessions.sessions == old(sessions.sessions)[a.userId := Session(a.guildId.value, channelId, now + SessionTtlMs)]
      && configs.docs == AfterGet(old(configs.docs), a.guildId.value)
      && current == configs.docs[a.guildId.value].facRoleIds
  {
    if !MayConfigure(a) {
      return Refusal(a), [];
    }
    sessions.Clear(a.userId);
    sessions.Start(a.userId, a.guildId.value, channelId, now);
    var c := configs.Get(a.guildId.value);
    return Done, c.facRoleIds;
  }

  /** Right after the button, the user's capture reads the new session for three minutes,
      whatever session they had before, and nobody else's session changes. */
  lemma EditFacIdsRestartsCapture(sessions: map<string, Session>, userId: string, guildId: string, channelId: string,
                                  now: int, later: int, other: string)
    requires now <= later < now + SessionTtlMs && other != userId
    ensures var after := (sessions - {userId})[userId := Session(guildId, channelId, now + SessionTtlMs)];
      after == sessions[userId := Session(guildId, channelId, now + SessionTtlMs)]
      && LiveSession(after, userId, later) == Some(Session(guildId, channelId, now + SessionTtlMs))
      && LiveSession(after, other, later) == LiveSession(sessions, other, later)
  {
  }

  // ---------------------------------------------------------------- ramo links

  /** Every link holds a non-empty list of distinct, non-blank ids. */
  predicate CleanLinks(links: seq<RamoLink>) {
    forall i :: 0 <= i < |links| ==> CleanIds(links[i].roleIds)
  }

  predicate CleanIds(ids: seq<string>) {
    ids != [] && NoDuplicates(ids) && forall id :: id in ids ==> IsNonBlank(id)
  }

  /** The keys of a stored map. */
  function EntryKeys(entries: seq<RamoEntry>): set<string> {
    set i | 0 <= i < |entries| :: entries[i].facRoleId
  }

  lemma {:induction false} LinkKeysIndex(links: seq<RamoLink>)
    ensures |LinkKeys(links)| == |links|
    ensures forall i :: 0 <= i < |links| ==> LinkKeys(links)[i] == links[i].facRoleId
    decreases |links|
  {
    if links != [] {
      LinkKeysIndex(links[1..]);
    }
  }

  /** Normalising a map with distinct keys gives clean links under distinct keys, each key
      taken from the map. */
  lemma {:induction false} NormalizedLinksWellFormed(entries: seq<RamoEntry>)
    requires UniqueKeys(entries)
    ensures CleanLinks(NormalizeRamoRoleByFac(entries))
    ensures NoDuplicates(LinkKeys(NormalizeRamoRoleByFac(entries)))
    ensures forall k :: k in LinkKeys(NormalizeRamoRoleByFac(entries)) ==> k in EntryKeys(entries)
    decreases |entries|
  {
    if entries != [] {
      var rest := entries[1..];
      assert UniqueKeys(rest);
      NormalizedLinksWellFormed(rest);
      var tail := NormalizeRamoRoleByFac(rest);
      var ids := NormalizeEntry(entries[0].value);
      assert forall k :: k in EntryKeys(rest) ==> k in EntryKeys(entries) by {
        forall k | k in EntryKeys(rest)
          ensures k in EntryKeys(entries)
        {
          var i :| 0 <= i < |rest| && rest[i].facRoleId == k;
          assert entries[i + 1].facRoleId == k;
        }
      }
      if ids != [] {
        var head := entries[0].facRoleId;
        assert head !in EntryKeys(rest) by {
          forall i | 0 <= i < |rest|
            ensures rest[i].facRoleId != head
          {
            assert rest[i] == entries[i + 1];
          }
        }
        var links := NormalizeRamoRoleByFac(entries);
        assert links == [RamoLink(head, ids)] + tail;
        assert links[1..] == tail;
        assert LinkKeys(links) == [head] + LinkKeys(tail);
        ConsKeepsDistinct(head, LinkKeys(tail));
        assert head in EntryKeys(entries);
        forall i | 0 <= i < |links|
          ensures CleanIds(links[i].roleIds)
        {
          if i > 0 {
            assert links[i] == tail[i - 1];
          }
        }
      }
    }
  }

  /** Setting one key to clean ids keeps the links clean and their keys distinct. */
  lemma {:induction false} SetLinkWellFormed(links: seq<RamoLink>, facRoleId: string, roleIds: seq<string>)
    requires CleanLinks(links) && NoDuplicates(LinkKeys(links)) && CleanIds(roleIds)
    ensures CleanLinks(SetLink(links, facRoleId, roleIds))
    ensures NoDuplicates(LinkKeys(SetLink(links, facRoleId, roleIds)))
    decreases |links|
  {
    var r := SetLink(links, facRoleId, roleIds);
    if facRoleId !in LinkKeys(links) {
      SnocKeepsDistinct(LinkKeys(links), facRoleId);
    }
    if links != [] && links[0].facRoleId != facRoleId {
      var rest := links[1..];
      assert LinkKeys(links) == [links[0].facRoleId] + LinkKeys(rest);
      assert LinkKeys(rest) == LinkKeys(links)[1..];
      TailKeepsDistinct(LinkKeys(links));
      assert CleanLinks(rest) by {
        forall i | 0 <= i < |rest|
          ensures CleanIds(rest[i].roleIds)
        {
          assert rest[i] == links[i + 1];
        }
      }
      SetLinkWellFormed(rest, facRoleId, roleIds);
      var tail := SetLink(rest, facRoleId, roleIds);
      assert r == [links[0]] + tail;
      forall i | 0 <= i < |r|
        ensures CleanIds(r[i].roleIds)
      {
        if i > 0 {
          assert r[i] == tail[i - 1];
        }
      }
    } else if links != [] {
      assert r == [RamoLink(facRoleId, roleIds)] + links[1..];
      assert LinkKeys(r) == LinkKeys(links);
      forall i | 0 <= i < |r|
        ensures CleanIds(r[i].roleIds)
      {
        if i > 0 {
          assert r[i] == links[i];
        }
      }
    }
  }

  /** Links with distinct keys are stored as a map with distinct keys. */
  lemma StoredLinksUnique(links: seq<RamoLink>)
    requires NoDuplicates(LinkKeys(links))
    ensures UniqueKeys(StoredLinks(links))
  {
    LinkKeysIndex(links);
  }

  /** Clean ids are read back unchanged. */
  lemma CleanIdsReadBack(ids: seq<string>)
    requires CleanIds(ids)
    ensures NormalizeEntry(RawList(ids)) == ids
  {
    assert forall i :: 0 <= i < |ids| ==> IsNonBlank(ids[i]) by {
      forall i | 0 <= i < |ids|
        ensures IsNonBlank(ids[i])
      {
        assert ids[i] in ids;
      }
    }
    FilterKeepsAll(ids, IsNonBlank);
    DedupOfDistinct(ids);
  }

  /** An entry with ids is normalised in front of the normalised rest. */
  lemma NormalizeKeepsEntry(entries: seq<RamoEntry>)
    requires entries != [] && NormalizeEntry(entries[0].value) != []
    ensures NormalizeRamoRoleByFac(entries)
         == [RamoLink(entries[0].facRoleId, NormalizeEntry(entries[0].value))] + NormalizeRamoRoleByFac(entries[1..])
  {
  }

  /** Clean links survive being stored and normalised again: the next read sees them as written. */
  lemma {:induction false} StoredLinksReadBack(links: seq<RamoLink>)
    requires CleanLinks(links)
    ensures NormalizeRamoRoleByFac(StoredLinks(links)) == links
    decreases |links|
  {
    if links != [] {
      var stored := StoredLinks(links);
      var rest := links[1..];
      assert stored[1..] == StoredLinks(rest);
      assert CleanLinks(rest) by {
        forall i | 0 <= i < |rest|
          ensures CleanIds(rest[i].roleIds)
        {
          assert rest[i] == links[i + 1];
        }
      }
      StoredLinksReadBack(rest);
      var head := links[0];
      assert CleanIds(head.roleIds);
      assert stored[0] == RamoEntry(head.facRoleId, RawList(head.roleIds));
      CleanIdsReadBack(head.roleIds);
      NormalizeKeepsEntry(stored);
      assert links == [head] + rest;
    }
  }

  /** `ramoRoleByFac[facRoleId] = roleIds` on the normalised map, written back. */
  function LinkedConfig(c: GuildConfig, facRoleId: string, roleIds: seq<string>): (r: GuildConfig)
    requires UniqueKeys(c.ramoRoleByFac)
    ensures UniqueKeys(r.ramoRoleByFac)
    ensures r.(ramoRoleByFac := c.ramoRoleByFac) == c
  {
    var links := NormalizeRamoRoleByFac(c.ramoRoleByFac);
    NormalizedLinksWellFormed(c.ramoRoleByFac);
    var updated := SetLink(links, facRoleId, roleIds);
    assert NoDuplicates(LinkKeys(updated)) by {
      if facRoleId !in LinkKeys(links) {
        assert forall i, j :: 0 <= i < j < |LinkKeys(links) + [facRoleId]| ==>
          (LinkKeys(links) + [facRoleId])[i] != (LinkKeys(links) + [facRoleId])[j];
      }
    }
    StoredLinksUnique(updated);
    c.(ramoRoleByFac := StoredLinks(updated))
  }

  /** After a link is saved, the approval reads exactly the chosen ramo roles for that FAC
      role, and every other FAC role keeps the ramo roles it had. */
  lemma LinkedConfigReadBack(c: GuildConfig, facRoleId: string, values: seq<string>, other: string)
    requires UniqueKeys(c.ramoRoleByFac)
    requires Dedup(values) != [] && forall v :: v in values ==> IsNonBlank(v)
    requires other != facRoleId
    ensures var after := LinkedConfig(c, facRoleId, Dedup(values));
      LinkedRoles(NormalizeRamoRoleByFac(after.ramoRoleByFac), facRoleId) == Dedup(values)
      && ResolveRamoRolesForFac(after, facRoleId) == Dedup(values)
      && LinkedRoles(NormalizeRamoRoleByFac(after.ramoRoleByFac), other) == LinkedRoles(NormalizeRamoRoleByFac(c.ramoRoleByFac), other)
  {
    var ids := Dedup(values);
    var links := NormalizeRamoRoleByFac(c.ramoRoleByFac);
    NormalizedLinksWellFormed(c.ramoRoleByFac);
    SetLinkWellFormed(links, facRoleId, ids);
    StoredLinksReadBack(SetLink(links, facRoleId, ids));
  }

  /** The ramo link selector (`link-ramo/set/:facRoleId`): an empty selection is refused before
      reading; a FAC role outside `facRoleIds` is refused after the read; otherwise the link is
      saved. */
  method LinkRamo(configs: ConfigStore, a: Actor, facRoleId: string, values: seq<string>, saveFault: Option<Thrown>)
    returns (o: PanelOutcome)
    requires configs.Valid()
    modifies configs
    ensures configs.Valid()
    ensures !MayConfigure(a) ==> o == Refusal(a) && configs.docs == old(configs.docs)
    ensures MayConfigure(a) && Dedup(values) == [] ==> o == EmptySelection && configs.docs == old(configs.docs)
    ensures MayConfigure(a) && Dedup(values) != [] ==>
      var g := a.guildId.value;
      var read := AfterGet(old(configs.docs), g);
      (facRoleId !in read[g].facRoleIds ==> o == InvalidFac && configs.docs == read)
      && (facRoleId in read[g].facRoleIds ==>
            SettledBySave(o, configs.docs, read, g, LinkedConfig(read[g], facRoleId, Dedup(values)), saveFault))
  {
    if !MayConfigure(a) {
      return Refusal(a);
    }
    var roleIds := Dedup(values);
    if roleIds == [] {
      return EmptySelection;
    }
    var c := configs.Get(a.guildId.value);
    if facRoleId !in c.facRoleIds {
      return InvalidFac;
    }
    var error := configs.Save(LinkedConfig(c, facRoleId, roleIds), saveFault);
    o := if error.Some? then Rejected(error.value) else Done;
  }

  /** The FAC chooser of the ramo editor (`link-ramo/select-fac`): only a configured FAC role
      moves on to the ramo role picker. */
  method SelectRamoFac(configs: ConfigStore, a: Actor, facRoleId: string) returns (o: PanelOutcome)
    requires configs.Valid()
    modifies configs
    ensures configs.Valid()
    ensures !MayConfigure(a) ==> o == Refusal(a) && configs.docs == old(configs.docs)
    ensures MayConfigure(a) ==>
      configs.docs == AfterGet(old(configs.docs), a.guildId.value)
      && (o == Done <==> facRoleId in configs.docs[a.guildId.value].facRoleIds)
      && (o != Done ==> o == InvalidFac)
  {
    if !MayConfigure(a) {
      return Refusal(a);
    }
    var c := configs.Get(a.guildId.value);
    o := if facRoleId in c.facRoleIds then Done else InvalidFac;
  }

  /** The "link ramo" button: the FAC chooser over the configured roles that exist, or a
      warning when none does. */
  method OpenRamoLinker(configs: ConfigStore, a: Actor, guildRoles: set<string>) returns (o: PanelOutcome, picker: Option<seq<string>>)
    requires configs.Valid()
    modifies configs
    ensures configs.Valid()
    ensures !MayConfigure(a) ==> o == Refusal(a) && picker.None? && configs.docs == old(configs.docs)
    ensures MayConfigure(a) ==>
      configs.docs == AfterGet(old(configs.docs), a.guildId.value)
      && picker == RamoFacPicker(configs.docs[a.guildId.value].facRoleIds, guildRoles)
      && (o == Done <==> picker.Some?) && (o != Done ==> o == InvalidFac)
  {
    if !MayConfigure(a) {
      return Refusal(a), None;
    }
    var c := configs.Get(a.guildId.value);
    picker := RamoFacPicker(c.facRoleIds, guildRoles);
    o := if picker.Some? then Done else InvalidFac;
  }

  // ---------------------------------------------------------------- channel and role setters

  /** The channel a panel channel key names. */
  function ChannelField(c: GuildConfig, key: string): Option<string>
    requires IsFacPanelChannelKey(key)
  {
    if key == "panelChannelId" then c.panelChannelId
    else if key == "analiseChannelId" then c.analiseChannelId
    else c.logChannelId
  }

  /** `config.set(key, channelId)`: that channel field takes the selection (a missing
      selection unsets it); nothing else changes. */
  function SetChannelField(c: GuildConfig, key: string, channelId: Option<string>): (r: GuildConfig)
    requires IsFacPanelChannelKey(key)
    ensures ChannelField(r, key) == channelId
    ensures forall k :: IsFacPanelChannelKey(k) && k != key ==> ChannelField(r, k) == ChannelField(c, k)
    ensures r.(panelChannelId := c.panelChannelId, analiseChannelId := c.analiseChannelId, logChannelId := c.logChannelId) == c
  {
    if key == "panelChannelId" then c.(panelChannelId := channelId)
    else if key == "analiseChannelId" then c.(analiseChannelId := channelId)
    else c.(logChannelId := channelId)
  }

  /** The channel selector (`channel/:key`): an unknown key is refused before reading. */
  method SetChannel(configs: ConfigStore, a: Actor, key: string, channelId: Option<string>, saveFault: Option<Thrown>)
    returns (o: PanelOutcome)
    requires configs.Valid()
    modifies configs
    ensures configs.Valid()
    ensures !MayConfigure(a) ==> o == Refusal(a) && configs.docs == old(configs.docs)
    ensures MayConfigure(a) && !IsFacPanelChannelKey(key) ==> o == InvalidKey && configs.docs == old(configs.docs)
    ensures MayConfigure(a) && IsFacPanelChannelKey(key) ==>
      var g := a.guildId.value;
      var read := AfterGet(old(configs.docs), g);
      SettledBySave(o, configs.docs, read, g, SetChannelField(read[g], key, channelId), saveFault)
  {
    if !MayConfigure(a) {
      return Refusal(a);
    }
    if !IsFacPanelChannelKey(key) {
      return InvalidKey;
    }
    var c := configs.Get(a.guildId.value);
    var error := configs.Save(SetChannelField(c, key, channelId), saveFault);
    o := if error.Some? then Rejected(error.value) else Done;
  }

  /** The role keys that hold lists. */
  predicate IsRoleListKey(key: string) {
    key == "ramoRoleIds" || key == "staffRoleIds" || key == "facRoleIds"
  }

  /** The list a list-valued role key names. */
  function RoleList(c: GuildConfig, key: string): seq<string>
    requires IsRoleListKey(key)
  {
    if key == "ramoRoleIds" then c.ramoRoleIds
    else if key == "staffRoleIds" then c.staffRoleIds
    else c.facRoleIds
  }

  /** `config.set(key, roleIds)` for a list key: that list takes the selection; nothing else changes. */
  function SetRoleList(c: GuildConfig, key: string, roleIds: seq<string>): (r: GuildConfig)
    requires IsRoleListKey(key)
    ensures RoleList(r, key) == roleIds
    ensures forall k :: IsRoleListKey(k) && k != key ==> RoleList(r, k) == RoleList(c, k)
    ensures r.(ramoRoleIds := c.ramoRoleIds, staffRoleIds := c.staffRoleIds, facRoleIds := c.facRoleIds) == c
  {
    if key == "ramoRoleIds" then c.(ramoRoleIds := roleIds)
    else if key == "staffRoleIds" then c.(staffRoleIds := roleIds)
    else c.(facRoleIds := roleIds)
  }

  /** The role selector (`role/:key`): an unknown key is refused before reading; a list key
      stores the selection without repeats (possibly empty); `verificadoRoleId` stores the
      first selected role and refuses an empty selection. */
  method SetRole(configs: ConfigStore, a: Actor, key: string, values: seq<string>, saveFault: Option<Thrown>)
    returns (o: PanelOutcome)
    requires configs.Valid()
    modifies configs
    ensures configs.Valid()
    ensures !MayConfigure(a) ==> o == Refusal(a) && configs.docs == old(configs.docs)
    ensures MayConfigure(a) && !IsFacPanelRoleKey(key) ==> o == InvalidKey && configs.docs == old(configs.docs)
    ensures MayConfigure(a) && IsFacPanelRoleKey(key) ==>
      var g := a.guildId.value;
      var read := AfterGet(old(configs.docs), g);
      (IsRoleListKey(key) ==> SettledBySave(o, configs.docs, read, g, SetRoleList(read[g], key, Dedup(values)), saveFault))
      && (!IsRoleListKey(key) && Dedup(values) == [] ==> o == EmptySelection && configs.docs == read)
      && (!IsRoleListKey(key) && Dedup(values) != [] ==>
            SettledBySave(o, configs.docs, read, g, read[g].(verificadoRoleId := Some(Dedup(values)[0])), saveFault))
  {
    if !MayConfigure(a) {
      return Refusal(a);
    }
    if !IsFacPanelRoleKey(key) {
      return InvalidKey;
    }
    var c := configs.Get(a.guildId.value);
    var roleIds := Dedup(values);
    if IsRoleListKey(key) {
      var error := configs.Save(SetRoleList(c, key, roleIds), saveFault);
      return if error.Some? then Rejected(error.value) else Done;
    }
    if roleIds == [] {
      return EmptySelection;
    }
    var error := configs.Save(c.(verificadoRoleId := Some(roleIds[0])), saveFault);
    o := if error.Some? then Rejected(error.value) else Done;
  }

  /** The single-role key of the role selector is the Verificado role. */
  lemma RoleKeysSplit(key: string)
    ensures IsFacPanelRoleKey(key) <==> IsRoleListKey(key) || key == "verificadoRoleId"
  {
  }

  /** A list key stores each selected role once, in the order first selected. */
  lemma RoleListStoresSelection(c: GuildConfig, key: string, values: seq<string>)
    requires IsRoleListKey(key)
    ensures var stored := RoleList(SetRoleList(c, key, Dedup(values)), key);
      NoDuplicates(stored) && (forall id :: id in stored <==> id in values)
  {
  }

  // ---------------------------------------------------------------- reset

  /** The reset's `updateOne`: the four FAC lists emptied, the six FAC panel, channel and
      role fields unset. */
  function ResetFac(c: GuildConfig): (r: GuildConfig)
    ensures r.facRoleIds == [] && r.staffRoleIds == [] && r.ramoRoleIds == [] && r.ramoRoleByFac == []
    ensures r.panelChannelId.None? && r.panelMessageId.None? && r.analiseChannelId.None?
    ensures r.logChannelId.None? && r.verificadoRoleId.None? && r.ramoRoleId.None?
    ensures r.guildId == c.guildId
    ensures r.facLiteAnaliseChannelId == c.facLiteAnaliseChannelId && r.facLiteLogChannelId == c.facLiteLogChannelId
    ensures r.facLiteStaffRoleIds == c.facLiteStaffRoleIds && r.facLiteRoleIds == c.facLiteRoleIds
  {
    c.(facRoleIds := [], staffRoleIds := [], ramoRoleIds := [], ramoRoleByFac := [],
       panelChannelId := None, panelMessageId := None, analiseChannelId := None,
       logChannelId := None, verificadoRoleId := None, ramoRoleId := None)
  }

  /** The reset button: `get` (which creates the default document when the guild had none),
      `updateOne` without upsert, then `get` again. The first `get` is folded into the second:
      resetting a default document changes nothing (`ResetOfDefaultIsDefault`), so both orders
      end in the same collection. */
  method ResetAll(configs: ConfigStore, a: Actor) returns (o: PanelOutcome)
    requires configs.Valid()
    modifies configs
    ensures configs.Valid()
    ensures !MayConfigure(a) ==> o == Refusal(a) && configs.docs == old(configs.docs)
    ensures MayConfigure(a) ==>
      var g := a.guildId.value;
      o == Done
      && (g in old(configs.docs) ==> configs.docs == old(configs.docs)[g := ResetFac(old(configs.docs)[g])])
      && (g !in old(configs.docs) ==> configs.docs == old(configs.docs)[g := DefaultConfig(g)])
  {
    if !MayConfigure(a) {
      return Refusal(a);
    }
    configs.UpdateOne(a.guildId.value, ResetFac);
    var c := configs.Get(a.guildId.value);
    return Done;
  }

  /** A fresh default document has nothing to reset. */
  lemma ResetOfDefaultIsDefault(g: string)
    ensures ResetFac(DefaultConfig(g)) == DefaultConfig(g)
  {
  }

  /** After a reset every FAC setting is reported missing, so the FAC flow refuses until it
      is configured again; the FAC Lite settings are kept. */
  lemma ResetLeavesFacUnconfigured(c: GuildConfig)
    ensures forall k :: IsMissingFacSetting(ResetFac(c), k) && k in GetMissingFacConfig(ResetFac(c))
  {
    var r := ResetFac(c);
    assert DefaultRamoRoles(r) == [];
    assert NormalizeRamoRoleByFac(r.ramoRoleByFac) == [];
    assert RamoMissing(r);
  }

  // ---------------------------------------------------------------- publication

  /** Where the public FAC panel message ended up. */
  datatype Publication = Publication(channelId: string, messageId: string, reused: bool)

  /** The publish button in a text channel: the stored panel message is edited when it lives
      in this channel and can still be fetched; otherwise `sentMessageId` is the new message
      posted here. The location is always recorded. */
  function Publish(c: GuildConfig, channelId: string, storedMessageFound: bool, sentMessageId: string): (p: Publication)
    ensures p.channelId == channelId
    ensures p.reused <==> Present(c.panelMessageId) && c.panelChannelId == Some(channelId) && storedMessageFound
    ensures p.reused ==> p.messageId == c.panelMessageId.value
    ensures !p.reused ==> p.messageId == sentMessageId
  {
    if Present(c.panelMessageId) && c.panelChannelId == Some(channelId) && storedMessageFound
    then Publication(channelId, c.panelMessageId.value, true)
    else Publication(channelId, sentMessageId, false)
  }

  function Recorded(c: GuildConfig, p: Publication): GuildConfig {
    c.(panelChannelId := Some(p.channelId), panelMessageId := Some(p.messageId))
  }

  /** The publish button: refused in a channel that cannot hold text; otherwise the panel is
      edited or posted and its location saved. `sendFault` is the error of a rejected post
      (a failed edit is caught); it propagates before anything is saved. */
  method PublishPanel(configs: ConfigStore, a: Actor, channelId: Option<string>, storedMessageFound: bool,
                      sentMessageId: string, sendFault: Option<Thrown>, saveFault: Option<Thrown>)
    returns (o: PanelOutcome, p: Option<Publication>)
    requires configs.Valid()
    modifies configs
    ensures configs.Valid()
    ensures !MayConfigure(a) ==> o == Refusal(a) && p.None? && configs.docs == old(configs.docs)
    ensures MayConfigure(a) && channelId.None? ==> o == InvalidKey && p.None? && configs.docs == old(configs.docs)
    ensures MayConfigure(a) && channelId.Some? ==>
      var g := a.guildId.value;
      var read := AfterGet(old(configs.docs), g);
      var pub := Publish(read[g], channelId.value, storedMessageFound, sentMessageId);
      (!pub.reused && sendFault.Some? ==> o == Rejected(sendFault.value) && p.None? && configs.docs == read)
      && (pub.reused || sendFault.None? ==>
            p == Some(pub) && SettledBySave(o, configs.docs, read, g, Recorded(read[g], pub), saveFault))
  {
    if !MayConfigure(a) {
      return Refusal(a), None;
    }
    if channelId.None? {
      return InvalidKey, None;
    }
    var c := configs.Get(a.guildId.value);
    var publication := Publish(c, channelId.value, storedMessageFound, sentMessageId);
    if !publication.reused && sendFault.Some? {
      return Rejected(sendFault.value), None;
    }
    var error := configs.Save(Recorded(c, publication), saveFault);
    o := if error.Some? then Rejected(error.value) else Done;
    p := Some(publication);
  }

  /** Publishing again in the same channel, while the message is still there, edits the
      message the first publication left instead of posting a second one. */
  lemma RepublishReusesMessage(c: GuildConfig, channelId: string, found1: bool, sent1: string, sent2: string)
    requires sent1 != ""
    ensures var first := Publish(c, channelId, found1, sent1);
      var second := Publish(Recorded(c, first), channelId, true, sent2);
      second.reused && second.messageId == first.messageId
  {
  }

  /** Publishing in another channel never reuses the stored message. */
  lemma PublishElsewherePosts(c: GuildConfig, channelId: string, found: bool, sent: string)
    requires c.panelChannelId != Some(channelId)
    ensures !Publish(c, channelId, found, sent).reused && Publish(c, channelId, found, sent).messageId == sent
  {
  }
}

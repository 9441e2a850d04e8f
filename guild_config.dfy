/** The per-guild configuration document and the collection holding it. Optional
    channel and single-role fields may be absent; every role list defaults to empty;
    `ramoRoleByFac` maps a FAC role to its branch ("ramo") roles. */
module GuildConfigs {
  import opened Wrappers
  import opened Faults

  /** A stored `ramoRoleByFac` value. The schema declares lists of strings; a bare string
      (older data) and any other value are tolerated by the readers. */
  datatype RamoValue = RawList(ids: seq<string>) | RawText(text: string) | RawOther

  /** One entry of the `ramoRoleByFac` map, which keeps insertion order. */
  datatype RamoEntry = RamoEntry(facRoleId: string, value: RamoValue)

  /** Map keys are distinct. */
  predicate UniqueKeys(entries: seq<RamoEntry>) {
    forall i, j :: 0 <= i < j < |entries| ==> entries[i].facRoleId != entries[j].facRoleId
  }

  datatype GuildConfig = GuildConfig(
    guildId: string,
    panelChannelId: Option<string>,
    panelMessageId: Option<string>,
    analiseChannelId: Option<string>,
    logChannelId: Option<string>,
    facRoleIds: seq<string>,
    verificadoRoleId: Option<string>,
    ramoRoleIds: seq<string>,
    ramoRoleId: Option<string>,
    ramoRoleByFac: seq<RamoEntry>,
    staffRoleIds: seq<string>,
    facLiteAnaliseChannelId: Option<string>,
    facLiteLogChannelId: Option<string>,
    facLiteStaffRoleIds: seq<string>,
    facLiteRoleIds: seq<string>)

  /** JavaScript truthiness of an optional string field: present and not empty. */
  predicate Present(field: Option<string>) {
    field.Some? && field.value != ""
  }

  /** The document `get` inserts for a new guild: the id, empty lists, an empty map, nothing else. */
  function DefaultConfig(guildId: string): (c: GuildConfig)
    ensures c.guildId == guildId
    ensures c.facRoleIds == [] && c.ramoRoleIds == [] && c.staffRoleIds == []
    ensures c.facLiteStaffRoleIds == [] && c.facLiteRoleIds == [] && c.ramoRoleByFac == []
    ensures c.panelChannelId.None? && c.panelMessageId.None? && c.analiseChannelId.None? && c.logChannelId.None?
    ensures c.verificadoRoleId.None? && c.ramoRoleId.None?
    ensures c.facLiteAnaliseChannelId.None? && c.facLiteLogChannelId.None?
  {
    GuildConfig(guildId, None, None, None, None, [], None, [], None, [], [], None, None, [], [])
  }

  /** A collection indexed by the unique `guildId`. */
  predicate KeyedByGuild(docs: map<string, GuildConfig>) {
    forall g :: g in docs ==> docs[g].guildId == g && UniqueKeys(docs[g].ramoRoleByFac)
  }

  /** The collection after `get(guildId)`: unchanged when the guild has a document, else with the default one added. */
  function AfterGet(docs: map<string, GuildConfig>, guildId: string): (d: map<string, GuildConfig>)
    ensures guildId in d
    ensures guildId in docs ==> d == docs
    ensures guildId !in docs ==> d == docs[guildId := DefaultConfig(guildId)]
    ensures KeyedByGuild(docs) ==> KeyedByGuild(d)
  {
    if guildId in docs then docs else docs[guildId := DefaultConfig(guildId)]
  }

  /** `get` is idempotent: a second call finds the document the first left and creates nothing. */
  lemma GetIdempotent(docs: map<string, GuildConfig>, guildId: string)
    ensures AfterGet(AfterGet(docs, guildId), guildId) == AfterGet(docs, guildId)
    ensures AfterGet(docs, guildId).Keys == docs.Keys + {guildId}
  {
  }

  /** The `guild_config` collection. */
  class ConfigStore {
    var docs: map<string, GuildConfig>

    predicate Valid()
      reads this
    {
      KeyedByGuild(docs)
    }

    constructor()
      ensures Valid() && docs == map[]
    {
      docs := map[];
    }

    /** `GuildConfig.get`: find by `guildId`, inserting `{guildId}` plus defaults when absent. */
    method Get(guildId: string) returns (c: GuildConfig)
      requires Valid()
      modifies this
      ensures Valid()
      ensures docs == AfterGet(old(docs), guildId) && c == docs[guildId]
      ensures guildId in old(docs) ==> c == old(docs)[guildId]
      ensures guildId !in old(docs) ==> c == DefaultConfig(guildId)
    {
      if guildId !in docs {
        docs := docs[guildId := DefaultConfig(guildId)];
      }
      c := docs[guildId];
    }

    /** `doc.save()` of a document read by `get`, carrying its changes. The store's answer is
        an input: `fault` is the error a rejected save throws, and then nothing is written. */
    method Save(c: GuildConfig, fault: Option<Thrown>) returns (error: Option<Thrown>)
      requires Valid() && UniqueKeys(c.ramoRoleByFac)
      modifies this
      ensures Valid()
      ensures error == fault
      ensures fault.None? ==> docs == old(docs)[c.guildId := c]
      ensures fault.Some? ==> docs == old(docs)
    {
      if fault.None? {
        docs := docs[c.guildId := c];
      }
      error := fault;
    }

    /** `updateOne({guildId}, update)` without upsert: a guild with no document is left without one. */
    method UpdateOne(guildId: string, update: GuildConfig -> GuildConfig)
      requires Valid()
      requires forall c: GuildConfig :: update(c).guildId == c.guildId
      requires forall c: GuildConfig :: UniqueKeys(c.ramoRoleByFac) ==> UniqueKeys(update(c).ramoRoleByFac)
      modifies this
      ensures Valid()
      ensures guildId in old(docs) ==> docs == old(docs)[guildId := update(old(docs)[guildId])]
      ensures guildId !in old(docs) ==> docs == old(docs)
    {
      if guildId in docs {
        docs := docs[guildId := update(docs[guildId])];
      }
    }
  }
}

/** The FAC settings helpers: text clamping, the panel's key lists, the role-id chat
    parser, the normalisation of the FAC -> ramo links and of the default ramo roles,
    the settings panel's paging and text budget, and the FAC picker used to link ramo roles. */
module Settings {
  import opened Wrappers
  import opened Lists
  import opened Text
  import opened Paging
  import opened GuildConfigs

  const PanelTextBudget := 2600
  const ComponentTextMax := 1000
  const LabelMax := 100
  const DescriptionMax := 100
  const PlaceholderMax := 150

  // ---------------------------------------------------------------- clampText

  /** `clampText`: empty stays empty, text within `max` is kept, longer text is cut to
      `max - 3` characters (never fewer than zero) followed by an ellipsis. */
  function ClampText(text: string, max: int): (r: string)
    ensures text == [] ==> r == []
    ensures |text| <= max ==> r == text
    ensures text != [] && |text| > max && max >= 3 ==>
      |r| == max && r[..max - 3] == text[..max - 3] && r[max - 3..] == "..."
    ensures text != [] && |text| > max && max < 3 ==> r == "..."
    ensures max >= 3 ==> |r| <= max && |r| <= |text|
  {
    if text == [] then []
    else if |text| > max then text[..Max(0, max - 3)] + "..."
    else text
  }

  // ---------------------------------------------------------------- panel keys

  const ChannelKeys: seq<string> := ["panelChannelId", "analiseChannelId", "logChannelId"]
  const RoleKeys: seq<string> := ["verificadoRoleId", "ramoRoleIds", "staffRoleIds", "facRoleIds"]

  predicate IsFacPanelChannelKey(key: string) {
    key in ChannelKeys
  }

  predicate IsFacPanelRoleKey(key: string) {
    key in RoleKeys
  }

  // ---------------------------------------------------------------- role-id parser

  /** The characters `/[\s,\n\r\t;]+/` splits on. */
  predicate IsSeparator(c: char) {
    IsSpace(c) || c == ',' || c == ';'
  }

  /** The mention decorations `/[<@&>#]/g` removes. */
  predicate IsDecoration(c: char) {
    c == '<' || c == '@' || c == '&' || c == '>' || c == '#'
  }

  predicate NoSeparator(t: string) {
    forall k :: 0 <= k < |t| ==> !IsSeparator(t[k])
  }

  predicate NoDecoration(t: string) {
    forall k :: 0 <= k < |t| ==> !IsDecoration(t[k])
  }

  /** A token as the parser can return it: non-empty, without separators or decorations. */
  predicate IsCleanToken(t: string) {
    t != [] && NoSeparator(t) && NoDecoration(t)
  }

  /** Drops leading separators. */
  function SkipSeparators(s: string): (r: string)
    ensures |r| <= |s| && r == s[|s| - |r|..]
    ensures r == [] || !IsSeparator(r[0])
  {
    if s != [] && IsSeparator(s[0]) then SkipSeparators(s[1..]) else s
  }

  /** The leading run of non-separators. */
  function Word(s: string): (w: string)
    ensures |w| <= |s| && w == s[..|w|]
    ensures NoSeparator(w)
    ensures s != [] && !IsSeparator(s[0]) ==> w != []
  {
    if s == [] || IsSeparator(s[0]) then [] else [s[0]] + Word(s[1..])
  }

  /** The non-empty pieces of `raw.split(/[\s,\n\r\t;]+/g)`: maximal runs of non-separators. */
  function Pieces(s: string): seq<string>
    decreases |s|
  {
    var rest := SkipSeparators(s);
    if rest == [] then []
    else
      var w := Word(rest);
      assert w != [];
      [w] + Pieces(rest[|w|..])
  }

  /** No piece holds a separator. */
  lemma {:induction false} PiecesHaveNoSeparator(s: string)
    ensures forall i :: 0 <= i < |Pieces(s)| ==> NoSeparator(Pieces(s)[i])
    decreases |s|
  {
    var rest := SkipSeparators(s);
    if rest != [] {
      var w := Word(rest);
      PiecesHaveNoSeparator(rest[|w|..]);
      var tail := Pieces(rest[|w|..]);
      var r := Pieces(s);
      assert r == [w] + tail;
      forall i | 0 <= i < |r|
        ensures NoSeparator(r[i])
      {
        if i == 0 {
          assert r[i] == w;
        } else {
          assert r[i] == tail[i - 1];
        }
      }
    }
  }

  /** `part.trim().replace(/[<@&>#]/g, "")`. */
  function CleanPiece(piece: string): (t: string)
    ensures NoDecoration(t)
    ensures NoSeparator(piece) ==> NoSeparator(t)
  {
    var trimmed := Trim(piece);
    var t := Filter(trimmed, (c: char) => !IsDecoration(c));
    assert forall k :: 0 <= k < |t| ==> t[k] in trimmed;
    t
  }

  function CleanPieces(pieces: seq<string>): (r: seq<string>)
    ensures |r| == |pieces| && forall i :: 0 <= i < |pieces| ==> r[i] == CleanPiece(pieces[i])
  {
    seq(|pieces|, i requires 0 <= i < |pieces| => CleanPiece(pieces[i]))
  }

  predicate IsNonEmpty(t: string) {
    t != []
  }

  /** The tokens of the chat input after splitting, cleaning and `.filter(Boolean)`. */
  function Tokens(raw: string): (r: seq<string>)
    ensures forall t :: t in r ==> IsCleanToken(t)
  {
    var pieces := Pieces(raw);
    PiecesHaveNoSeparator(raw);
    var cleaned := CleanPieces(pieces);
    assert forall i :: 0 <= i < |cleaned| ==> NoSeparator(cleaned[i]) && NoDecoration(cleaned[i]);
    Filter(cleaned, IsNonEmpty)
  }

  /** `/^\d{17,20}$/`: a Discord snowflake. */
  predicate IsRoleId(t: string) {
    17 <= |t| <= 20 && AllDigits(t)
  }

  predicate IsNotRoleId(t: string) {
    !IsRoleId(t)
  }

  /** The two lists `parseRoleIdsInput` returns, as functions of the input. */
  function ParsedRoleIds(raw: string): seq<string> {
    Dedup(Filter(Tokens(raw), IsRoleId))
  }

  function ParsedInvalid(raw: string): seq<string> {
    Dedup(Filter(Tokens(raw), IsNotRoleId))
  }

  /** `parseRoleIdsInput`: the tokens sorted into valid and invalid, both then deduplicated. */
  method ParseRoleIdsInput(raw: string) returns (roleIds: seq<string>, invalid: seq<string>)
    ensures roleIds == ParsedRoleIds(raw) && invalid == ParsedInvalid(raw)
  {
    var valid, rejected := SortTokens(Tokens(raw));
    roleIds := Dedup(valid);
    invalid := Dedup(rejected);
  }

  /** The loop of `parseRoleIdsInput`: each token is pushed onto the valid list when it is a
      snowflake and onto the invalid list otherwise, keeping token order in both. */
  method SortTokens(tokens: seq<string>) returns (valid: seq<string>, rejected: seq<string>)
    ensures valid == Filter(tokens, IsRoleId) && rejected == Filter(tokens, IsNotRoleId)
  {
    valid := [];
    rejected := [];
    for i := 0 to |tokens|
      invariant valid == Filter(tokens[..i], IsRoleId)
      invariant rejected == Filter(tokens[..i], IsNotRoleId)
    {
      assert tokens[..i + 1] == tokens[..i] + [tokens[i]];
      FilterAppend(tokens[..i], tokens[i], IsRoleId);
      FilterAppend(tokens[..i], tokens[i], IsNotRoleId);
      if IsRoleId(tokens[i]) {
        valid := valid + [tokens[i]];
      } else {
        rejected := rejected + [tokens[i]];
      }
    }
    assert tokens[..|tokens|] == tokens;
  }

  /** The parsed lists keep the order in which each token first appears in the message. */
  lemma ParsedRoleIdsKeepFirstSeenOrder(raw: string, i: nat, j: nat)
    requires i < j < |ParsedRoleIds(raw)|
    ensures FirstIndex(Filter(Tokens(raw), IsRoleId), ParsedRoleIds(raw)[i])
          < FirstIndex(Filter(Tokens(raw), IsRoleId), ParsedRoleIds(raw)[j])
  {
    DedupKeepsFirstSeenOrder(Filter(Tokens(raw), IsRoleId), i, j);
  }

  /** The ignored tokens come out in the order they were first typed. */
  lemma ParsedInvalidKeepFirstSeenOrder(raw: string, i: nat, j: nat)
    requires i < j < |ParsedInvalid(raw)|
    ensures FirstIndex(Filter(Tokens(raw), IsNotRoleId), ParsedInvalid(raw)[i])
          < FirstIndex(Filter(Tokens(raw), IsNotRoleId), ParsedInvalid(raw)[j])
  {
    DedupKeepsFirstSeenOrder(Filter(Tokens(raw), IsNotRoleId), i, j);
  }

  /** Every returned id is a 17-20 digit snowflake and every other token is reported as
      invalid; the two lists are disjoint, free of repeats and of mention decorations. */
  lemma ParsedListsPartitionTokens(raw: string)
    ensures forall id :: id in ParsedRoleIds(raw) ==> IsRoleId(id) && IsCleanToken(id)
    ensures forall t :: t in ParsedInvalid(raw) ==> !IsRoleId(t) && IsCleanToken(t)
    ensures forall t :: t in Tokens(raw) ==> (t in ParsedRoleIds(raw) <==> IsRoleId(t)) && (t in ParsedInvalid(raw) <==> !IsRoleId(t))
    ensures NoDuplicates(ParsedRoleIds(raw)) && NoDuplicates(ParsedInvalid(raw))
  {
  }

  // ---------------------------------------------------------------- ramo links

  /** One normalised link: a FAC role and its non-empty list of ramo roles. */
  datatype RamoLink = RamoLink(facRoleId: string, roleIds: seq<string>)

  /** `normalizeEntry`: a list keeps its distinct non-blank ids (untrimmed), a non-blank
      string becomes the one trimmed id, anything else gives nothing. */
  function NormalizeEntry(v: RamoValue): (ids: seq<string>)
    ensures NoDuplicates(ids)
    ensures forall id :: id in ids ==> IsNonBlank(id)
    ensures v.RawList? ==> forall id :: id in ids <==> id in v.ids && IsNonBlank(id)
    ensures v.RawText? ==> ids == (if IsBlank(v.text) then [] else [Trim(v.text)])
    ensures v.RawOther? ==> ids == []
  {
    match v
    case RawList(xs) => Dedup(Filter(xs, IsNonBlank))
    case RawText(t) =>
      if IsBlank(t) then []
      else
        TrimNonBlank(t);
        [Trim(t)]
    case RawOther => []
  }

  /** `ramoByFac[facRoleId] ?? []`. */
  function LinkedRoles(links: seq<RamoLink>, facRoleId: string): seq<string> {
    if links == [] then []
    else if links[0].facRoleId == facRoleId then links[0].roleIds
    else LinkedRoles(links[1..], facRoleId)
  }

  /** The stored value under a key, if any. */
  function RawLookup(entries: seq<RamoEntry>, facRoleId: string): Option<RamoValue> {
    if entries == [] then None
    else if entries[0].facRoleId == facRoleId then Some(entries[0].value)
    else RawLookup(entries[1..], facRoleId)
  }

  function LinkKeys(links: seq<RamoLink>): seq<string> {
    if links == [] then [] else [links[0].facRoleId] + LinkKeys(links[1..])
  }

  /** `normalizeRamoRoleByFac` / `getRamoRoleByFacMap`: every entry normalised, in map order,
      entries left with no id dropped. */
  function NormalizeRamoRoleByFac(entries: seq<RamoEntry>): (links: seq<RamoLink>)
    ensures |links| <= |entries|
    ensures forall i :: 0 <= i < |links| ==> links[i].roleIds != []
  {
    if entries == [] then []
    else
      var ids := NormalizeEntry(entries[0].value);
      var rest := NormalizeRamoRoleByFac(entries[1..]);
      if ids != [] then [RamoLink(entries[0].facRoleId, ids)] + rest else rest
  }

  /** Looking a FAC role up in the normalised links gives the normalised stored value,
      or nothing when the role has no entry. */
  lemma {:induction false} NormalizedLookup(entries: seq<RamoEntry>, facRoleId: string)
    requires UniqueKeys(entries)
    ensures LinkedRoles(NormalizeRamoRoleByFac(entries), facRoleId)
         == match RawLookup(entries, facRoleId) case Some(v) => NormalizeEntry(v) case None => []
  {
    if entries != [] {
      var rest := entries[1..];
      assert UniqueKeys(rest);
      NormalizedLookup(rest, facRoleId);
      if entries[0].facRoleId != facRoleId {
        var ids := NormalizeEntry(entries[0].value);
        if ids != [] {
          assert NormalizeRamoRoleByFac(entries)[1..] == NormalizeRamoRoleByFac(rest);
        }
      } else {
        var ids := NormalizeEntry(entries[0].value);
        if ids == [] {
          NoLinkWithoutEntry(rest, facRoleId);
        }
      }
    }
  }

  /** A key absent from the stored map has no normalised link. */
  lemma {:induction false} NoLinkWithoutEntry(entries: seq<RamoEntry>, facRoleId: string)
    requires forall i :: 0 <= i < |entries| ==> entries[i].facRoleId != facRoleId
    ensures LinkedRoles(NormalizeRamoRoleByFac(entries), facRoleId) == []
  {
    if entries != [] {
      NoLinkWithoutEntry(entries[1..], facRoleId);
    }
  }

  /** `current[facRoleId] = roleIds` on the normalised links: an existing key keeps its
      place, a new key goes last. */
  function SetLink(links: seq<RamoLink>, facRoleId: string, roleIds: seq<string>): (r: seq<RamoLink>)
    ensures LinkedRoles(r, facRoleId) == roleIds
    ensures forall other :: other != facRoleId ==> LinkedRoles(r, other) == LinkedRoles(links, other)
    ensures LinkKeys(r) == (if facRoleId in LinkKeys(links) then LinkKeys(links) else LinkKeys(links) + [facRoleId])
  {
    if links == [] then [RamoLink(facRoleId, roleIds)]
    else if links[0].facRoleId == facRoleId then
      var r := [RamoLink(facRoleId, roleIds)] + links[1..];
      assert r[1..] == links[1..];
      r
    else
      var rest := SetLink(links[1..], facRoleId, roleIds);
      var r := [links[0]] + rest;
      assert r[1..] == rest;
      assert LinkKeys(r) == [links[0].facRoleId] + LinkKeys(rest);
      assert LinkKeys(links) == [links[0].facRoleId] + LinkKeys(links[1..]);
      r
  }

  /** `config.set("ramoRoleByFac", current)`: the links written back as stored lists. */
  function StoredLinks(links: seq<RamoLink>): (entries: seq<RamoEntry>)
    ensures |entries| == |links|
    ensures forall i :: 0 <= i < |links| ==> entries[i] == RamoEntry(links[i].facRoleId, RawList(links[i].roleIds))
  {
    seq(|links|, i requires 0 <= i < |links| => RamoEntry(links[i].facRoleId, RawList(links[i].roleIds)))
  }

  /** The ids `getDefaultRamoRoles` takes from `ramoRoleIds`: distinct, non-blank, untrimmed. */
  function ConfiguredRamoRoles(c: GuildConfig): seq<string> {
    Dedup(Filter(c.ramoRoleIds, IsNonBlank))
  }

  /** `getDefaultRamoRoles`: the configured list when it has an id, else the trimmed legacy
      `ramoRoleId` when that is non-blank, else nothing. */
  function DefaultRamoRoles(c: GuildConfig): (r: seq<string>)
    ensures NoDuplicates(r) && forall id :: id in r ==> IsNonBlank(id)
    ensures ConfiguredRamoRoles(c) != [] ==> r == ConfiguredRamoRoles(c)
    ensures ConfiguredRamoRoles(c) == [] && c.ramoRoleId.Some? && IsNonBlank(c.ramoRoleId.value) ==> r == [Trim(c.ramoRoleId.value)]
    ensures r == [] <==> ConfiguredRamoRoles(c) == [] && (c.ramoRoleId.None? || IsBlank(c.ramoRoleId.value))
  {
    var configured := ConfiguredRamoRoles(c);
    if configured != [] then configured
    else if c.ramoRoleId.Some? && IsNonBlank(c.ramoRoleId.value) then
      TrimNonBlank(c.ramoRoleId.value);
      [Trim(c.ramoRoleId.value)]
    else []
  }

  /** The default ramo roles are exactly the non-blank `ramoRoleIds` entries whenever there is one;
      the legacy field is then ignored. */
  lemma DefaultRamoIgnoresLegacy(c: GuildConfig, id: string)
    requires id in c.ramoRoleIds && IsNonBlank(id)
    ensures id in DefaultRamoRoles(c)
    ensures forall x :: x in DefaultRamoRoles(c) <==> x in c.ramoRoleIds && IsNonBlank(x)
  {
    assert id in Filter(c.ramoRoleIds, IsNonBlank);
    assert id in ConfiguredRamoRoles(c);
    assert DefaultRamoRoles(c) == Dedup(Filter(c.ramoRoleIds, IsNonBlank));
  }

  // ---------------------------------------------------------------- settings panel

  /** `guild.roles.cache.get(id)` filtered: the configured ids that name a role of the guild, in order. */
  function ResolveRoles(ids: seq<string>, guildRoles: set<string>): (r: seq<string>)
    ensures forall id :: id in r <==> id in ids && id in guildRoles
  {
    Filter(ids, (id: string) => id in guildRoles)
  }

  /** The paging of the FAC settings panel: FAC roles and ramo links share one page index. */
  function FacSettingsPanelPage(c: GuildConfig, page: int): (v: PanelView<string, RamoLink>)
    ensures v.totalPages == PanelTotalPages(|c.facRoleIds|, |NormalizeRamoRoleByFac(c.ramoRoleByFac)|)
    ensures v.current < v.totalPages
    ensures v.first == PageSlice(c.facRoleIds, v.current, PanelPageSize)
    ensures v.second == PageSlice(NormalizeRamoRoleByFac(c.ramoRoleByFac), v.current, PanelPageSize)
    ensures |v.first| <= PanelPageSize && |v.second| <= PanelPageSize
    ensures v.pageRow.None? <==> v.totalPages <= 1
  {
    PanelPage(c.facRoleIds, NormalizeRamoRoleByFac(c.ramoRoleByFac), page)
  }

  /** The preventive budget guard: when the three text blocks together exceed 2600 characters,
      shorten the ramo block first (to no less than 220) and, only if still over, the roles
      block (to no less than 260). The channels block is never touched. */
  method ApplyTextBudget(channelsText: string, cargosText: string, ramoText: string)
    returns (cargos: string, ramo: string)
    ensures |ramo| <= |ramoText| && |cargos| <= |cargosText|
    ensures |channelsText| + |cargosText| + |ramoText| <= PanelTextBudget ==> cargos == cargosText && ramo == ramoText
    ensures ramo == ramoText || ramo == ClampText(ramoText, Max(220, |ramoText| - (|channelsText| + |cargosText| + |ramoText| - PanelTextBudget)))
    ensures cargos != cargosText ==> |channelsText| + |cargosText| + |ramo| > PanelTextBudget
    ensures |channelsText| + |cargos| + |ramo| <= PanelTextBudget || (|ramo| <= 220 && |cargos| <= 260)
    ensures |channelsText| <= ComponentTextMax ==> |channelsText| + |cargos| + |ramo| <= PanelTextBudget
  {
    cargos := cargosText;
    ramo := ramoText;
    var displayTotal := |channelsText| + |cargos| + |ramo|;
    if displayTotal > PanelTextBudget {
      var overflow := displayTotal - PanelTextBudget;
      ramo := ClampText(ramo, Max(220, |ramo| - overflow));
      displayTotal := |channelsText| + |cargos| + |ramo|;
    }
    if displayTotal > PanelTextBudget {
      var overflow := displayTotal - PanelTextBudget;
      cargos := ClampText(cargos, Max(260, |cargos| - overflow));
    }
  }

  // ---------------------------------------------------------------- ramo FAC picker

  /** `buildFacRamoFacPicker`: the first 25 configured FAC roles that exist, or nothing when none does. */
  function RamoFacPicker(facRoleIds: seq<string>, guildRoles: set<string>): (r: Option<seq<string>>)
    ensures r.None? <==> ResolveRoles(facRoleIds, guildRoles) == []
    ensures r.Some? ==> 1 <= |r.value| <= PickerPageSize && |r.value| <= |ResolveRoles(facRoleIds, guildRoles)|
    ensures r.Some? ==> r.value == ResolveRoles(facRoleIds, guildRoles)[..|r.value|]
  {
    var roles := ResolveRoles(facRoleIds, guildRoles);
    if roles == [] then None else Some(roles[..Min(PickerPageSize, |roles|)])
  }

  /** `buildFacRamoFacPickerPage`: a guarded page of the existing FAC roles. */
  function RamoFacPickerPage(facRoleIds: seq<string>, guildRoles: set<string>, page: PageInput): (r: Option<PickerPage<string>>)
    ensures r.None? <==> ResolveRoles(facRoleIds, guildRoles) == []
    ensures r.Some? ==> r.value.currentPage.At? && 0 <= r.value.currentPage.index < r.value.totalPages
    ensures r.Some? && !page.Finite? ==> r.value.currentPage == At(0)
    ensures r.Some? ==> forall id :: id in r.value.items ==> id in facRoleIds && id in guildRoles
  {
    var roles := ResolveRoles(facRoleIds, guildRoles);
    var p := PickPage(roles, page, true);
    if p.Some? && p.value.currentPage.At? then
      assert forall id :: id in p.value.items ==> id in roles;
      p
    else p
  }
}

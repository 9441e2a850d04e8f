/** The FAC rules: cleaning and validating the request form, the nickname given on approval,
    the configuration check, who may review, which ramo roles a FAC role brings, the FAC
    role picker and the effect lines of the final log. */
module FacRules {
  import opened Wrappers
  import opened Lists
  import opened Text
  import opened Paging
  import opened GuildConfigs
  import opened Settings
  import opened RequestSchema

  /** The part of a guild member the rules look at: its id, the roles it holds and whether
      it has the Manage Guild permission. */
  datatype Member = Member(userId: string, roles: set<string>, manageGuild: bool)

  const NameErrorMessage := "Nome invalido. Evite mencoes e links."
  const GameIdErrorMessage := "ID invalido. Use apenas numeros."
  const RankErrorMessage := "Rank invalido. Use LIDER ou SUB."
  const NicknameMax := 32
  const EffectStatusMax := 120

  // ---------------------------------------------------------------- name

  /** `\d+>` matched at position `i`: one or more digits, then `>`. */
  ghost predicate DigitsThenClose(s: string, i: nat) {
    exists j :: i < j < |s| && AllDigits(s[i..j]) && s[j] == '>'
  }

  /** The length of the run of digits that starts `s`. */
  function DigitRun(s: string): (n: nat)
    ensures n <= |s| && AllDigits(s[..n])
    ensures n == |s| || !IsDigit(s[n])
  {
    if s != [] && IsDigit(s[0]) then
      var k := DigitRun(s[1..]);
      assert s[..k + 1] == [s[0]] + s[1..][..k];
      k + 1
    else 0
  }

  /** The deterministic matcher for `\d+>`: the digit run must be closed by `>`. */
  function MatchDigitsThenClose(s: string, i: nat): (b: bool)
    ensures b <==> DigitsThenClose(s, i)
  {
    if i > |s| then false
    else
      var n := DigitRun(s[i..]);
      var b := 1 <= n && i + n < |s| && s[i + n] == '>';
      assert s[i..][..n] == s[i..i + n];
      assert !b ==> !DigitsThenClose(s, i) by {
        if !b {
          forall j | i < j < |s| && AllDigits(s[i..j])
            ensures s[j] != '>'
          {

          }
        }
      }
      b
  }

  /** `<@!?&?\d+>` at `i`: a user or role mention, with the optional `!` and `&`. */
  predicate UserOrRoleMentionAt(s: string, i: nat) {
    i + 2 <= |s| && s[i] == '<' && s[i + 1] == '@' &&
    (MatchDigitsThenClose(s, i + 2)
     || (i + 3 <= |s| && (s[i + 2] == '!' || s[i + 2] == '&') && MatchDigitsThenClose(s, i + 3))
     || (i + 4 <= |s| && s[i + 2] == '!' && s[i + 3] == '&' && MatchDigitsThenClose(s, i + 4)))
  }

  /** `<#\d+>` at `i`: a channel mention. */
  predicate ChannelMentionAt(s: string, i: nat) {
    i + 2 <= |s| && s[i] == '<' && s[i + 1] == '#' && MatchDigitsThenClose(s, i + 2)
  }

  /** One alternative of `/<@!?&?\d+>|@everyone|@here|<#\d+>/i` matches at `i`. */
  predicate MentionAt(s: string, i: nat) {
    UserOrRoleMentionAt(s, i) || OccursAt(s, "@everyone", i) || OccursAt(s, "@here", i) || ChannelMentionAt(s, i)
  }

  predicate HasMention(s: string) {
    exists i: nat :: i < |s| && MentionAt(s, i)
  }

  /** `/(https?:\/\/|www\.|discord\.gg\/)/i`. */
  predicate HasLink(s: string) {
    ContainsIgnoringCase(s, "http://") || ContainsIgnoringCase(s, "https://")
    || ContainsIgnoringCase(s, "www.") || ContainsIgnoringCase(s, "discord.gg/")
  }

  /** `value.replace(/\s+/g, " ").trim()`: single plain spaces inside, none at either end. */
  function CleanName(value: string): (r: string)
    ensures OnlyPlainSpaces(r) && NoDoubleSpace(r)
    ensures r == [] || (!IsSpace(r[0]) && !IsSpace(r[|r| - 1]))
  {
    TrimKeepsSpacing(CollapseSpaces(value));
    Trim(CollapseSpaces(value))
  }

  /** `normalizeName`: the cleaned name, refused when it is empty or carries a mention or a link. */
  function NormalizeName(value: string): (r: Option<string>)
    ensures r.None? <==> CleanName(value) == [] || HasMention(CleanName(value)) || HasLink(CleanName(value))
    ensures r.Some? ==> r.value == CleanName(value)
    ensures r.Some? ==> r.value != [] && !HasMention(r.value) && !HasLink(r.value)
    ensures r.Some? ==> OnlyPlainSpaces(r.value) && NoDoubleSpace(r.value)
    ensures r.Some? ==> !IsSpace(r.value[0]) && !IsSpace(r.value[|r.value| - 1])
  {
    var cleaned := CleanName(value);
    if cleaned == [] || HasMention(cleaned) || HasLink(cleaned) then None else Some(cleaned)
  }

  /** An accepted name is accepted again unchanged: normalising is idempotent. */
  lemma NormalizeNameIdempotent(value: string)
    requires NormalizeName(value).Some?
    ensures NormalizeName(NormalizeName(value).value) == NormalizeName(value)
  {
    var n := NormalizeName(value).value;
    CollapseKeepsNormalized(n);
    TrimKeepsTrimmed(n);
  }

  /** A name made only of white space is refused. */
  lemma BlankNameRefused(value: string)
    requires forall i :: 0 <= i < |value| ==> IsSpace(value[i])
    ensures NormalizeName(value).None?
  {
    if value != [] {
      assert TrimStart(value[1..]) == [];
      assert CollapseSpaces(value) == [' '];
      assert TrimStart([' ']) == [];
    }
  }

  // ---------------------------------------------------------------- rank

  predicate IsCombiningMark(c: char) {
    '\U{300}' <= c <= '\U{36F}'
  }

  /** `value.trim().toUpperCase()` with the combining marks U+0300..U+036F removed. */
  function CanonicalRank(value: string): string {
    Filter(Upper(Trim(value)), (c: char) => !IsCombiningMark(c))
  }

  function RankLabel(rank: Rank): (s: string)
    ensures s == (if rank == Lider then "LIDER" else "SUB")
  {
    match rank
    case Lider => "LIDER"
    case Sub => "SUB"
  }

  /** `normalizeRank`: the rank whose label the canonical text spells, or nothing. */
  function NormalizeRank(value: string): (r: Option<Rank>)
    ensures r.Some? <==> CanonicalRank(value) == "LIDER" || CanonicalRank(value) == "SUB"
    ensures r.Some? ==> RankLabel(r.value) == CanonicalRank(value)
  {
    var cleaned := CanonicalRank(value);
    if cleaned == "LIDER" then Some(Lider)
    else if cleaned == "SUB" then Some(Sub)
    else None
  }

  lemma LowerKeepsSpace(c: char)
    ensures IsSpace(LowerChar(c)) == IsSpace(c)
  {
  }

  lemma {:induction false} TrimStartOfLower(s: string)
    ensures TrimStart(Lower(s)) == Lower(TrimStart(s))
    decreases |s|
  {
    if s != [] {
      assert Lower(s)[1..] == Lower(s[1..]);
      LowerKeepsSpace(s[0]);
      TrimStartOfLower(s[1..]);
    }
  }

  lemma {:induction false} TrimEndOfLower(s: string)
    ensures TrimEnd(Lower(s)) == Lower(TrimEnd(s))
    decreases |s|
  {
    if s != [] {
      assert Lower(s)[..|s| - 1] == Lower(s[..|s| - 1]);
      LowerKeepsSpace(s[|s| - 1]);
      TrimEndOfLower(s[..|s| - 1]);
    }
  }

  /** The rank is read case-insensitively: lower-casing the input never changes it. */
  lemma RankIgnoresCase(value: string)
    ensures NormalizeRank(Lower(value)) == NormalizeRank(value)
  {
    UpperTrimOfLower(value);
  }

  /** Trimming and upper-casing forget an earlier lower-casing. */
  lemma UpperTrimOfLower(value: string)
    ensures Upper(Trim(Lower(value))) == Upper(Trim(value))
  {
    TrimStartOfLower(value);
    TrimEndOfLower(TrimStart(value));
    UpperOfLower(Trim(value));
  }

  lemma UpperOfLower(s: string)
    ensures Upper(Lower(s)) == Upper(s)
  {
    forall i | 0 <= i < |s|
      ensures UpperChar(LowerChar(s[i])) == UpperChar(s[i])
    {
    }
  }

  /** Each rank's own label is accepted as that rank. */
  lemma RankLabelAccepted(rank: Rank)
    ensures NormalizeRank(RankLabel(rank)) == Some(rank)
  {
    var s := RankLabel(rank);
    assert !IsSpace(s[0]) && !IsSpace(s[|s| - 1]);
    TrimKeepsTrimmed(s);
    assert Upper(s) == s;
    FilterKeepsAll(s, (c: char) => !IsCombiningMark(c));
  }

  // ---------------------------------------------------------------- form

  predicate IsGameId(s: string) {
    1 <= |s| <= 20 && AllDigits(s)
  }

  /** `normalizeFacForm`: the name is checked first, then the game id (1 to 20 digits once
      trimmed), then the rank; the first failing check gives its message. */
  function NormalizeFacForm(nomeRaw: string, gameIdRaw: string, rankRaw: string): (r: Result<FormData, string>)
    ensures NormalizeName(nomeRaw).None? ==> r == Err(NameErrorMessage)
    ensures NormalizeName(nomeRaw).Some? && !IsGameId(Trim(gameIdRaw)) ==> r == Err(GameIdErrorMessage)
    ensures NormalizeName(nomeRaw).Some? && IsGameId(Trim(gameIdRaw)) && NormalizeRank(rankRaw).None? ==> r == Err(RankErrorMessage)
    ensures r.Ok? <==> NormalizeName(nomeRaw).Some? && IsGameId(Trim(gameIdRaw)) && NormalizeRank(rankRaw).Some?
    ensures r.Ok? ==> r.value == FormData(NormalizeName(nomeRaw).value, Trim(gameIdRaw), NormalizeRank(rankRaw).value)
  {
    var nome := NormalizeName(nomeRaw);
    if nome.None? then Err(NameErrorMessage)
    else
      var gameId := Trim(gameIdRaw);
      if !IsGameId(gameId) then Err(GameIdErrorMessage)
      else
        var rank := NormalizeRank(rankRaw);
        if rank.None? then Err(RankErrorMessage)
        else Ok(FormData(nome.value, gameId, rank.value))
  }

  /** What an accepted form carries: a clean name without mentions or links, a game id of
      1 to 20 digits, and a rank; accepting the accepted values again gives the same form. */
  lemma AcceptedFormIsClean(nomeRaw: string, gameIdRaw: string, rankRaw: string)
    requires NormalizeFacForm(nomeRaw, gameIdRaw, rankRaw).Ok?
    ensures var f := NormalizeFacForm(nomeRaw, gameIdRaw, rankRaw).value;
      f.nome != [] && !HasMention(f.nome) && !HasLink(f.nome) && IsGameId(f.gameId)
      && NormalizeFacForm(f.nome, f.gameId, RankLabel(f.rank)) == Ok(f)
  {
    var f := NormalizeFacForm(nomeRaw, gameIdRaw, rankRaw).value;
    NormalizeNameIdempotent(nomeRaw);
    assert NormalizeName(f.nome) == Some(f.nome);
    RankLabelAccepted(f.rank);
    DigitsAreTrimmed(f.gameId);
    assert Trim(f.gameId) == f.gameId;
  }

  lemma DigitsAreTrimmed(s: string)
    requires IsGameId(s)
    ensures Trim(s) == s
  {
    assert IsDigit(s[0]) && IsDigit(s[|s| - 1]);
    TrimKeepsTrimmed(s);
  }

  // ---------------------------------------------------------------- nickname

  function NicknamePrefix(rank: Rank): (p: string)
    ensures |p| == 5
  {
    if rank == Lider then "[01] " else "[02] "
  }

  /** The name part `buildFacNickname` keeps: the name cut to `maxName` characters without
      trailing white space, or its first character when that leaves nothing. */
  function SafeName(nome: string, maxName: nat): (r: string)
    requires maxName >= 1
    ensures r <= nome && |r| <= maxName
    ensures nome != [] ==> r != []
  {
    var cut := TrimEnd(nome[..Min(maxName, |nome|)]);
    if cut != [] then cut else nome[..Min(1, |nome|)]
  }

  /** `buildFacNickname`: at most 32 characters, the rank tag first; when the game id has at
      most 20 characters the nickname ends in ` | gameId` and keeps a non-empty prefix of the
      name between the two. */
  function BuildFacNickname(rank: Rank, nome: string, gameId: string): (r: string)
    ensures 5 <= |r| <= NicknameMax
    ensures r[..5] == NicknamePrefix(rank)
    ensures |gameId| <= 20 ==> |r| >= 8 + |gameId| && r[|r| - 3 - |gameId|..] == " | " + gameId
    ensures |gameId| <= 20 ==> r[5..|r| - 3 - |gameId|] <= nome
    ensures |gameId| <= 20 && nome != [] ==> |r| > 8 + |gameId|
  {
    var suffix := " | " + gameId;
    var base := NicknamePrefix(rank);
    var maxName := Max(1, NicknameMax - (|base| + |suffix|));
    var safeName := SafeName(nome, maxName);
    var full := base + safeName + suffix;
    var r := full[..Min(NicknameMax, |full|)];
    assert r[..5] == full[..5];
    assert |gameId| <= 20 ==> r == full && r[|r| - 3 - |gameId|..] == suffix && r[5..|r| - 3 - |gameId|] == safeName;
    r
  }

  // ---------------------------------------------------------------- configuration

  /** The settings `getMissingFacConfig` checks, in the order it reports them. */
  datatype FacSetting = AnaliseChannel | LogChannel | VerificadoRole | RamoRoles | StaffRoles | FacRoles

  /** The name each setting is reported under. */
  function SettingName(k: FacSetting): string {
    match k
    case AnaliseChannel => "analiseChannelId"
    case LogChannel => "logChannelId"
    case VerificadoRole => "verificadoRoleId"
    case RamoRoles => "ramoRoleIds/ramoRoleByFac"
    case StaffRoles => "staffRoleIds"
    case FacRoles => "facRoleIds"
  }

  /** `Object.values(ramoByFac).some(roles => roles.length > 0)`. */
  predicate HasRamoLinked(c: GuildConfig) {
    var links := NormalizeRamoRoleByFac(c.ramoRoleByFac);
    exists i :: 0 <= i < |links| && |links[i].roleIds| > 0
  }

  /** Neither a default ramo role nor a FAC with linked ramo roles. */
  predicate RamoMissing(c: GuildConfig) {
    DefaultRamoRoles(c) == [] && !HasRamoLinked(c)
  }

  /** Whether a setting is missing for the full FAC flow. */
  predicate IsMissingFacSetting(c: GuildConfig, k: FacSetting) {
    match k
    case AnaliseChannel => !Present(c.analiseChannelId)
    case LogChannel => !Present(c.logChannelId)
    case VerificadoRole => !Present(c.verificadoRoleId)
    case RamoRoles => RamoMissing(c)
    case StaffRoles => c.staffRoleIds == []
    case FacRoles => c.facRoleIds == []
  }

  /** A setting's place in the report order. */
  function Position(k: FacSetting): nat {
    match k
    case AnaliseChannel => 0
    case LogChannel => 1
    case VerificadoRole => 2
    case RamoRoles => 3
    case StaffRoles => 4
    case FacRoles => 5
  }

  /** Settings listed in report order, each at most once. */
  predicate InReportOrder(xs: seq<FacSetting>)
    decreases |xs|
  {
    |xs| <= 1 || (Position(xs[0]) < Position(xs[1]) && InReportOrder(xs[1..]))
  }

  /** One `if (...) missing.push(k)` in front of the later checks. */
  function ReportIf(missing: bool, k: FacSetting, later: seq<FacSetting>): (r: seq<FacSetting>)
    requires InReportOrder(later) && forall x :: x in later ==> Position(k) < Position(x)
    ensures InReportOrder(r)
    ensures forall x :: x in r <==> (x == k && missing) || x in later
  {
    if missing then
      var r := [k] + later;
      assert r[1..] == later;
      assert later != [] ==> later[0] in later;
      r
    else later
  }

  /** The report for six answers, one per setting in report order. */
  function Report(analise: bool, log: bool, verificado: bool, ramo: bool, staff: bool, fac: bool): (r: seq<FacSetting>)
    ensures InReportOrder(r)
    ensures (AnaliseChannel in r <==> analise) && (LogChannel in r <==> log) && (VerificadoRole in r <==> verificado)
    ensures (RamoRoles in r <==> ramo) && (StaffRoles in r <==> staff) && (FacRoles in r <==> fac)
  {
    var fromVerificado := RoleReport(verificado, ramo, staff, fac);
    ReportIf(analise, AnaliseChannel, ReportIf(log, LogChannel, fromVerificado))
  }

  /** The last four checks of the report: the roles. */
  function RoleReport(verificado: bool, ramo: bool, staff: bool, fac: bool): (r: seq<FacSetting>)
    ensures InReportOrder(r)
    ensures forall x :: x in r ==> 2 <= Position(x)
    ensures AnaliseChannel !in r && LogChannel !in r && (VerificadoRole in r <==> verificado)
    ensures (RamoRoles in r <==> ramo) && (StaffRoles in r <==> staff) && (FacRoles in r <==> fac)
  {
    var fromStaff := StaffReport(staff, fac);
    ReportIf(verificado, VerificadoRole, ReportIf(ramo, RamoRoles, fromStaff))
  }

  /** The last two checks of the report: staff and FAC roles. */
  function StaffReport(staff: bool, fac: bool): (r: seq<FacSetting>)
    ensures InReportOrder(r)
    ensures forall x :: x in r ==> 4 <= Position(x)
    ensures forall x :: x in r <==> (x == StaffRoles && staff) || (x == FacRoles && fac)
  {
    ReportIf(staff, StaffRoles, ReportIf(fac, FacRoles, []))
  }

  /** `getMissingFacConfig`: exactly the missing settings, each once, in report order
      (each reported under its `SettingName`). */
  function GetMissingFacConfig(c: GuildConfig): (missing: seq<FacSetting>)
    ensures AnaliseChannel in missing <==> IsMissingFacSetting(c, AnaliseChannel)
    ensures LogChannel in missing <==> IsMissingFacSetting(c, LogChannel)
    ensures VerificadoRole in missing <==> IsMissingFacSetting(c, VerificadoRole)
    ensures RamoRoles in missing <==> IsMissingFacSetting(c, RamoRoles)
    ensures StaffRoles in missing <==> IsMissingFacSetting(c, StaffRoles)
    ensures FacRoles in missing <==> IsMissingFacSetting(c, FacRoles)
    ensures InReportOrder(missing)
  {
    var analise := !Present(c.analiseChannelId);
    var log := !Present(c.logChannelId);
    var verificado := !Present(c.verificadoRoleId);
    var ramo := RamoMissing(c);
    var staff := c.staffRoleIds == [];
    var fac := c.facRoleIds == [];
    var missing := Report(analise, log, verificado, ramo, staff, fac);
    missing
  }

  /** `hasAnyFacRole`: the member holds at least one of the listed roles. */
  function HasAnyFacRole(roles: set<string>, facRoleIds: seq<string>): (b: bool)
    ensures b <==> exists id :: id in facRoleIds && id in roles
  {
    if facRoleIds == [] then false
    else facRoleIds[0] in roles || HasAnyFacRole(roles, facRoleIds[1..])
  }

  /** `canReviewFac`: Manage Guild, or one of the configured staff roles. */
  function CanReviewFac(m: Member, c: GuildConfig): (ok: bool)
    ensures ok <==> m.manageGuild || exists id :: id in c.staffRoleIds && id in m.roles
  {
    if m.manageGuild then true
    else if c.staffRoleIds == [] then false
    else HasAnyFacRole(m.roles, c.staffRoleIds)
  }

  /** `resolveRamoRolesForFac`: the roles linked to this FAC role when there are any, the
      default ramo roles otherwise. */
  function ResolveRamoRolesForFac(c: GuildConfig, facRoleId: string): (r: seq<string>)
    ensures var linked := LinkedRoles(NormalizeRamoRoleByFac(c.ramoRoleByFac), facRoleId);
      r == (if linked != [] then linked else DefaultRamoRoles(c))
  {
    var linked := LinkedRoles(NormalizeRamoRoleByFac(c.ramoRoleByFac), facRoleId);
    if linked != [] then linked else DefaultRamoRoles(c)
  }

  /** With distinct stored keys, a FAC role with a usable stored entry gets exactly that entry's
      normalised ids; any other FAC role falls back to the default ramo roles. */
  lemma RamoForFacFromStoredEntry(c: GuildConfig, facRoleId: string)
    requires UniqueKeys(c.ramoRoleByFac)
    ensures var raw := RawLookup(c.ramoRoleByFac, facRoleId);
      ResolveRamoRolesForFac(c, facRoleId)
        == (if raw.Some? && NormalizeEntry(raw.value) != [] then NormalizeEntry(raw.value) else DefaultRamoRoles(c))
  {
    NormalizedLookup(c.ramoRoleByFac, facRoleId);
  }

  /** The ramo setting is reported missing exactly when no FAC role would receive a ramo role. */
  lemma RamoMissingIffNoFacGetsRamo(c: GuildConfig)
    ensures IsMissingFacSetting(c, RamoRoles) <==> forall f :: ResolveRamoRolesForFac(c, f) == []
  {
    var links := NormalizeRamoRoleByFac(c.ramoRoleByFac);
    if links != [] {
      var f := links[0].facRoleId;
      assert LinkedRoles(links, f) == links[0].roleIds;
      assert ResolveRamoRolesForFac(c, f) == links[0].roleIds;
      assert HasRamoLinked(c) by {
        assert |links[0].roleIds| > 0;
      }
    } else {
      assert !HasRamoLinked(c);
      forall f
        ensures ResolveRamoRolesForFac(c, f) == DefaultRamoRoles(c)
      {
        assert LinkedRoles(links, f) == [];
      }
      if DefaultRamoRoles(c) != [] {
        assert ResolveRamoRolesForFac(c, "") != [];
      }
    }
  }

  /** Nothing is missing exactly when every setting the FAC flow reads is there. */
  lemma NothingMissingIffComplete(c: GuildConfig)
    ensures GetMissingFacConfig(c) == [] <==>
      Present(c.analiseChannelId) && Present(c.logChannelId) && Present(c.verificadoRoleId)
      && (exists f :: ResolveRamoRolesForFac(c, f) != [])
      && c.staffRoleIds != [] && c.facRoleIds != []
  {
    RamoMissingIffNoFacGetsRamo(c);
    var m := GetMissingFacConfig(c);
    assert m != [] ==> m[0] in m;
  }

  // ---------------------------------------------------------------- role picker

  /** `createFacRoleSelectRows`: the configured FAC roles that exist in the guild, paged by 25,
      a non-finite page meaning the first page. */
  function FacRoleSelectRows(facRoleIds: seq<string>, guildRoles: set<string>, page: PageInput): (r: Option<PickerPage<string>>)
    ensures r.None? <==> forall id :: id in facRoleIds ==> id !in guildRoles
    ensures r.Some? ==> r.value.currentPage.At? && r.value.currentPage.index < r.value.totalPages
    ensures r.Some? ==> forall id :: id in r.value.items ==> id in facRoleIds && id in guildRoles
    ensures r.Some? ==> 1 <= |r.value.items| <= PickerPageSize
    ensures r.Some? && !page.Finite? ==> r.value.currentPage == At(0)
  {
    var roles := ResolveRoles(facRoleIds, guildRoles);
    var r := PickPage(roles, page, true);
    assert roles != [] ==> roles[0] in roles;
    assert r.Some? ==> |r.value.items| >= 1 && forall id :: id in r.value.items ==> id in roles by {
      if r.Some? {
        PickedPageNotEmpty(roles, page, true);
        var k := r.value.currentPage.index;
        forall id | id in r.value.items
          ensures id in roles
        {
          assert r.value.items == roles[Min(k * PickerPageSize, |roles|)..][..|r.value.items|];
        }
      }
    }
    r
  }

  // ---------------------------------------------------------------- final log

  /** One effect line of the final log (`Cargos:` or `Nickname:`): `OK` when the effect was
      applied, `FALHA` with the error in parentheses when it failed, `NAO APLICADO` for a
      denial; at most 120 characters. */
  function EffectStatus(status: Status, applied: bool, error: Option<string>): (s: string)
    ensures |s| <= EffectStatusMax
    ensures s == "NAO APLICADO" <==> status != Approved
    ensures s == "OK" <==> status == Approved && applied
    ensures status == Approved && !applied ==> |s| >= 5 && s[..5] == "FALHA"
    ensures status == Approved && !applied && !Present(error) ==> s == "FALHA"
    ensures status == Approved && !applied && Present(error) && |error.value| <= EffectStatusMax - 8 ==>
      s == "FALHA (" + error.value + ")"
  {
    var raw :=
      if status != Approved then "NAO APLICADO"
      else if applied then "OK"
      else if Present(error) then "FALHA (" + error.value + ")"
      else "FALHA";
    var s := ClampText(raw, EffectStatusMax);
    assert |raw| >= 2;
    assert |raw| > EffectStatusMax ==> s[..5] == raw[..5] by {
      if |raw| > EffectStatusMax {
        assert s[..EffectStatusMax - 3] == raw[..EffectStatusMax - 3];
      }
    }
    assert status == Approved && !applied ==> s[..5] == "FALHA" && s != "NAO APLICADO" by {
      if status == Approved && !applied {
        assert s[0] == 'F';
      }
    }
    s
  }
}

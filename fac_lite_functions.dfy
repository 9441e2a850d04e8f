/** The FAC Lite rules: the lite configuration check, the lite review permission, the
    unguarded role picker and the lite settings-panel paging. The lite form normaliser and
    nickname builder are textual copies of the full ones and are modelled by
    `FacRules.NormalizeFacForm` and `FacRules.BuildFacNickname`. */
module FacLiteRules {
  import opened Wrappers
  import opened Paging
  import opened GuildConfigs
  import opened Settings
  import opened FacRules

  // ---------------------------------------------------------------- configuration check

  /** The settings the lite flow reports as missing, in report order. */
  datatype FacLiteSetting = LiteAnaliseChannel | LiteLogChannel | LiteStaffRoles | LiteRoles

  /** The name the report shows for each setting. */
  function LiteSettingName(k: FacLiteSetting): string {
    match k
    case LiteAnaliseChannel => "facLiteAnaliseChannelId"
    case LiteLogChannel => "facLiteLogChannelId"
    case LiteStaffRoles => "facLiteStaffRoleIds"
    case LiteRoles => "facLiteRoleIds"
  }

  predicate IsMissingFacLiteSetting(c: GuildConfig, k: FacLiteSetting) {
    match k
    case LiteAnaliseChannel => !Present(c.facLiteAnaliseChannelId)
    case LiteLogChannel => !Present(c.facLiteLogChannelId)
    case LiteStaffRoles => c.facLiteStaffRoleIds == []
    case LiteRoles => c.facLiteRoleIds == []
  }

  function LitePosition(k: FacLiteSetting): nat {
    match k
    case LiteAnaliseChannel => 0
    case LiteLogChannel => 1
    case LiteStaffRoles => 2
    case LiteRoles => 3
  }

  predicate InLiteReportOrder(xs: seq<FacLiteSetting>)
    decreases |xs|
  {
    |xs| <= 1 || (LitePosition(xs[0]) < LitePosition(xs[1]) && InLiteReportOrder(xs[1..]))
  }

  /** One `if (...) missing.push(k)` in front of the later lite checks. */
  function LiteReportIf(missing: bool, k: FacLiteSetting, later: seq<FacLiteSetting>): (r: seq<FacLiteSetting>)
    requires InLiteReportOrder(later) && forall x :: x in later ==> LitePosition(k) < LitePosition(x)
    ensures InLiteReportOrder(r)
    ensures forall x :: x in r <==> (x == k && missing) || x in later
  {
    if missing then
      var r := [k] + later;
      assert r[1..] == later;
      assert later != [] ==> later[0] in later;
      r
    else later
  }

  /** The last two lite checks: the role lists. */
  function LiteRoleReport(staff: bool, roles: bool): (r: seq<FacLiteSetting>)
    ensures InLiteReportOrder(r)
    ensures forall x :: x in r ==> 2 <= LitePosition(x)
    ensures forall x :: x in r <==> (x == LiteStaffRoles && staff) || (x == LiteRoles && roles)
  {
    LiteReportIf(staff, LiteStaffRoles, LiteReportIf(roles, LiteRoles, []))
  }

  /** `getMissingFacLiteConfig`: exactly the lite settings that are absent, in fixed order. */
  function GetMissingFacLiteConfig(c: GuildConfig): (missing: seq<FacLiteSetting>)
    ensures LiteAnaliseChannel in missing <==> !Present(c.facLiteAnaliseChannelId)
    ensures LiteLogChannel in missing <==> !Present(c.facLiteLogChannelId)
    ensures LiteStaffRoles in missing <==> c.facLiteStaffRoleIds == []
    ensures LiteRoles in missing <==> c.facLiteRoleIds == []
    ensures InLiteReportOrder(missing)
  {
    var analise := !Present(c.facLiteAnaliseChannelId);
    var log := !Present(c.facLiteLogChannelId);
    var fromStaff := LiteRoleReport(c.facLiteStaffRoleIds == [], c.facLiteRoleIds == []);
    LiteReportIf(analise, LiteAnaliseChannel, LiteReportIf(log, LiteLogChannel, fromStaff))
  }

  /** Nothing is missing exactly when both lite channels and both lite role lists are set. */
  lemma NothingMissingIffLiteComplete(c: GuildConfig)
    ensures GetMissingFacLiteConfig(c) == [] <==>
      forall k :: !IsMissingFacLiteSetting(c, k)
  {
    var m := GetMissingFacLiteConfig(c);
    if m != [] {
      assert m[0] in m;
      assert IsMissingFacLiteSetting(c, m[0]);
    }
  }

  // ---------------------------------------------------------------- review permission

  /** `canReviewFacLite`: Manage Guild, or one of the lite staff roles. */
  function CanReviewFacLite(m: Member, c: GuildConfig): (ok: bool)
    ensures ok <==> m.manageGuild || exists id :: id in c.facLiteStaffRoleIds && id in m.roles
    ensures c.facLiteStaffRoleIds == [] ==> (ok <==> m.manageGuild)
  {
    if m.manageGuild then true
    else if c.facLiteStaffRoleIds == [] then false
    else HasAnyFacRole(m.roles, c.facLiteStaffRoleIds)
  }

  // ---------------------------------------------------------------- role picker

  /** `createFacLiteRoleSelectRows`: the configured roles that exist, paged by 25, with no
      `Number.isFinite` guard: NaN keeps a NaN page and an empty slice, +Infinity means the
      last page and -Infinity the first. */
  function FacLiteRoleSelectRows(facRoleIds: seq<string>, guildRoles: set<string>, page: PageInput): (r: Option<PickerPage<string>>)
    ensures r.None? <==> forall id :: id in facRoleIds ==> id !in guildRoles
    ensures r.Some? ==> |r.value.items| <= PickerPageSize
    ensures r.Some? ==> forall id :: id in r.value.items ==> id in facRoleIds && id in guildRoles
    ensures r.Some? && page.NaN? ==> r.value.currentPage == NotANumber && r.value.items == []
    ensures r.Some? && !page.NaN? ==> r.value.currentPage.At? && r.value.currentPage.index < r.value.totalPages && |r.value.items| >= 1
    ensures r.Some? && page.PosInfinity? ==> r.value.currentPage == At(r.value.totalPages - 1)
  {
    var roles := ResolveRoles(facRoleIds, guildRoles);
    var r := PickPage(roles, page, false);
    assert roles != [] ==> roles[0] in roles;
    assert r.Some? ==> forall id :: id in r.value.items ==> id in roles by {
      if r.Some? && r.value.currentPage.At? {
        var k := r.value.currentPage.index;
        forall id | id in r.value.items
          ensures id in roles
        {
          assert r.value.items == roles[Min(k * PickerPageSize, |roles|)..][..|r.value.items|];
        }
      }
    }
    assert r.Some? && !page.NaN? ==> |r.value.items| >= 1 by {
      if r.Some? && !page.NaN? {
        PickedPageNotEmpty(roles, page, false);
      }
    }
    r
  }

  /** On every finite page the lite picker shows exactly what the guarded full picker shows;
      the two differ only on non-finite page numbers. */
  lemma LitePickerAgreesOnFinitePages(facRoleIds: seq<string>, guildRoles: set<string>, n: int)
    ensures FacLiteRoleSelectRows(facRoleIds, guildRoles, Finite(n)) == FacRoleSelectRows(facRoleIds, guildRoles, Finite(n))
  {
  }

  /** A NaN page (a button id that is not a number) yields a picker with nothing to select. */
  lemma LitePickerNaNShowsNothing(facRoleIds: seq<string>, guildRoles: set<string>)
    requires exists id :: id in facRoleIds && id in guildRoles
    ensures FacLiteRoleSelectRows(facRoleIds, guildRoles, NaN).Some?
    ensures FacLiteRoleSelectRows(facRoleIds, guildRoles, NaN).value.items == []
    ensures FacRoleSelectRows(facRoleIds, guildRoles, NaN).value.items != []
  {
  }

  // ---------------------------------------------------------------- settings panel

  /** The lite settings panel: staff roles and lite roles share one clamped page index. */
  function FacLiteSettingsPanelPage(c: GuildConfig, page: int): (v: PanelView<string, string>)
    ensures v.totalPages == PanelTotalPages(|c.facLiteStaffRoleIds|, |c.facLiteRoleIds|)
    ensures v.current < v.totalPages
    ensures v.first == PageSlice(c.facLiteStaffRoleIds, v.current, PanelPageSize)
    ensures v.second == PageSlice(c.facLiteRoleIds, v.current, PanelPageSize)
    ensures v.pageRow.None? <==> v.totalPages <= 1
    ensures v.pageRow.Some? ==> v.pageRow.value.previousDisabled == (v.current == 0)
                                && v.pageRow.value.nextDisabled == (v.current + 1 >= v.totalPages)
  {
    PanelPage(c.facLiteStaffRoleIds, c.facLiteRoleIds, page)
  }

  /** Every configured lite role, staff or requestable, appears on some page of the panel. */
  lemma LitePanelShowsEveryRole(c: GuildConfig, i: nat)
    ensures i < |c.facLiteStaffRoleIds| ==>
      exists p :: 0 <= p < PanelTotalPages(|c.facLiteStaffRoleIds|, |c.facLiteRoleIds|)
                  && c.facLiteStaffRoleIds[i] in FacLiteSettingsPanelPage(c, p).first
    ensures i < |c.facLiteRoleIds| ==>
      exists p :: 0 <= p < PanelTotalPages(|c.facLiteStaffRoleIds|, |c.facLiteRoleIds|)
                  && c.facLiteRoleIds[i] in FacLiteSettingsPanelPage(c, p).second
  {
    var staff, roles := c.facLiteStaffRoleIds, c.facLiteRoleIds;
    var total := PanelTotalPages(|staff|, |roles|);
    PanelShowsEveryEntry(staff, roles, i);
    if i < |staff| {
      var p :| 0 <= p < total && staff[i] in PanelPage(staff, roles, p).first;
      assert FacLiteSettingsPanelPage(c, p) == PanelPage(staff, roles, p);
    }
    if i < |roles| {
      var p :| 0 <= p < total && roles[i] in PanelPage(staff, roles, p).second;
      assert FacLiteSettingsPanelPage(c, p) == PanelPage(staff, roles, p);
    }
  }
}

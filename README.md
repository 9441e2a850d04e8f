# FAC role requests, modelled in Dafny

This project models the role-request core of a Discord bot that runs "FAC" sign-ups for a
game community.

- **FAC requests.** A member presses the panel button and picks a FAC role from a paged
  select menu. They then fill a form with name, game id and rank (LIDER or SUB). The bot
  checks the guild's configuration and the member, then stores a PENDING request. The id is
  retried while it collides. The bot posts a review card in the analysis channel. If posting
  fails, the request is rolled back to DENIED.
- **Reviews.** Staff approve or deny a request with one conditional update keyed on
  `status == PENDING`, so a request is decided at most once. Approval then grants the FAC,
  verificado and "ramo" roles and sets the nickname `[01] name | id` or `[02] name | id`.
  Both outcomes are written to a log channel.
- **FAC Lite.** A second flavour has no form. The select menu itself creates the request,
  and approval grants only the chosen role.
- **Settings panels (painel).** Guild managers set channels, role lists and per-FAC ramo links,
  reset everything and publish the request panel. A chat-capture mode lets them type FAC role
  ids into a channel. Its session lives three minutes.
- **Storage.** Guild settings live in one Mongo document per guild; reading one creates it with
  defaults (an upsert). Requests live in a collection with a unique `requestId`.

Module layout, one file per module:

- `wrappers.dfy` — Option and Result.
- `lists.dfy` — `[...new Set]` and `filter`.
- `text.dfy` — `trim`, whitespace collapsing, ASCII case.
- `faults.dfy` — thrown values and their classification.
- `paging.dfy` — the page arithmetic shared by every paged builder.
- `guild_config.dfy` — the guild document and its store class.
- `request_schema.dfy` — request records.
- `request_store.dfy` — the request collection class, with create-with-retry and the claim.
- `settings.dfy` — the settings helpers of `src/functions/settings.ts`.
- `sessions.dfy` — the chat-capture session map class.
- `fac_functions.dfy`, `fac_lite_functions.dfy` — the pure helpers of both flavours.
- `fac_responder.dfy`, `fac_lite_responder.dfy` — the request and review handlers.
- `chat_capture.dfy` — the two chat-capture message handlers.
- `panel_responder.dfy`, `fac_lite_panel_responder.dfy` — the settings-panel handlers.

Discord, Mongo and the clock are inputs. These include whether a member, channel or stored
message is found, the guild's role ids, the fault (if any) each call throws, the five request
ids the generator would produce, and the current time in milliseconds. Handlers that change
state are methods over `ConfigStore`, `RequestStore` and `SessionStore` objects. Each method is
specified by a function of the old state, and the lemmas are stated about that function.

`normalizeFacLiteForm`, `buildFacLiteNickname` and the lite `normalizeName`/`normalizeRank`
(src/functions/fac-lite.ts:155-185, 581-599) are textually identical to their full-flavour
counterparts, so the `FacRules` members below model both files.

## Model

| member | source | states |
|---|---|---|
| Lists.FirstIndex | src/functions/settings.ts:488-489 | the index returned is where the value first occurs, so `[...new Set]` order can be stated by it |
| Lists.Dedup | src/functions/settings.ts:488-489 | `[...new Set(xs)]` has no repeats and holds exactly the values of `xs` |
| Lists.DedupKeepsFirstSeenOrder | src/functions/settings.ts:488-489 | a Set keeps values in the order of their first occurrence in the input |
| Lists.DedupOfDistinct | src/functions/settings.ts:488-489 | deduplicating a list with no repeats returns it unchanged |
| Lists.Filter | src/discord/events/painel-fac-ids-chat.ts:50-51 | `filter` keeps exactly the elements that pass the test and never grows the list |
| Lists.FilterPartition | src/discord/events/painel-fac-ids-chat.ts:50-51 | a test and its negation split a list into two parts whose lengths add up to the whole |
| Lists.FilterAppend | src/functions/settings.ts:482-485 | pushing one token and then filtering equals filtering and then pushing it if it passes, which is how the loop builds its lists |
| Lists.FilterKeepsAll | src/functions/settings.ts:482-485 | when every element passes, the filter is the identity |
| Lists.FilterIsSubsequence | src/discord/events/painel-fac-ids-chat.ts:50-51 | the filtered elements keep their relative order from the input |
| Text.TrimStart | src/functions/fac.ts:497 | the result is a suffix of the input, what was removed is all whitespace, and the result does not start with whitespace |
| Text.TrimEnd | src/functions/fac.ts:416 | the result is a prefix of the input, what was removed is all whitespace, and the result does not end with whitespace |
| Text.Trim | src/functions/fac.ts:497 | `trim()` returns a contiguous slice of the input with no whitespace at either end |
| Text.TrimNonBlank | src/functions/settings.ts:155-163 | trimming a string that holds a non-space character leaves a non-empty string |
| Text.CollapseSpaces | src/functions/fac.ts:497 | `replace(/\s+/g, " ")` leaves only plain spaces, never two in a row, and is empty exactly when the input is |
| Text.ConsKeepsSpacing | src/functions/fac.ts:497 | prepending a character keeps the collapsed shape when it does not start a second space |
| Text.SliceKeepsSpacing | src/functions/fac.ts:497 | any slice of a collapsed string is still collapsed |
| Text.TrimKeepsSpacing | src/functions/fac.ts:497 | trimming a collapsed string keeps it collapsed |
| Text.CollapseKeepsNormalized | src/functions/fac.ts:497 | collapsing an already collapsed string changes nothing |
| Text.TrimKeepsTrimmed | src/functions/fac.ts:497 | trimming a string with no whitespace at its ends changes nothing |
| Text.Lower | src/discord/events/painel-fac-ids-chat.ts:21 | `toLowerCase` maps each character independently and keeps the length (ASCII letters only) |
| Text.Upper | src/functions/fac.ts:505-510 | `toUpperCase` maps each character independently and keeps the length (ASCII letters only) |
| Faults.ToErrorMessage | src/discord/responders/fac.ts:518-526 | an Error whose message matches /Missing Permissions/i becomes the role-hierarchy hint, other Errors keep their message, and other values are stringified |
| Faults.OverflowMarkerInRawMessage | src/functions/settings.ts:31-46 | the overflow marker is detected when it appears only in `rawError.message`, but only alongside the numeric code 50035; the text "50035" fails the `===` |
| Faults.MissingPermissionsAnywhere | src/discord/responders/fac.ts:520-522 | the permissions hint is chosen wherever the phrase occurs in the message, in any letter case |
| Paging.CeilDiv | src/functions/fac.ts:183 | `Math.ceil(n/size)` is the least page count whose pages cover `n` items, and it is zero only for zero items |
| Paging.Clamp | src/functions/fac.ts:185 | `min(max(0, p), total-1)` always lands inside the page range, keeps an in-range page and sends out-of-range pages to the nearest end |
| Paging.Window | src/functions/fac.ts:196 | `slice(start, start+size)` is the part of the list from `start`, at most `size` long, and empty past the end |
| Paging.ItemOnItsPage | src/functions/fac.ts:183-196 | every item shows on page `i / size`, and that page exists |
| Paging.PagesConcatenate | src/functions/fac.ts:183-196 | the first `k` pages laid end to end are exactly the first `k*size` items, with nothing lost or repeated |
| Paging.Nav | src/functions/fac.ts:205-221 | previous is disabled exactly on the first page and next exactly on the last, and they target the neighbouring pages |
| Paging.NavAt | src/functions/fac-lite.ts:398-414 | on a NaN page neither button is disabled, since both comparisons with NaN are false |
| Paging.SettlePage | src/functions/fac.ts:184-185 | a finite page is truncated and clamped; with the `isFinite` guard any other page becomes 0; without it NaN stays NaN, +Infinity goes to the last page and -Infinity to the first |
| Paging.PickPage | src/functions/fac.ts:175-230 | the picker is absent exactly for no roles; otherwise it has `ceil(n/25)` pages, shows at most 25 roles (the window of the settled page, or none for NaN) and navigation only with more than one page |
| Paging.PageInRangeNotEmpty | src/functions/fac.ts:183-196 | a page inside the range always shows at least one item |
| Paging.PickedPageNotEmpty | src/functions/fac.ts:183-196 | a picker on a numeric page never shows an empty menu |
| Paging.NavigationMovesOnePage | src/functions/fac.ts:205-221 | following an enabled previous or next button lands exactly one page away |
| Paging.PanelTotalPages | src/functions/settings.ts:245-249 | the panel has the fewest pages (at least one) that hold both lists |
| Paging.PanelPage | src/functions/settings.ts:245-254 | both lists are cut at the same clamped page, and the page row exists exactly when there is more than one page |
| Paging.PanelPageRow | src/functions/settings.ts:218-238 | no row for a single page; otherwise the navigation of the clamped page |
| Paging.PanelShowsEveryEntry | src/functions/settings.ts:245-254 | every entry of either list is shown on some page of the panel |
| GuildConfigs.DefaultConfig | src/database/schemas/guild-config.ts:6-24 | a fresh document has the guild id, empty role lists and ramo map, and no channels or single roles |
| GuildConfigs.AfterGet | src/database/schemas/guild-config.ts:29-39 | `get` leaves an existing document untouched and inserts the defaults for a new guild |
| GuildConfigs.GetIdempotent | src/database/schemas/guild-config.ts:29-39 | a second `get` changes nothing, and `get` adds only the requested guild |
| GuildConfigs.ConfigStore.constructor | src/database/schemas/guild-config.ts:44 | the collection starts empty and keyed by `guildId` |
| GuildConfigs.ConfigStore.Get | src/database/schemas/guild-config.ts:29-39 | returns the stored document or a freshly inserted default, and stores the latter |
| GuildConfigs.ConfigStore.Save | src/database/schemas/guild-config.ts:44 | `save()` replaces exactly this guild's document and keeps the one-document-per-guild index; a rejected save writes nothing and returns the store's error |
| GuildConfigs.ConfigStore.UpdateOne | src/discord/responders/fac-lite-painel.ts:218-230 | `updateOne` without upsert changes an existing document and leaves the collection alone for a missing one |
| RequestSchema.PendingRecord | src/database/schemas/fac-lite-request.ts:17-27 | a created request is PENDING, undecided, stamped with the creation time, and carries the requester's data |
| RequestSchema.Decided | src/discord/responders/fac.ts:314-326 | a decision sets the status, decider and time, and keeps every other field |
| RequestStores.InsertError | src/database/schemas/fac-lite-request.ts:38 | inserting an id already present fails with the duplicate-key error (11000); otherwise the store's own fault, if any, is raised |
| RequestStores.RequestStore.constructor | src/database/schemas/fac-lite-request.ts:38 | the collection starts empty |
| RequestStores.RequestStore.Insert | src/discord/responders/fac.ts:422-435 | `create` stores the record exactly when no error is raised |
| RequestStores.RequestStore.CreatePending | src/discord/responders/fac.ts:411-440 | the retry loop ends with the outcome and store that the create specification gives for the five candidate ids |
| RequestStores.ClaimResult | src/discord/responders/fac.ts:314-326 | the conditional update matches exactly a stored PENDING record and returns it decided |
| RequestStores.RequestStore.Claim | src/discord/responders/fac.ts:314-331 | `findOneAndUpdate({requestId, status: PENDING})` decides the record exactly when it was pending and otherwise changes nothing |
| RequestStores.RequestStore.SaveCardLocation | src/discord/responders/fac.ts:273-275 | saving the card's message and channel ids changes only those fields of that record, and nothing when the save fails |
| RequestStores.ExhaustedIffAllDuplicates | src/discord/responders/fac.ts:411-440 | creation gives up (null) exactly when all five attempts hit a duplicate key |
| RequestStores.FailedOnlyOnOtherError | src/discord/responders/fac.ts:436-438 | an error escapes creation only when it is not a duplicate key, and it is the fault of a fresh id's attempt |
| RequestStores.CreatedIsFreshPending | src/discord/responders/fac.ts:411-440 | a created record is PENDING, has one of the candidate ids, and that id was not already stored |
| RequestStores.CreateEvolves | src/discord/responders/fac.ts:411-440 | creation never changes or removes an existing record |
| RequestStores.ClaimExactlyOnce | src/discord/responders/fac.ts:314-331 | once a request is claimed, a second claim matches nothing and changes nothing |
| RequestStores.ClaimEvolves | src/discord/responders/fac.ts:314-326 | a claim changes only the claimed record, and only from PENDING to decided |
| RequestStores.EvolvesTransitive | src/discord/responders/fac.ts:314-326 | the "records only move forward" relation composes across steps |
| Settings.ClampText | src/functions/settings.ts:26-29 | empty stays empty; text within `max` is unchanged; longer text keeps its first `max-3` characters plus "..." and so has length exactly `max` when `max >= 3` |
| Settings.PiecesHaveNoSeparator | src/functions/settings.ts:475-476 | no piece of `split(/[\s,\n\r\t;]+/)` contains a separator |
| Settings.CleanPiece | src/functions/settings.ts:477 | stripping `< @ & > #` leaves none of them and adds no separator |
| Settings.CleanPieces | src/functions/settings.ts:477 | each piece is cleaned in place, keeping count and order |
| Settings.Tokens | src/functions/settings.ts:475-478 | every token is non-empty and contains neither a separator nor any of `< @ & > #` |
| Settings.ParseRoleIdsInput | src/functions/settings.ts:474-492 | the returned lists are the deduplicated 17-20 digit tokens and the deduplicated other tokens |
| Settings.SortTokens | src/functions/settings.ts:480-485 | the loop sends each token to `valid` or `invalid` by the 17-20 digit test, keeping order |
| Settings.ParsedRoleIdsKeepFirstSeenOrder | src/functions/settings.ts:488 | the role ids come out in the order they were first typed |
| Settings.ParsedInvalidKeepFirstSeenOrder | src/functions/settings.ts:489 | the ignored tokens come out in the order they were first typed |
| Settings.ParsedListsPartitionTokens | src/functions/settings.ts:474-492 | every token lands in exactly one list (role ids are 17-20 digits, the rest are invalid), and neither list repeats |
| Settings.NormalizeEntry | src/functions/settings.ts:129-133 | an array keeps its distinct non-blank strings, a non-blank string becomes its trimmed self, and anything else becomes nothing |
| Settings.NormalizeRamoRoleByFac | src/functions/settings.ts:127-153 | entries whose ids normalise to nothing are dropped, so every kept link has ids |
| Settings.NormalizedLookup | src/functions/fac.ts:450-477 | the normalised links of a FAC role are the normalised stored entry for it, or nothing when there is none |
| Settings.NoLinkWithoutEntry | src/functions/fac.ts:450-477 | a FAC role with no stored entry has no linked ramo roles |
| Settings.SetLink | src/discord/responders/painel.ts:165-168 | setting one FAC role's link replaces only that link, keeps the others and appends a new key at the end |
| Settings.StoredLinks | src/discord/responders/painel.ts:165-168 | writing links back stores each FAC role's list as a plain array, in order |
| Settings.DefaultRamoRoles | src/functions/settings.ts:155-163 | the default is the distinct non-blank configured list; only when that is empty, the trimmed legacy id; otherwise nothing |
| Settings.DefaultRamoIgnoresLegacy | src/functions/fac.ts:486-494 | once any ramo list is configured, the legacy single id is ignored |
| Settings.ResolveRoles | src/functions/settings.ts:361-363 | only configured ids that exist as guild roles are offered |
| Settings.FacSettingsPanelPage | src/functions/settings.ts:240-254 | the panel pages both the FAC list and the normalised ramo links with one clamped index and at most eight entries each |
| Settings.ApplyTextBudget | src/functions/settings.ts:293-302 | the guard never lengthens a block or touches the channels text; it shortens the ramo text first, and the roles text only if the total still exceeds 2600 |
| Settings.RamoFacPicker | src/functions/settings.ts:360-381 | the single-page picker is absent exactly when no configured FAC role exists, and otherwise offers the first 25 that do |
| Settings.RamoFacPickerPage | src/functions/settings.ts:383-440 | the paged picker is absent exactly when no FAC role exists, treats non-finite pages as 0, and offers only existing configured roles |
| ChatSessions.LiveSession | src/functions/settings.ts:460-468 | a read returns the session exactly when it has not yet expired |
| ChatSessions.Unexpired | src/functions/settings.ts:96-104 | the sweep keeps exactly the entries whose expiry is still in the future |
| ChatSessions.SessionStore.constructor | src/functions/settings.ts:89-93 | the map starts empty |
| ChatSessions.SessionStore.Start | src/functions/settings.ts:452-458 | starting stores guild, channel and `now + 180000` for the user, overwriting only that user's entry |
| ChatSessions.SessionStore.Get | src/functions/settings.ts:460-468 | a read returns the live session and deletes this user's entry if it has expired |
| ChatSessions.SessionStore.Clear | src/functions/settings.ts:470-472 | clearing removes exactly that user's entry |
| ChatSessions.SessionStore.Sweep | src/functions/settings.ts:96-104 | the sweep deletes exactly the expired entries |
| ChatSessions.StartedSessionLivesThreeMinutes | src/functions/settings.ts:88 | a started session is readable for exactly 180000 ms |
| ChatSessions.StartIsolatesUsers | src/functions/settings.ts:452-458 | starting one user's session never changes what another user reads |
| ChatSessions.EvictionPreservesReads | src/functions/settings.ts:96-104 | neither the sweep nor lazy eviction on read changes the answer of any later read |
| ChatSessions.ClearEndsSession | src/functions/settings.ts:470-472 | after clearing, the user has no session |
| FacRules.CleanName | src/functions/fac.ts:497 | the cleaned name has only single plain spaces and no whitespace at its ends |
| FacRules.NormalizeName | src/functions/fac.ts:496-503 | a name is refused exactly when, once cleaned, it is empty or contains a mention or link marker; an accepted name is the cleaned text |
| FacRules.NormalizeNameIdempotent | src/functions/fac.ts:496-503 | normalising an accepted name again gives the same name |
| FacRules.BlankNameRefused | src/functions/fac.ts:498 | a name made only of whitespace is refused |
| FacRules.RankLabel | src/functions/fac.ts:18 | each rank has its stored label, LIDER or SUB |
| FacRules.NormalizeRank | src/functions/fac.ts:505-514 | a rank is accepted exactly when its canonical form is LIDER or SUB, and it is that rank |
| FacRules.RankIgnoresCase | src/functions/fac.ts:505-514 | lower-casing the input never changes the rank it yields |
| FacRules.RankLabelAccepted | src/functions/fac.ts:505-514 | each rank's own label is accepted as that rank |
| FacRules.NormalizeFacForm | src/functions/fac.ts:388-408 | the name is checked first, then the 1-20 digit id, then the rank; the first failure's message is returned; success carries the cleaned name, trimmed id and rank |
| FacRules.AcceptedFormIsClean | src/functions/fac.ts:388-408 | an accepted form has a non-empty name without mentions or links and a digit id, and submitting it again gives the same form |
| FacRules.DigitsAreTrimmed | src/functions/fac.ts:395-396 | an accepted game id has no surrounding whitespace, so trimming it again changes nothing |
| FacRules.SafeName | src/functions/fac.ts:414-416 | the name part is a prefix of the name within the room left, and never empty for a non-empty name |
| FacRules.BuildFacNickname | src/functions/fac.ts:410-418 | the nickname has at most 32 characters and starts with the rank prefix; for ids of at most 20 characters it ends with " \| id" and keeps a non-empty prefix of a non-empty name |
| FacRules.GetMissingFacConfig | src/functions/fac.ts:425-438 | each of the six settings is reported exactly when it is missing, in the fixed order of the source |
| FacRules.HasAnyFacRole | src/functions/fac.ts:440-442 | true exactly when the member holds some configured FAC role |
| FacRules.CanReviewFac | src/functions/fac.ts:444-448 | a member may review exactly when they have ManageGuild or hold a staff role |
| FacRules.ResolveRamoRolesForFac | src/functions/fac.ts:479-484 | the ramo roles of a FAC role are its link when it has one, else the default list |
| FacRules.RamoForFacFromStoredEntry | src/functions/fac.ts:450-484 | resolution reads the FAC role's stored entry directly: its normalised ids if any, else the default list |
| FacRules.RamoMissingIffNoFacGetsRamo | src/functions/fac.ts:425-438 | "ramo roles" is reported missing exactly when no FAC role would receive any ramo role |
| FacRules.NothingMissingIffComplete | src/functions/fac.ts:425-438 | nothing is missing exactly when both channels and the verificado role are set, some FAC role has ramo roles, and the staff and FAC lists are non-empty |
| FacRules.FacRoleSelectRows | src/functions/fac.ts:175-230 | the picker is absent exactly when no configured FAC role exists; otherwise it offers 1 to 25 existing configured roles on a clamped page, and page 0 for non-finite input |
| FacRules.EffectStatus | src/functions/fac.ts:352-357 | "NAO APLICADO" exactly when not approved, "OK" exactly when approved and applied, otherwise "FALHA" with the reason in parentheses when there is one |
| FacLiteRules.GetMissingFacLiteConfig | src/functions/fac-lite.ts:135-142 | each of the four lite settings is reported exactly when it is missing, in the fixed order of the source |
| FacLiteRules.NothingMissingIffLiteComplete | src/functions/fac-lite.ts:135-142 | nothing is missing exactly when no lite setting is missing |
| FacLiteRules.CanReviewFacLite | src/functions/fac-lite.ts:144-148 | ManageGuild or a lite staff role; with no lite staff roles, only ManageGuild |
| FacLiteRules.FacLiteRoleSelectRows | src/functions/fac-lite.ts:369-423 | absent exactly when no configured role exists; a NaN page shows an empty menu, +Infinity shows the last page, and any other page shows 1 to 25 existing configured roles |
| FacLiteRules.LitePickerAgreesOnFinitePages | src/functions/fac-lite.ts:377-378 | on numeric pages the lite picker equals the full one |
| FacLiteRules.LitePickerNaNShowsNothing | src/functions/fac-lite.ts:378 | with no `isFinite` guard a NaN page gives an empty lite menu where the full picker shows page 0 |
| FacLiteRules.FacLiteSettingsPanelPage | src/functions/fac-lite.ts:263-300 | both lite role lists are cut at one clamped page of eight, and the buttons are disabled at the ends |
| FacLiteRules.LitePanelShowsEveryRole | src/functions/fac-lite.ts:286-300 | every lite staff role and lite role is shown on some page |
| FacResponder.Eligibility | src/discord/responders/fac.ts:210-230 | a member may request exactly when resolvable and holding neither verificado nor any FAC role |
| FacResponder.OpenPicker | src/discord/responders/fac.ts:26-86 | the picker opens exactly when the config is complete, the member is eligible and some FAC role exists, and it offers only roles the member lacks |
| FacResponder.SelectFac | src/discord/responders/fac.ts:148-166 | a selection is accepted exactly when it is a configured FAC role |
| FacResponder.OfferedRoleIsSelectable | src/discord/responders/fac.ts:26-166 | every role the picker offers passes the selection check |
| FacResponder.SubmitGate | src/discord/responders/fac.ts:176-249 | the guards refuse in the source's order (incomplete config, unknown role, no ramo, ...); the form passes exactly when all pass and the analysis channel is reachable |
| FacResponder.DeliveryFailure | src/discord/responders/fac.ts:268-284 | the error that triggers the rollback is the post's, else the save's, else the reply's |
| FacResponder.CreateAndDeliverPreservesStore | src/discord/responders/fac.ts:251-294 | creating and delivering keeps every existing record and adds only a candidate id |
| FacResponder.DeliverFacts | src/discord/responders/fac.ts:268-294 | a delivered request is stored with its card location; a failed delivery leaves it DENIED by the bot |
| FacResponder.DeliverPreservesStore | src/discord/responders/fac.ts:268-294 | delivery adds exactly the new record and keeps the store's invariants |
| FacResponder.SubmitStages | src/discord/responders/fac.ts:176-294 | a refused form writes nothing; otherwise creation runs, and only a created record is delivered |
| FacResponder.Submit | src/discord/responders/fac.ts:168-296 | the modal handler reads the config (an upsert) and leaves the request store as the submission specification says |
| FacResponder.SubmitPreservesStore | src/discord/responders/fac.ts:168-296 | a submission never changes an existing request and keeps the store's invariants |
| FacResponder.SentRequestAwaitsReview | src/discord/responders/fac.ts:251-283 | a sent request is new, PENDING, the requester's, carries the normalised form and points at the posted card |
| FacResponder.FailedDeliveryDeniesRequest | src/discord/responders/fac.ts:284-294 | a failed delivery leaves the new request DENIED by the bot |
| FacResponder.StoredOnlyAfterGuards | src/discord/responders/fac.ts:176-249 | the store changes exactly when the guards pass and a record is created |
| FacResponder.ApprovedRoles | src/discord/responders/fac.ts:333-335 | the roles granted are the FAC, verificado and ramo roles, without empty ids or repeats |
| FacResponder.ApplyApprovedRoles | src/discord/responders/fac.ts:442-463 | roles are added exactly when the member exists, the list is non-empty and no error is raised; each failure has its own message |
| FacResponder.ApplyApprovedNickname | src/discord/responders/fac.ts:465-477 | the built nickname is set exactly when the member exists and no error is raised |
| FacResponder.FacLog | src/discord/responders/fac.ts:479-509 | a log is sent exactly when the channel is configured, the guild is cached and the channel is reachable, and it reports both effects |
| FacResponder.ReplyStatus | src/discord/responders/fac.ts:349-359 | the reviewer sees "OK" exactly when the effect applied, else "FALHA" with the reason |
| FacResponder.ApprovalEffects | src/discord/responders/fac.ts:333-359 | approval applies roles and nickname independently and logs both outcomes |
| FacResponder.DenialEffects | src/discord/responders/fac.ts:399-409 | denial applies nothing and logs the request |
| FacResponder.Decide | src/discord/responders/fac.ts:297-409 | a non-reviewer changes nothing; otherwise the claim is made and effects follow only a successful claim |
| FacResponder.CleanApprovalAppliesEverything | src/discord/responders/fac.ts:333-359 | when nothing fails, approval grants every role and sets the nickname, and every status is "OK" |
| FacResponder.ApprovalWithoutMember | src/discord/responders/fac.ts:442-477 | with the member gone, neither roles nor nickname are applied and both report "member not found" |
| FacResponder.DenialLogAppliesNothing | src/functions/fac.ts:352-357 | a denial's log shows "NAO APLICADO" for both effects |
| FacResponder.DecisionPreservesStore | src/discord/responders/fac.ts:314-326 | a decision keeps the store's invariants and only moves records forward |
| FacResponder.SecondDecisionUnavailable | src/discord/responders/fac.ts:327-331 | after one decision, a second one finds nothing to claim and the first decision stands |
| FacLiteResponder.OpenLitePicker | src/discord/responders/fac-lite.ts:22-75 | the lite picker opens exactly when the lite config is complete, the member is resolvable and holds no `facRoleIds` role, and some such role exists |
| FacLiteResponder.LiteSubmitGate | src/discord/responders/fac-lite.ts:137-178 | the lite guards refuse in the source's order and read the full flavour's `facRoleIds` and `analiseChannelId` |
| FacLiteResponder.LiteRequestData | src/discord/responders/fac-lite.ts:180-192 | a lite request carries only guild, user, role and the full flavour's analysis channel |
| FacLiteResponder.SubmitLite | src/discord/responders/fac-lite.ts:129-221 | the lite select handler, with a working request collection, reads the config and leaves the store as the lite specification says |
| FacLiteResponder.LiteSubmitStages | src/discord/responders/fac-lite.ts:137-219 | a refused selection writes nothing; otherwise creation runs, and only a created record is delivered |
| FacLiteResponder.LiteSubmitPreservesStore | src/discord/responders/fac-lite.ts:129-221 | a lite submission never changes an existing request and writes only after the guards pass |
| FacLiteResponder.SentLiteRequestAwaitsReview | src/discord/responders/fac-lite.ts:180-209 | a sent lite request is new, PENDING, formless, the requester's, and points at the posted card |
| FacLiteResponder.LiteSubmitSends | src/discord/responders/fac-lite.ts:129-209 | with the guards passed and no fault, the first candidate id is sent |
| FacLiteResponder.ApplyFacLiteRole | src/discord/responders/fac-lite.ts:354-369 | exactly the one role is added when the member exists, the id is non-empty and no error is raised; each failure has its own message |
| FacLiteResponder.LiteApprovalEffects | src/discord/responders/fac-lite.ts:258-279 | lite approval grants the role and logs it, never passing a nickname outcome |
| FacLiteResponder.LiteDenialEffects | src/discord/responders/fac-lite.ts:317-327 | lite denial applies nothing and logs the request |
| FacLiteResponder.DecideLite | src/discord/responders/fac-lite.ts:223-327 | with a working request collection, a non-reviewer changes nothing and effects follow only a successful claim |
| FacLiteResponder.LiteApprovalGrantsOnlyTheRole | src/discord/responders/fac-lite.ts:354-369 | a lite approval grants nothing but the requested role, and grants it when nothing fails |
| FacLiteResponder.LiteApprovalLogReportsNicknameFailure | src/discord/responders/fac-lite.ts:266 | every logged lite approval reports the nickname as "FALHA", since no nickname outcome is passed |
| FacLiteResponder.LiteReviewIgnoresLiteStaff | src/discord/responders/fac-lite.ts:233 | lite reviews are gated by the full staff roles: lite staff roles grant nothing |
| FacLiteResponder.MissingCollectionAnswers | src/database/index.ts:20-25 | every access to the missing `facLiteRequests` collection throws |
| FacLiteResponder.LiteSubmitAsWrittenNeverSends | src/discord/responders/fac-lite.ts:338 | as written, a selection that passes the guards always crashes, because the collection is undefined |
| FacLiteResponder.LiteSubmitWithoutRankNeverSends | src/database/schemas/fac-lite-request.ts:12-16 | even with the collection registered, the rankless create fails validation, is rethrown as a crash, and stores nothing |
| FacLiteResponder.DecideLiteAsWritten | src/discord/responders/fac-lite.ts:240 | as written, an authorised review always crashes at the claim |
| FacLiteResponder.LiteDecisionAsWrittenNeverApplies | src/discord/responders/fac-lite.ts:240-260 | as written no lite approval happens, although the corrected claim would approve the pending request |
| ChatCapture.SetTarget | src/discord/events/painel-fac-ids-chat.ts:64-66 | saving writes exactly the handler's own list (FAC or FAC Lite ids) and nothing else |
| ChatCapture.ExistingIds | src/discord/events/painel-fac-ids-chat.ts:50 | exactly the parsed ids that are guild roles |
| ChatCapture.MissingIds | src/discord/events/painel-fac-ids-chat.ts:51 | exactly the parsed ids that are not guild roles |
| ChatCapture.ExistenceSplitsIds | src/discord/events/painel-fac-ids-chat.ts:50-51 | existing and missing ids split the parsed list with no loss or repeats |
| ChatCapture.Settle | src/discord/events/painel-fac-ids-chat.ts:20-67 | a message from the session's user always settles on some reply |
| ChatCapture.ReadIds | src/discord/events/painel-fac-ids-chat.ts:38-67 | reading ids ends in "no valid id", "none exist" or a save |
| ChatCapture.CaptureOutcomes | src/discord/events/painel-fac-ids-chat.ts:14-67 | messages are ignored exactly off-session; cancel words and missing ManageGuild end the session; a save stores exactly the existing parsed ids |
| ChatCapture.SaveError | src/discord/events/painel-fac-ids-chat.ts:64-67 | an error comes out exactly when the handler reaches the save and the store rejects it, and it is the store's error |
| ChatCapture.HandleMessage | src/discord/events/painel-fac-ids-chat.ts:13-84 | the handler changes sessions and config exactly as the capture outcome says, and writes config only on a save the store accepts; a rejected save throws before the session is cleared, so the session stays and the config is as `get` left it |
| ChatCapture.SettleMessage | src/discord/events/painel-fac-ids-chat.ts:20-67 | cancel words end the session first, then a missing ManageGuild, otherwise the typed ids are read; the session ends exactly on cancel, refusal or an accepted save, and a rejected save is returned as the error |
| ChatCapture.SaveTypedIds | src/discord/events/painel-fac-ids-chat.ts:38-67 | the config is written exactly when some typed id exists and the store accepts the save; a rejected save leaves the config as `get` left it and returns the error |
| ChatCapture.SavedIdsAreExistingSnowflakes | src/discord/events/painel-fac-ids-chat.ts:38-67 | saved ids are distinct 17-20 digit guild roles, and saved plus not-found account for every parsed id |
| ChatCapture.SessionEndsOnlyWhenSettled | src/discord/events/painel-fac-ids-chat.ts:20-67 | an error reply or a rejected save keeps the session; cancel, refusal and an accepted save end it; other users are unaffected |
| ChatCapture.SaveWritesOnlyTarget | src/discord/events/painel-fac-ids-chat.ts:64-66 | the save touches only this guild's target list and no other guild |
| ChatCapture.PreviewOf | src/discord/events/painel-fac-ids-chat.ts:74-79 | a preview shows the first ten entries, and is marked truncated exactly when there are more |
| ChatCapture.Report | src/discord/events/painel-fac-ids-chat.ts:69-83 | the reply counts the saved ids and lists not-found and ignored ids only when there are some |
| PanelResponder.Refusal | src/discord/responders/painel.ts:22-35 | outside a guild the panel answers "no guild", otherwise a missing ManageGuild is refused |
| PanelResponder.SelectKey | src/discord/responders/painel.ts:37-61 | an authorised user's key is accepted exactly when it is known |
| PanelResponder.Refresh | src/discord/responders/painel.ts:336-347 | refresh reads the config and shows its first panel page |
| PanelResponder.EditFacIds | src/discord/responders/painel.ts:63-90 | editing FAC ids restarts this user's capture session and shows the current list |
| PanelResponder.EditFacIdsRestartsCapture | src/discord/responders/painel.ts:69-70 | clear-then-start leaves a live three-minute session for the user and leaves other users' sessions alone |
| PanelResponder.NormalizedLinksWellFormed | src/functions/fac.ts:450-477 | normalised links have distinct keys, all taken from the stored entries, each with clean ids |
| PanelResponder.SetLinkWellFormed | src/discord/responders/painel.ts:165-168 | updating one link keeps links clean and keys distinct |
| PanelResponder.StoredLinksUnique | src/database/schemas/guild-config.ts:15-19 | links with distinct keys are stored as a map with unique keys |
| PanelResponder.CleanIdsReadBack | src/functions/settings.ts:129-133 | a clean id list normalises to itself |
| PanelResponder.NormalizeKeepsEntry | src/functions/settings.ts:145-150 | an entry with ids is kept at its place in the normalised links |
| PanelResponder.StoredLinksReadBack | src/functions/settings.ts:127-153 | storing clean links and normalising them again gives back the same links |
| PanelResponder.LinkedConfig | src/discord/responders/painel.ts:165-168 | linking keeps the stored map's keys unique and changes no other setting |
| PanelResponder.LinkedConfigReadBack | src/discord/responders/painel.ts:152-171 | after linking, the FAC role resolves to the selected ramo roles and every other FAC role keeps its link |
| PanelResponder.LinkRamo | src/discord/responders/painel.ts:144-181 | an empty selection or unknown FAC role changes nothing; otherwise exactly this FAC role's link is saved, and a rejected save answers with its error and leaves the document as read |
| PanelResponder.SelectRamoFac | src/discord/responders/painel.ts:118-142 | the ramo step opens exactly for a configured FAC role |
| PanelResponder.OpenRamoLinker | src/discord/responders/painel.ts:92-116 | the linker opens exactly when some configured FAC role exists |
| PanelResponder.SetChannelField | src/discord/responders/painel.ts:191-201 | setting one channel key changes that channel only |
| PanelResponder.SetChannel | src/discord/responders/painel.ts:183-211 | an unknown key changes nothing; otherwise exactly that channel is saved, and a rejected save answers with its error and leaves the document as read |
| PanelResponder.SetRoleList | src/discord/responders/painel.ts:255-287 | setting one role-list key changes that list only |
| PanelResponder.SetRole | src/discord/responders/painel.ts:239-288 | a list key stores the deduplicated selection; verificado stores the first selected role, and an empty verificado selection changes nothing; a rejected save answers with its error and leaves the document as read |
| PanelResponder.RoleKeysSplit | src/functions/settings.ts:65 | the role keys are the three list keys plus verificado |
| PanelResponder.RoleListStoresSelection | src/discord/responders/painel.ts:255-287 | a stored role list holds every selected role once and nothing else |
| PanelResponder.ResetFac | src/discord/responders/painel.ts:309-327 | reset-all clears every FAC setting and keeps the lite settings |
| PanelResponder.ResetAll | src/discord/responders/painel.ts:290-334 | reset-all updates the existing document or creates a default one |
| PanelResponder.ResetOfDefaultIsDefault | src/discord/responders/painel.ts:296-327 | resetting a freshly created default document changes nothing, so the first `get` before `updateOne` does not change the end state |
| PanelResponder.ResetLeavesFacUnconfigured | src/discord/responders/painel.ts:309-327 | after a reset, every FAC setting is reported missing |
| PanelResponder.Publish | src/discord/responders/painel.ts:367-380 | the stored panel message is reused exactly when it is in the same channel and still found; otherwise a new one is posted |
| PanelResponder.PublishPanel | src/discord/responders/painel.ts:349-386 | publishing records the panel's channel and message in the config; a failed `send` of a new message saves nothing and answers with its error; a rejected save answers with its error and leaves the document as read |
| PanelResponder.RepublishReusesMessage | src/discord/responders/painel.ts:367-380 | publishing again to the same channel reuses the recorded message |
| PanelResponder.PublishElsewherePosts | src/discord/responders/painel.ts:367-380 | publishing to another channel always posts a new message |
| FacLitePanelResponder.SetLiteChannelField | src/discord/responders/fac-lite-painel.ts:74-77 | setting one lite channel changes that channel only and no full-flavour setting |
| FacLitePanelResponder.SetLiteChannel | src/discord/responders/fac-lite-painel.ts:59-87 | an unknown key changes nothing; otherwise exactly that lite channel is saved, and a rejected save answers with its error and leaves the document as read |
| FacLitePanelResponder.SetLiteRoleList | src/discord/responders/fac-lite-painel.ts:162-164 | setting one lite role list changes that list only and no full-flavour setting |
| FacLitePanelResponder.SelectLiteRole | src/discord/responders/fac-lite-painel.ts:89-137 | picking the lite role list starts a capture session; other keys change nothing |
| FacLitePanelResponder.SetLiteRole | src/discord/responders/fac-lite-painel.ts:139-174 | an empty selection changes nothing; otherwise the deduplicated selection is saved under the key, and a rejected save answers with its error and leaves the document as read |
| FacLitePanelResponder.DedupEmptyOnlyForEmpty | src/discord/responders/fac-lite-painel.ts:154-160 | checking the raw selection for emptiness is the same as checking the deduplicated one |
| FacLitePanelResponder.SavedLiteRolesComplete | src/discord/responders/fac-lite-painel.ts:154-164 | a saved lite list holds every selected role once, and that list is no longer reported missing |
| FacLitePanelResponder.LiteRefresh | src/discord/responders/fac-lite-painel.ts:176-188 | refresh reads the config and shows the first lite panel page |
| FacLitePanelResponder.LitePage | src/discord/responders/fac-lite-painel.ts:190-209 | a non-finite page is refused; a finite one shows that clamped panel page |
| FacLitePanelResponder.LitePageClamped | src/functions/fac-lite.ts:294 | the shown page is the requested one, moved to the nearest end when out of range |
| FacLitePanelResponder.ResetFacLite | src/discord/responders/fac-lite-painel.ts:218-230 | lite reset clears the four lite settings and keeps everything else |
| FacLitePanelResponder.LiteResetAll | src/discord/responders/fac-lite-painel.ts:211-237 | lite reset updates an existing document only, and then shows the first page of the (re-read) config |
| FacLitePanelResponder.LiteResetLeavesLiteUnconfigured | src/discord/responders/fac-lite-painel.ts:218-232 | after a lite reset all four lite settings are missing, the panel is one empty page, and the FAC settings are kept |
| FacLitePanelResponder.ResetsAreIndependent | src/discord/responders/painel.ts:309-327 | each reset keeps the other flavour's settings, and the two resets commute |

## Left out

- Discord rendering is not modelled: component builders, notices, colours, labels and custom
  ids, and the editing and deleting of messages. Only the data that decides them is.
- Failures of replies, card edits and log sends after a decision are swallowed in the source.
  The model has no state for them, so they change nothing.
- Console logging, concurrency between handlers and the `setInterval` timer are left out. The
  sweep is the explicit method `ChatSessions.SessionStore.Sweep`.
- Date formatting and the random request-id generator are left out. Generated ids and the
  current time are inputs.
- `FacRules.NormalizeRank`: canonicalisation folds ASCII letters only and removes the
  combining marks U+0300..U+036F, but does not decompose precomposed letters
  (`normalize("NFD")`) or upper-case non-ASCII letters, so "líder" is refused where the
  source accepts it.
- `FacRules.SafeName`: lengths count Unicode scalar values, while JavaScript strings count
  UTF-16 code units. Above U+FFFF the source keeps fewer characters and can split a surrogate
  pair (a name of twenty U+1F600 characters, say); a Dafny `char` cannot hold a lone surrogate.
- `FacRules.BuildFacNickname`: the 32-character limit is counted in Unicode scalar values, not
  UTF-16 code units, for the same reason as `FacRules.SafeName`.
- `Settings.ClampText`: the limit is counted in Unicode scalar values, not UTF-16 code units,
  for the same reason as `FacRules.SafeName`.
- `Text.Upper`: folds ASCII letters only; `toUpperCase` on other letters is not modelled.
- `Text.Lower`: folds ASCII letters only. This is exact for the cancel words, which are ASCII.
- `getGuildMemberFast` and `getTextChannelFast` (src/functions/discord-utils.ts) are not modelled.
  Their answers are inputs.
- Also not modelled: the rendering of the channel and role pickers (the keys they carry are
  checked by `PanelResponder.SelectKey`), and the `deferReply` error handling.
- Store and Discord failures: only the config `save` (in the panels and the chat capture),
  the publish `send`, and the create, card post, card save and reply of the submit flows carry
  fault inputs. A rejected `get`, a rejected `updateOne` (`PanelResponder.ResetAll`,
  `FacLitePanelResponder.LiteResetAll`) and other failed interaction replies are not modelled.
- The rollback `findOneAndUpdate` after a failed card delivery
  (src/discord/responders/fac.ts:285-288, and its lite twin in
  src/discord/responders/fac-lite.ts:211-214) is taken to succeed. If it throws, the source
  leaves the request PENDING with no card, which the invariant `CardedPending` excludes.
- The lite request schema marks `rank` required (src/database/schemas/fac-lite-request.ts:12-16),
  but lite creation (src/discord/responders/fac-lite.ts:338-346) passes no rank, name or game id.
  `FacLiteResponder.LiteSubmitWithoutRankNeverSends` shows the as-written outcome; the corrected
  `FacLiteResponder.SubmitLite` and `FacLiteResponder.LiteSubmitSends` take a registered
  collection whose schema accepts a rankless record, and lite records carry no form.
- `FacLiteResponder.LiteSubmitWithoutRankNeverSends`: requires a fresh first request id.
  `RequestStores.InsertError` reports a duplicate key before the store's own fault, while
  Mongoose validates a document before the unique index is consulted, so in the source a
  colliding first id also ends in the validation error; the model cannot state that case.
- The slash commands and src/database/utils.ts are not part of this model.
- `PanelResponder.ResetLeavesFacUnconfigured`: states that every FAC setting is reported
  missing, not the exact list and order.
- Retention or cleanup of old requests is not part of the source and is not modelled.

## Findings

| source | as written | input that shows it | evidently intended | confidence | as-written member | corrected member |
|---|---|---|---|---|---|---|
| src/discord/responders/fac-lite.ts:338 | lite handlers call `db.facLiteRequests.create/findOneAndUpdate`, but the `db` export (src/database/index.ts:20-25) has no `facLiteRequests`, so every access throws a TypeError | any lite selection that passes the guards, or any lite approve/deny by a reviewer | a `facLiteRequests` collection registered on `db`, so lite requests are created, claimed and decided like FAC ones | not executed | FacLiteResponder.LiteSubmitAsWrittenNeverSends, FacLiteResponder.LiteDecisionAsWrittenNeverApplies | FacLiteResponder.SubmitLite, FacLiteResponder.DecideLite, FacLiteResponder.LiteSubmitSends |
| src/database/schemas/fac-lite-request.ts:12-16 | the lite schema requires `rank`, but the create at src/discord/responders/fac-lite.ts:338-346 passes none, so even with the collection registered validation throws a non-duplicate error, which is rethrown (lines 347-348) | any lite selection that passes the guards (Mongoose validates before the unique index, so a colliding first id fails the same way; the lemma states the fresh-id case) | a lite record the schema accepts without a rank (the lite flow has no form); the corrected members assume such a schema | not executed | FacLiteResponder.LiteSubmitWithoutRankNeverSends | FacLiteResponder.SubmitLite, FacLiteResponder.LiteSubmitSends |

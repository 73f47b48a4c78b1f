# Shurly, modelled in Dafny

A model of the parts of Shurly (a link shortener for organizations) whose correctness rests on more than one
function, with proofs of what those parts promise. Verify it with `dafny verify dfyconfig.toml` (Dafny 4.11).

| file | what it models |
|---|---|
| `Rows.dfy`, `Sorting.dfy`, `Grouping.dfy` | queries over rows: filters, counts, pages, ORDER BY, GROUP BY and sums over groups |
| `Calendar.dfy`, `LocalDays.dfy`, `Zones.dfy` | dates as day numbers, time zones and their midnights, periods cut into days, weeks and months; zones whose clocks change |
| `Analytics.dfy`, `Breakdown.dfy` | a link's and a campaign's series, their breakdowns and cities |
| `Organization.dfy`, `StepDown.dfy` | roles and memberships as whole runs; owners stepping down at once, with row locks |
| `RateLimit.dfy` | the rate limiter's one row a key against the full log of hits |
| `ServiceTokens.dfy`, `AuditPager.dfy` | a service account's tokens over their life; the audit's pages |
| `Orphans.dfy`, `OrphanGroups.dfy` | the codes one edit from a mistyped one; the list of mistyped paths |
| `Domains.dfy`, `BackfillPlaces.dfy`, `Access.dfy` | two data repairs; the link an address names |
| `LinkList.dfy` | managed links, masked destinations and the search over links |
| `Redirect.dfy` | runs of redirects and tracking pixels: the visit cap and the last click |
| `OneTimeSecrets.dfy`, `GoogleSignIn.dfy` | the sign-in's one-time secrets, and which account a Google account opens |

Code that changes rows or fields in place is a class with methods (`Directory`, `Limiter`, `Database`, `Server`,
`Visits`) or a method with a loop, and each method is proved equal to a step function; the properties of runs are
proved about those functions. Code that only computes is functions.

## What is assumed

- SQL tables are sequences or maps of rows; a primary key or unique column is a map's key or a distinctness hypothesis.
- The clock, fresh random ids and secrets, the geolocation database, LIKE's substring search, the mask of a
  destination, hostname normalization, lower-casing and the user-agent parser are parameters: the results hold for
  any of them.
- A time zone is two functions, the wall clock at an instant and the instant of a date's midnight, tied by one
  hypothesis (`Zone.Regular`): the local date never goes back, and a date's midnight is the first instant of that
  date or a later one. Short and long days and skipped dates all fit it.
- SHA-256 and HMAC digests stand for what they digest, as no two secrets share one.
- Runs of redirects, sign-ins, tokens and rate-limit hits read a clock that does not go back.

## Where code and documentation part

- Time zones (`Zones.ChangesAgreeIff`): for a zone whose clocks change any number of times, converted as Python
  converts them, counting between midnights groups visits by local date if and only if no local midnight falls
  strictly between the two readings of the clock at a change. Clocks going from 00:01 back to 23:01, or from 23:30
  on to 00:30, break it (`Zones.AnHourAcrossMidnightDisagrees`); the usual changes do not.
- `_typed_code` says it gives None "when no code could be one edit from it"
  (server/utils/orphans.py:229-230). `Orphans.GivesUpTooSoonIff` gives the exact paths for which that is not so:
  an empty one, one of 65 characters, or one with a single foreign character. `/abc.d` is one edit from `/abcd`
  (`Orphans.GivesUpADot`). A code here has 1 to 64 characters, as `one_edit_away` has it; the application itself
  makes none under 3, so codes of 1 or 2 characters come from imports only.
- Stepping down twice at once: with row locks the organization always keeps an owner, but an owner who asks for two
  roles at once can end at the higher one. Every commit of every interleaving is an allowed single step if and only
  if, at the start, no owner who is not the only one asks for two different lower roles
  (`StepDown.CommitsAreStepsIff`). Then the committed states are a run of single steps
  (`StepDown.CommittedStatesAreARun`); otherwise some interleaving raises a rank (`StepDown.SecondStepDownMayRaise`).
  Without the locks two owners can both leave (`StepDown.WithoutLocksBothLeave`).
- `backfill_campaign_url_domains` leaves what every code names on the default host, as it says; on another host a
  code changes what it names if and only if its row is bound and that host has no link of its own
  (`Domains.RepairKeepsAnotherHostIff`): a single campaign link without a domain is lost to every other host
  (`Domains.AnotherHostLosesACode`).
- The refusal of a service account at a known Google identity (server/utils/google_sign_in.py:97-98) never
  happens: no identity is ever a service account's (part of `GoogleSignIn.Good`, kept by every run).

## Model

| member | source | states |
|---|---|---|
| Calendar.CivilOf | server/utils/local_days.py:115-130 | every day number from 1 is exactly one valid year, month and day of the Gregorian calendar |
| Calendar.CivilOfOrdinal | server/utils/local_days.py:115-130 | a valid year, month and day comes back from its day number: with CivilOf's contract, a bijection |
| Calendar.NextMonthFollows | server/utils/local_days.py:124-127 | the `month // 12`, `month % 12 + 1` arithmetic gives the day after the month's last one, December and leap years included |
| Calendar.MonthIsAnInterval | server/utils/local_days.py:124-127 | the dates before that first day, from any date of the month, are exactly the dates of its month |
| Calendar.MonthLengths | server/utils/local_days.py:123-124 | the twelve months' lengths and leap years, as in RFC 3339 section 5.7 and appendix C |
| Calendar.WeekdaysFollow | server/utils/local_days.py:121-122 | day 1 is a Monday and weekdays follow each other, as RFC 3339 appendix B has them |
| LocalDays.ClockReads | server/utils/local_days.py:66-68 | a local date is the day its wall clock is in, and the hour of an instant the hour its wall clock reads |
| LocalDays.RegularIffAligned | server/utils/local_days.py:61-68 | the hypothesis on zones holds exactly when an instant is at or after a date's midnight just when its local date is that one or later |
| Zones.ChangesAgreeIff | server/utils/local_days.py:61-68 | for every list of changes of the clocks, in order with their readings, the two ways of counting agree on every list of visits if and only if no midnight is strictly inside a change |
| Zones.FarApartIsInOrder | server/utils/local_days.py:61-68 | changes further apart than their sizes are such a list |
| Zones.AnHourAcrossMidnightDisagrees | server/utils/local_days.py:61-68 | an hour back over midnight from 00:01, or on over it from 23:30, makes them disagree, whatever the date and offset |
| LocalDays.Resolve | server/utils/local_days.py:88-109 | which requests name a period; a number of days (30 when none or 0 is given) ends today, and a range starts where asked, ends today at the latest and is 731 days at most |
| LocalDays.Buckets | server/utils/local_days.py:115-130 | the loop ends and its buckets tile the period without gap or overlap, each holding exactly the dates of one day, ISO week or month; each but the last ends on a Sunday or a month's last day |
| LocalDays.OneTiling | server/utils/local_days.py:115-130 | there is only one such tiling |
| LocalDays.TheBucket | server/app/analytics.py:305-316 | `bisect_right(starts, d) - 1` is the one bucket holding d |
| LocalDays.LastDaysCountDates | server/utils/local_days.py:133-152 | the counts between UTC midnights are the visits of each local date, for every regular zone and every list of visits |
| LocalDays.WeeksAreSevenDays | server/app/analytics.py:671-682 | the weekly route's every seventh bound gives the sums of seven consecutive days |
| Analytics.FiltersSplitVisits | server/utils/visit_facets.py:25-30 | the three filters of `_of_type`, by the columns they test, keep exactly the clicks, the opens and the bots of `kind_of`, and split all the visits between them |
| Analytics.Series | server/app/analytics.py:292-334 | every bucket, hour and weekday cell counts its own visits by local time, an hour's those at which the wall clock reads from that hour to the next; the three tables and the totals all add up to the period's visits that are not bots' |
| Analytics.DailySeriesIsLastDays | server/app/analytics.py:292-334 | the daily series, which groups by local date in a loop, gives the very counts SQL makes between midnights |
| Analytics.CoarseBucketsSumDays | server/app/analytics.py:292-334 | a week's or month's bucket is the sum of the daily series over the days it covers |
| Analytics.CampaignIsItsLinks | server/app/analytics.py:205-214 | every bucket, hour and weekday cell of a campaign's series, and both its totals, is the sum of its links' series at that cell |
| Grouping.GroupsLoseNothing | server/app/analytics.py:337-361 | the counts of a GROUP BY sum to the rows counted, for every key and condition |
| Grouping.CountByLabel | server/app/analytics.py:337-361 | groups added up under their labels count, for each label, exactly the rows that have it |
| Breakdown.WhatIsGrouped | server/app/analytics.py:342-357 | which column each table groups by, and which of a user agent's families it names |
| Breakdown.BreakdownFields | server/app/analytics.py:337-368 | the five tables count the visits by their own labels and each sums to the same total, every visit |
| Breakdown.NamingRules | server/app/analytics.py:391-397 | a place without a city is "Unknown"; with one it is named, with its country, when its visits came from at least `min_links` links, and is under "Other cities" when from fewer |
| Breakdown.Cities | server/app/analytics.py:374-411 | the city items sum to every visit, and each city named came from at least `min_links` links |
| Organization.ReachRules | server/utils/organization.py:225-244 | two people can be acted between exactly when both have accounts and memberships of one organization; otherwise which refusal is given |
| Organization.ChangeRoleRules | server/utils/organization.py:253-272 | a role change between people of one organization is allowed exactly by the documented rules: nobody raises themselves, only owners change others, owners step down themselves and not the last one |
| Organization.ChangeRoleRefusals | server/utils/organization.py:247-267 | between colleagues the only refusals are not allowed and last owner, the latter exactly for the only active owner stepping down |
| Organization.TransferRules | server/utils/organization.py:275-283 | who hands over to whom, and why not |
| Organization.RemoveRules | server/utils/organization.py:295-301 | who removes whom, and why not |
| Organization.ChangeRoleWrites | server/utils/organization.py:253-272 | a role change writes that role in the target's membership and changes nothing else; refused, nothing |
| Organization.TransferWrites | server/utils/organization.py:275-292 | a handover makes the target owner and the actor admin and changes nothing else; refused, nothing |
| Organization.RemovalWrites | server/utils/organization.py:295-309 | a removal closes the account and ends the membership and changes nothing else; refused, nothing |
| Organization.JoiningWrites | server/utils/organization.py:157-178 | joining adds a person on the domain without a membership, as a member, or as owner exactly when theirs is the configured address and no active owner is left; it changes nothing else |
| Organization.SignUpWrites | server/utils/organization.py:157-178 | a new account is an open person's and joins exactly when on the domain |
| Organization.PromotionWrites | server/utils/organization.py:192-211 | when the startup makes an owner of whom, and that it changes nothing else |
| Organization.StepKeepsAnOwner | server/utils/organization.py:253-309 | no operation takes an organization's last active owner |
| Organization.RunsKeepAnOwner | server/utils/organization.py:157-309 | once there is an active owner, every state of every run of role changes, handovers, removals, joins and repairs has one, and every member is an open account |
| Organization.RunsRaiseNobody | server/utils/organization.py:157-309 | in a run with no step by an owner and no bootstrap, nobody ends above the rank they began with |
| Organization.OwnersPreventBootstrap | server/utils/organization.py:157-211 | while there is an active owner no step is a bootstrap |
| Organization.RemovedStayOut | server/utils/organization.py:181-211 | a closed account without a membership is never opened or given one by a later step |
| Organization.RemovedForGood | server/utils/organization.py:295-309 | over every run, someone removed has a closed account and no membership at every later state |
| Organization.Directory.ChangeRole | server/utils/organization.py:253-272 | the method's early exits and writes are the step function's outcome and state |
| Organization.Directory.TransferOwnership | server/utils/organization.py:275-292 | the two writes of a handover are one step: the target an owner, the actor an admin |
| Organization.Directory.RemoveMember | server/utils/organization.py:295-309 | a removal closes the account and deletes its membership, or changes nothing |
| Organization.Directory.JoinDefaultOrganization | server/utils/organization.py:157-178 | joining is the step function's |
| Organization.Directory.EnsureMemberships | server/utils/organization.py:181-211 | the startup repair is a run of joins and at most one promotion, so all that holds of runs holds of it |
| StepDown.CommitWrites | server/utils/organization.py:268-272 | a commit writes the role asked for in its user's row alone and lets its locks go, no other |
| StepDown.AbortingChangesNothing | server/utils/organization.py:247-250 | a request may end at any point without a change, letting its locks go |
| StepDown.InterleavingsKeepAnOwner | server/utils/organization.py:125-138 | however the statements of any number of owners' step-downs interleave, row locks taken one by one, every committed state has an active owner |
| StepDown.FinishedHoldNothing | server/utils/organization.py:247-272 | in every interleaving a row is locked only by a step-down still under way |
| StepDown.CommitsAreStepsIff | server/utils/organization.py:247-272 | from any start, every commit of every interleaving is an allowed single step if and only if no owner who is not the only one asks for two different lower roles |
| StepDown.CommittedStatesAreARun | server/utils/organization.py:247-272 | then the committed states are a run of the organization, one allowed role change a commit and in their order |
| StepDown.WithoutLocksBothLeave | server/utils/organization.py:247-250 | without the locks an interleaving of two step-downs leaves no owner |
| StepDown.SecondStepDownMayRaise | server/utils/organization.py:253-272 | from every start with such an owner, an interleaving's last commit is not allowed and raises the owner's rank |
| RateLimit.KeysAreInjective | server/utils/rate_limit.py:96-98 | no two limits and subjects share a key |
| RateLimit.IncrementWrites | server/utils/rate_limit.py:136-159 | an increment counts its key once more in the window, or once in a new one, and purges exactly the other rows idle for an hour before it |
| RateLimit.DeclaredWindows | server/utils/rate_limit.py:52-77 | the hypothesis on limits holds of windows up to an hour, the ones the program declares among them |
| RateLimit.RowCountsWindow | server/utils/rate_limit.py:136-159 | after any run of hits by any mix of limits, purges included, what a key's row counts for the current window is the number of its hits in it |
| RateLimit.Limiter.Hit | server/utils/rate_limit.py:108-118 | a hit's verdict, count and seconds left are those of the log |
| RateLimit.Limiter.Check | server/utils/rate_limit.py:121-133 | a check's verdict is that of the log, and counts nothing |
| RateLimit.CheckThenHit | server/utils/rate_limit.py:108-133 | check says yes exactly when an immediate hit would |
| RateLimit.WindowAllowsN | server/utils/rate_limit.py:101-118 | in a window exactly the first N hits of a key pass |
| RateLimit.StretchAllowsTwiceN | server/utils/rate_limit.py:101-118 | at most 2N pass in any stretch as long as a window |
| RateLimit.TwiceNIsReached | server/utils/rate_limit.py:101-118 | and some log lets 2N pass |
| RateLimit.WaitingReachesAFreshWindow | server/utils/rate_limit.py:101-118 | waiting `retry_after` reaches the next window, with nothing counted yet |
| ServiceTokens.RunsKeepOneOfEach | server/utils/service_accounts.py:354-469 | over every run each account has at most one live active token and one live token in overlap, at every time, and every live token is an open account's |
| ServiceTokens.ValidRules | server/core/models/service_token.py:101-108 | a token is valid exactly when not revoked, before its expiry, and within 24 hours of being replaced |
| ServiceTokens.ReachRules | server/utils/service_accounts.py:105-145 | who reaches which account: an owner, not a service account, the open ones of their organization |
| ServiceTokens.IssueRules | server/utils/service_accounts.py:354-378 | a token is issued exactly for an account reached and with an expiry, if any, in the future |
| ServiceTokens.IssueWrites | server/utils/service_accounts.py:379-410 | an issue notes the active token as replaced, revokes the one in overlap, adds one token, and changes no other |
| ServiceTokens.CreateWrites | server/utils/service_accounts.py:192-228 | an account made is open and of its organization, and changes no other account or token |
| ServiceTokens.RevocationEnds | server/utils/service_accounts.py:438-469 | after a revocation a token is valid, at any time from then, exactly when it was and is another account's or, with `old_only`, was not replaced; nothing else of any token changes |
| ServiceTokens.RevokedForGood | server/utils/service_accounts.py:438-469 | over every run, no token an account had when all were revoked is valid later |
| ServiceTokens.RemovalWrites | server/utils/service_accounts.py:281-295 | a removal ends the account's tokens, closes it and takes it out of the organization, and changes no other account or token |
| ServiceTokens.UseWrites | server/core/auth.py:138-156 | a use is of a valid token of an open account, and writes its time, a minute after the last at the earliest, and nothing else |
| ServiceTokens.RunsAge | server/utils/service_accounts.py:354-469 | over every run a row stays the same token, of the same account and expiry, and its replacement and revocation, once noted, are for good |
| ServiceTokens.RenewalLeavesTwo | server/utils/service_accounts.py:354-435 | at any later point of a run, of an account's tokens up to a renewal only the new one and the one it replaced may be live; until the next step they are, exactly while neither expires nor the overlap ends |
| ServiceTokens.ReplacedEndsNoLater | server/utils/service_accounts.py:354-435 | over every run, whatever the later steps, a replaced token ends within 24 hours of its renewal and never later than it would have |
| ServiceTokens.RemovedNeverAuthenticates | server/utils/service_accounts.py:281-295 | a removed account's tokens never authenticate again, over every later run |
| ServiceTokens.TokenWarnings | server/utils/service_accounts.py:475-490 | only an active token that works is warned about: that it expires soon exactly when it ends within 14 days, that it is unused exactly when 90 days have passed since it was last used, or else made |
| ServiceTokens.AttentionRules | server/utils/service_accounts.py:493-510 | which tokens count: an open account's of the organization, active, ending within 14 days or unused for 90 |
| ServiceTokens.AttentionAtMostAccounts | server/utils/service_accounts.py:493-510 | over every run the attention count is at most the number of open accounts |
| ServiceTokens.Database.IssueToken | server/utils/service_accounts.py:354-435 | the loop over live tokens and the new row are the step function's renewal |
| ServiceTokens.Database.RevokeTokens | server/utils/service_accounts.py:438-469 | revoking ends exactly the live tokens asked for |
| ServiceTokens.Database.RemoveAccount | server/utils/service_accounts.py:281-295 | removing ends every token and closes the account |
| ServiceTokens.Database.Authenticate | server/core/auth.py:128-163 | a token is accepted exactly when it is valid and its account open, and its use noted at most once a minute; addresses, scopes and the rate limit aside |
| AuditPager.PageIsCut | server/utils/service_accounts.py:516-545 | a page with a cursor is the query cut after the last row of an instant; more than `limit` rows only when they share one instant |
| AuditPager.Walk | server/utils/service_accounts.py:516-545 | following the cursor ends, and the pages concatenate to the whole query |
| AuditPager.WalkPagesFit | server/utils/service_accounts.py:516-545 | every page with a cursor holds rows, and one longer than `limit` shares an instant |
| AuditPager.WalkReadsEverything | server/utils/service_accounts.py:516-545 | for every limit from 1 the walk reads, newest first, the events whose organization is the one asked for, and whose account is when one is, each exactly as often as the table holds it, and no other |
| AuditPager.PageHoldsOnlyAsked | server/utils/service_accounts.py:530-545 | every page by itself holds only such events, strictly older than `before`, and its cursor is its last event's time |
| Orphans.OneEditAwayIsExact | server/utils/orphans.py:216-225 | the generated set is exactly the texts of length 1 to 64 within restricted Damerau-Levenshtein distance 1, by its recurrence |
| Orphans.DistanceIsSymmetric | server/utils/orphans.py:216-225 | between texts over the alphabet the distance is the same both ways |
| Orphans.SuggestionsAreMutual | server/utils/orphans.py:216-225 | a code is one edit from another exactly when the other is from it |
| Orphans.OneEditAwaySize | server/utils/orphans.py:216-225 | at most (2n + 1)k + 2n of them for n characters and an alphabet of k |
| Orphans.CodeCharacters | server/utils/orphans.py:26-32 | a code's characters by their ASCII numbers, which of them codes are kept in, and what lower-casing does to each |
| Orphans.TypedCodeRules | server/utils/orphans.py:228-234 | a path is taken for a code exactly when 1 to 64 code characters follow its one slash, and for those, lower-cased where case doesn't matter |
| Orphans.TypedCodeIsACode | server/utils/orphans.py:228-234 | what a path is taken for is a code as codes are kept |
| Orphans.GivesUpTooSoonIff | server/utils/orphans.py:228-234 | a path is given up though a code is one edit from it exactly when it is empty, has one foreign character, or is one character too long |
| Orphans.GivesUpADot | server/utils/orphans.py:228-234 | such as `/abc.d`, one edit from `/abcd` |
| OrphanGroups.WhichHits | server/utils/orphans.py:136-146 | which hits are asked for, shown and hidden, of a hit's time and type |
| OrphanGroups.GroupTells | server/utils/orphans.py:145-147 | a group counts its path's hits; its first and last seen are those of hits, with every other between |
| OrphanGroups.OrderTells | server/utils/orphans.py:148 | the order spelled out on visits, last hit and path |
| OrphanGroups.GroupsAreOrdered | server/utils/orphans.py:143-152 | the groups are strictly in order: most tried, latest hit, path |
| OrphanGroups.GroupsHoldEveryHit | server/utils/orphans.py:143-152 | the groups' visits sum to every hit shown, one group a path |
| OrphanGroups.PagesAreTheGroups | server/utils/orphans.py:143-152 | the groups of the pages, with any limit, concatenate to every group shown, once each and strictly in order |
| OrphanGroups.TotalsAddUp | server/utils/orphans.py:153-178 | totals are over every page, shown and hidden hits are all hits, and the hidden paths are those tried with no hit shown |
| Domains.RepairRules | server/utils/domain.py:112-124 | a row is bound exactly when it is a campaign link without a domain whose code no row of the default domain and no other row without one has |
| Domains.RepairKeepsCodesUnique | server/utils/domain.py:97-127 | the repair keeps a code once on each domain |
| Domains.RepairKeepsTheDefaultHost | server/app/urls.py:1616-1621 | what every code names on the default host stays as it was |
| Domains.RepairKeepsAnotherHostIff | server/app/urls.py:1616-1621 | on another host it stays exactly when no row with the code is bound or the host has its own link; it never gains one |
| Domains.AnotherHostLosesACode | server/app/urls.py:1616-1621 | one campaign link without a domain: every other host served it, and none does after the repair |
| Domains.RepairIsDone | server/utils/domain.py:97-127 | a second repair moves nothing |
| Domains.MovedOrLeft | server/utils/domain.py:120-136 | every campaign link without a domain is moved or counted as left |
| Domains.DefaultIsSettled | server/utils/domain.py:17-41 | after asking for the default domain there is exactly one, and asking again changes nothing |
| Domains.Database.GetOrCreateDefaultDomain | server/utils/domain.py:17-41 | an existing default stays; else the configured hostname's row is promoted, or made |
| Domains.Database.ResolveDomainForHost | server/utils/domain.py:79-94 | a registered host names its domain; any other, the default one |
| Domains.Database.BackfillCampaignUrlDomains | server/utils/domain.py:97-136 | the method is that repair, with the counts of rows moved and left |
| BackfillPlaces.WhatIsCounted | server/tools/backfill_places.py:39-74 | which visits are scanned, unplaced and left as imported, of a visit's own columns |
| BackfillPlaces.FillingOverwritesNothing | server/tools/backfill_places.py:49-59 | a cell changes exactly when it was empty and the place has a value, a city only beside a country that was empty or agrees; nothing is overwritten |
| BackfillPlaces.FilledStaysFilled | server/tools/backfill_places.py:33-75 | a second run changes nothing and counts no cell |
| BackfillPlaces.BatchIsAStretch | server/tools/backfill_places.py:39-46 | a keyset batch is the next stretch of the table, whatever its size |
| BackfillPlaces.Visits.FillGroups | server/tools/backfill_places.py:61-64 | one update for each value writes each row its own value, and counts the rows written |
| BackfillPlaces.Visits.Backfill | server/tools/backfill_places.py:33-75 | for every batch size from 1, the batched, memoised, grouped run ends in the row-by-row fill; its counters are the cells changed; each address is looked up once; a dry run counts the same and writes nothing |
| Access.AnswerRules | server/utils/access.py:51-56 | which links answer an address: with its code, seen by the viewer, on the host asked for when one is |
| Access.AnswersInOrder | server/utils/access.py:226-233 | the link found is the default domain's when one answers, else one without a domain, else the least hostname's, and of equals the oldest, then the least id |
| Access.FindUrlIsTheFirst | server/utils/access.py:136-144 | a link is found exactly when it answers and comes before every other that does, and nothing exactly when none answers |
| Access.FindUrls | server/utils/access.py:197-233 | the bulk lookup gives every address what it names by itself, and leaves out exactly those that name nothing |
| Access.FindOne | server/utils/access.py:136-144 | the single lookup, made through the bulk one, is that function |
| Access.DefaultDomainAnswersFirst | server/utils/access.py:136-144 | without a domain the default domain's answer is given when there is one, another domain's only when there is none |
| LinkList.TruthTables | server/utils/managed.py:132-139 | AND, OR and NOT are SQL's: the lower, the higher, and turned over, with false below unknown below true |
| LinkList.ManagedRules | server/utils/managed.py:39-71 | who manages a link and who reads its destination, of the columns of its row |
| LinkList.KeptIff | server/app/urls.py:610-662 | NULLs and all, the query keeps exactly the links seen, tagged, found and filtered as asked |
| LinkList.ItemTells | server/app/urls.py:179-198 | an item is the link itself with its clicks and manager, its destination masked from those who may not read it |
| LinkList.ManagedClausesAreComplements | server/utils/managed.py:132-139 | the two SQL clauses are never unknown, exact complements, and the rule `is_managed` |
| LinkList.DestinationVisibleIff | server/app/urls.py:209-218 | the SQL condition is true exactly where `sees_destination` is, NULLs included |
| LinkList.TheListTellsNoMore | server/app/urls.py:610-684 | two databases that differ only in destinations read masked, masked alike, give the viewer the same items and total for every search, filter and page |
| LinkList.UnguardedTells | server/app/urls.py:633-646 | without the guard in the search, two such databases can be told apart by the total |
| LinkList.NewestFirstIsOrdered | server/app/urls.py:664-676 | the list is the rows kept, newest first |
| LinkList.ManagedFilterSplits | server/app/urls.py:655-659 | the totals with `exclude` and with `only` sum to the total without the filter |
| Redirect.AnswerRules | server/app/urls.py:1640-1658 | exactly when a redirect answers not found, expired, used up, or leads on |
| Redirect.HitLogs | server/app/urls.py:1696-1752 | what each hit logs: an open always, anyone tracked who is led on, bots as bots; social crawlers, untracked hits and the refused nothing |
| Redirect.EveryOpenIsLogged | server/app/urls.py:1484-1506 | over every run a link's opens grow by the pixel hits on it, and bots' pixel visits by the bots' |
| Redirect.WhoCounts | server/app/urls.py:1696-1752 | a click is exactly a person's tracked ask that leads on |
| Redirect.HitCounts | server/app/urls.py:1640-1752 | a hit adds one click to its link exactly when it leads a person on, and then sets its last click; otherwise it changes neither, on any link |
| Redirect.RunsKeepToTheCap | server/app/urls.py:1652-1658 | no run takes a link's clicks past its cap |
| Redirect.UsedUpStaysUsedUp | server/app/urls.py:1652-1658 | a used-up link leads nobody again and its last click stays |
| Redirect.TheCapIsReached | server/app/urls.py:1640-1752 | of people asking in a link's days, exactly as many are counted as the cap leaves |
| Redirect.NobodyIsLedOutsideItsDays | server/app/urls.py:1640-1650 | hits outside a link's days change neither its clicks nor its last click, whatever else happens |
| Redirect.LatestClickIsLatest | server/app/urls.py:1747-1751 | the latest click is one of the clicks and none is later |
| Redirect.RunsKeepLastClicks | server/app/urls.py:1747-1751 | over every run each link's cached last click is the latest of its clicks in the visits |
| Redirect.OnlyPeopleCount | server/app/urls.py:1469-1512 | leaving opens, bots, social crawlers and untracked hits out of a run changes no click count, no last click and no later answer |
| Redirect.Server.RedirectShortUrl | server/app/urls.py:1583-1759 | the handler's early returns and writes are the step function's answer and state |
| Redirect.Server.TrackingPixel | server/app/urls.py:1469-1512 | the handler's answer and write are the step function's, which logs every open of a link that exists |
| OneTimeSecrets.GivesIff | server/utils/google_sign_in.py:59-85 | a secret gives its value exactly when it was issued with it, not tried since, and has not expired: a purge never deletes one still good |
| OneTimeSecrets.GivesOnce | server/utils/google_sign_in.py:72-85 | of all the times a secret is tried it gives its value once at most |
| GoogleSignIn.RunsSettle | server/utils/google_sign_in.py:88-130 | over every run a subject once linked stays with its account, and so do that account's address and cutoff |
| GoogleSignIn.SubjectOpensItsAccount | server/utils/google_sign_in.py:88-105 | after any run a sign-in with it opens that account, or is refused because it was closed |
| GoogleSignIn.After | server/utils/google_sign_in.py:88-130 | every step keeps identities on accounts there are, one each at most and none a service account's |
| GoogleSignIn.OpenedIsLinked | server/utils/google_sign_in.py:88-130 | whoever is opened, the subject is theirs; a first sign-in opens only an account without an identity; a refusal changes nothing |
| GoogleSignIn.FirstSignIn | server/utils/google_sign_in.py:107-130 | which first sign-ins make an account, and of what; which link or refuse one, by its address but for case; and that no other account is touched |
| GoogleSignIn.LinkingEndsSessions | server/core/auth.py:207-233 | after linking, and over every later run, exactly the sessions issued in the cutoff's second or later are accepted; password and key are gone at once |
| GoogleSignIn.AcceptedForOne | server/core/auth.py:222-226 | a session is accepted for one account at most |
| GoogleSignIn.Database.StartSignIn | server/utils/google_sign_in.py:59-69 | purging the expired states and adding one leaves exactly what the whole history of states leaves |
| GoogleSignIn.Database.TakeCodeVerifier | server/utils/google_sign_in.py:72-85 | a state gives its verifier exactly when it was begun within ten minutes and not tried |
| GoogleSignIn.Database.SignInWithGoogle | server/utils/google_sign_in.py:88-130 | the method is the step function, whichever matching account the query reads |
| GoogleSignIn.Database.IssueLoginCode | server/utils/google_sign_in.py:170-176 | the same for login codes |
| GoogleSignIn.Database.RedeemLoginCode | server/utils/google_sign_in.py:179-191 | a code opens the account it was issued to exactly when issued within the minute, not tried, and the account is an open person's |

## Left out

- HTTP routes, schemas, templates, response headers, the event log and the frontend: no property of their own.
- The MCP server, Google's OpenID calls, the Open Graph fetcher, image decoding, password hashing and JWT signatures: foreign code.
- The zone database itself, and rules for changes without end: a zone has a list of changes, or is any that meets the hypothesis.
- Dates before 1 January of year 1 and after year 9999, where Python's `date` raises.
- Fractions rounded for display (shares and rates) and the display order of breakdown items and cities.
- ServiceTokens.Database.Authenticate: does not model the token's allowed addresses, scopes and rate limit, which refuse a request after the token is accepted; nor its secret and audit rows, which are other entities.
- The rate limiter when its store fails (it lets the request through) and clock reads that cross a window's edge out of order.
- Concurrency other than owners stepping down: handovers, removals, token issue and the cap's check take no lock and are modelled one at a time.
- `did_you_mean`: the query that looks the generated codes up; `typo_hits`: its filter is a parameter of the orphan groups.
- The order of links created at the same instant, which SQL leaves open: the list keeps the table's.
- Redirect rules, forwarded parameters, previews and what a social crawler is answered: they change no visit and no link.
- Changes of a link's cap or days during a run of redirects: both are fixed there.
- The profile a Google sign-in starts, and joining the organization at sign-in, which is the organization's own step.
- The removal of an account's API key when a member is removed.
- Tags, reserved codes, favicons, IP truncation, CSV export and housekeeping.

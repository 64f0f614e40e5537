# La Morada client logic in Dafny

This project models the pure logic beneath the La Morada Angular client. It
does not model the HTTP wrappers or the form templates. It covers:

- the optimistic **shadow cart** and the cart page that composes it;
- the psychologist's **weekly availability**: `HH:MM` slots, the interval merge, the day-name tables, validation and the read-only view;
- the **appointment** time helpers;
- **session and identity**:
  - JWT payload decoding and the login endpoint fallback chain;
  - the auth snapshot and the route guard;
  - the owner checks of the post, post-editor and podcast pages;
- the **validators and formatters** of sign-up, profile editing, the psychologist directory, the article list, payment and checkout.

Each source file becomes one module, built from immutable datatypes and
pure functions. Some helpers are shared between modules:

- `Wrappers`: `Option`.
- `Text`:
  - JavaScript's whitespace set and `trim`;
  - ASCII case mapping;
  - `split`/`join` and `split(/\s+/)`;
  - decimal rendering;
  - an order-keeping `Filter`.
- `Names`: truthiness of optional strings, and `filter(Boolean).join(' ')` over name parts.
- `Intervals`: the sort-and-sweep merge of half-open minute intervals.
- `HourMinute`: `toMin` and `toHHmm`.

Everything the browser or the server supplies is a parameter of the function that reads it:

- storage contents and HTTP outcomes;
- the clock, as an hour and a minute plus a `later` predicate;
- `atob` followed by `JSON.parse`, as a `Decoder`;
- `new URL`, as a `UrlParser`;
- the profile endpoint's answer;
- the confirmation dialog, as a boolean.

Money is an integer count of the smallest unit.

Where the code and its own comments disagree, the model follows the code:

- `labelDay` returns lower-case accented labels, although the page's comment promises "Lunes, Martes".
- `persist` stores a role or name only when it is truthy, not merely non-null.
- The profile page's `fullName` fallback `u?.name` can never fire, because a truthy name is already one of the joined parts.

## Model

| member | source | states |
|---|---|---|
| Cart.LineId | src/app/services/cart.service.ts:35 | the compared id is the record's `_id` or the bare string, and is missing exactly for a missing `product_id` |
| Cart.IsCartProduct | src/app/services/cart.service.ts:35-37 | true exactly for a product reference that is neither missing nor a bare id string |
| Cart.LoadShadow | src/app/services/cart.service.ts:66-80 | no stored entry gives the empty shadow; a stored one keeps its owner, with missing lines and total read as empty and 0 |
| Cart.LoadOfStore | src/app/services/cart.service.ts:66-105 | loading what `saveShadow` wrote gives the saved shadow back |
| Cart.GetPrice | src/app/services/cart.service.ts:82-89 | the record's price when non-zero, else the line's flat price |
| Cart.Qty | src/app/services/cart.service.ts:92 | a line's quantity with 0 counted as 1 |
| Cart.TotalConcat | src/app/services/cart.service.ts:91-94 | the total of two line lists is the sum of their totals, so each line contributes price times quantity |
| Cart.TotalSingle | src/app/services/cart.service.ts:91-94 | one line's total is its price times its quantity |
| Cart.TotalNonNegative | src/app/services/cart.service.ts:91-94 | lines with non-negative prices and quantities never total below zero |
| Cart.Save | src/app/services/cart.service.ts:96-105 | saving keeps owner and lines and sets the total to the recomputed sum |
| Cart.NormQty | src/app/services/cart.service.ts:179 | the requested quantity is at least 1, kept when it is at least 1, else 1 |
| Cart.FindLine | src/app/services/cart.service.ts:183-186 | the index of the first line with the id; none exactly when no line has it |
| Cart.FromHint | src/app/services/cart.service.ts:194-201 | a record built from a hint carries the id and the hint's price or 0 |
| Cart.MergeHint | src/app/services/cart.service.ts:203-211 | each field of an existing record wins when non-empty (price when positive); the hint only fills gaps |
| Cart.MergeHintKeepsComplete | src/app/services/cart.service.ts:203-211 | a record with every field filled and a positive price is unchanged by any hint |
| Cart.MergeHintIdempotent | src/app/services/cart.service.ts:203-211 | enriching twice with one hint is enriching once |
| Cart.NewLine | src/app/services/cart.service.ts:216-226 | a new line carries the requested id and the normalised quantity |
| Cart.AddProduct | src/app/services/cart.service.ts:174-240 | an existing id's first line gains `q` in place and no line is added; a new id appends exactly one line at the end; other lines, owner and recomputed total follow |
| Cart.AddProductIds | src/app/services/cart.service.ts:183-227 | every line keeps its id, and the added id is present afterwards |
| Cart.AddProductUnique | src/app/services/cart.service.ts:183-227 | adding keeps at most one line per id |
| Cart.AddExistingLine | src/app/services/cart.service.ts:188-190 | without a hint, adding a present id only raises that line's quantity by `q` |
| Cart.AddExistingTotal | src/app/services/cart.service.ts:188-190 | adding a present id raises the total by that line's price times `q` |
| Cart.AddNewBareTotal | src/app/services/cart.service.ts:214-229 | a new id without a hint enters bare and without a price, so the total does not change |
| Cart.Without | src/app/services/cart.service.ts:284-287 | the kept lines are exactly those whose id differs from the argument |
| Cart.WithoutConcat | src/app/services/cart.service.ts:284-287 | removal distributes over concatenation, so the kept lines stay in order |
| Cart.WithoutAbsent | src/app/services/cart.service.ts:284-287 | removing an id no line has leaves the lines unchanged |
| Cart.RemoveProduct | src/app/services/cart.service.ts:282-289 | no line with the id remains, the rest stay in order, the owner is kept and the total recomputed |
| Cart.RemoveProductUnique | src/app/services/cart.service.ts:282-289 | removing keeps at most one line per id |
| Cart.RemoveAfterAdd | src/app/services/cart.service.ts:174-289 | removing an id undoes adding it, whatever the add did to that id's line |
| Cart.RemoveIdempotent | src/app/services/cart.service.ts:282-289 | removing twice is removing once |
| Cart.ClearCart | src/app/services/cart.service.ts:297-299 | no lines, total 0, same owner |
| Cart.ById | src/app/services/cart.service.ts:125-126 | every catalog id is a key, and each key maps to a catalog entry with that id |
| Cart.FromCatalog | src/app/services/cart.service.ts:137-144 | the hydrated record carries the catalog's id and price |
| Cart.HydrateLine | src/app/services/cart.service.ts:114-148 | a bare-id or priceless line the catalog knows becomes that catalog record; any other line is unchanged |
| Cart.Hydrate | src/app/services/cart.service.ts:112-152 | lines are rewritten one by one in place, the total is recomputed only if some line changed, and nothing changes otherwise |
| Cart.HydrateKeeps | src/app/services/cart.service.ts:128-148 | hydration keeps every id, quantity and flat price, and hydrated lines need nothing more |
| Cart.HydrateIdempotent | src/app/services/cart.service.ts:112-152 | hydrating twice with one catalog is hydrating once |
| Cart.HydrateUnique | src/app/services/cart.service.ts:112-152 | hydration keeps at most one line per id |
| Cart.MapServerLine | src/app/services/cart.service.ts:255-267 | a missing quantity becomes 1; a populated object becomes a priced record, a string stays bare, a missing product becomes the empty id |
| Cart.SyncFromServer | src/app/services/cart.service.ts:249-273 | a non-empty server list replaces the lines wholesale and keeps the owner; an empty or failed answer only hydrates |
| Cart.SyncKeepsLines | src/app/services/cart.service.ts:270-273 | an empty or failed answer never drops a line or changes an id |
| CartPage.IdOf | src/app/pages/cart/cart.component.ts:37-39 | the page reads the same id the service compares |
| CartPage.ActionId | src/app/pages/cart/cart.component.ts:55-56 | an action proceeds exactly when the id is present and non-empty |
| CartPage.PriceOf | src/app/pages/cart/cart.component.ts:46-51 | a record's own price (0 if missing) and the flat price only for a bare id |
| CartPage.PriceOfMatchesService | src/app/pages/cart/cart.component.ts:46-51 | the page price equals the service price except for a priceless record, where the page shows 0 and the service uses the flat price |
| CartPage.Inc | src/app/pages/cart/cart.component.ts:54-62 | no id does nothing; otherwise `addProduct(id, 1)` |
| CartPage.IncRaisesByOne | src/app/pages/cart/cart.component.ts:58 | `inc` raises exactly that line's quantity by one, in place |
| CartPage.Remove | src/app/pages/cart/cart.component.ts:98-106 | no id does nothing; otherwise `removeProduct(id)` |
| CartPage.Dec | src/app/pages/cart/cart.component.ts:64-80 | no id does nothing; a quantity of at most 1 removes the line; otherwise remove, then add back one less |
| CartPage.ReAddAppends | src/app/pages/cart/cart.component.ts:70-73 | after a remove, an add without a hint appends one bare line at the end |
| CartPage.DecMovesToEnd | src/app/pages/cart/cart.component.ts:70-73 | `dec` on quantity `q > 1` leaves the other lines in order and one bare line with `q - 1` at the end |
| CartPage.DecDropsFromTotal | src/app/pages/cart/cart.component.ts:70-73 | that bare line has no price, so the total drops the product entirely |
| CartPage.TypedQty | src/app/pages/cart/cart.component.ts:85 | the typed quantity is at least 1, kept when it is at least 1, else 1 |
| CartPage.OnQtyChange | src/app/pages/cart/cart.component.ts:82-96 | no id does nothing; otherwise remove, then add the typed quantity |
| CartPage.QtyChangeMovesToEnd | src/app/pages/cart/cart.component.ts:87-89 | a quantity change leaves one bare line with the typed quantity at the end |
| CartPage.OneLineAfterRewrite | src/app/pages/cart/cart.component.ts:87-89 | after a quantity change exactly one line carries the id, and it is the last |
| CartPage.Clear | src/app/pages/cart/cart.component.ts:108-114 | clearing leaves no lines, total 0 and the same owner |
| HourMinute.NumberOf | src/app/pages/availability/availability-manage.component.ts:116 | `Number` of a run of digits is its decimal value |
| HourMinute.NumberOfPadded | src/app/pages/availability/availability-manage.component.ts:116 | whitespace around the digits and a leading `+` do not change the number `Number` reads |
| HourMinute.ToMinOfDigits | src/app/pages/availability/availability-manage.component.ts:115-118 | two runs of digits around one colon read as hours times 60 plus minutes, whatever their widths |
| HourMinute.ToMin | src/app/pages/availability/availability-manage.component.ts:115-118 | text without a `:` has no minute value |
| HourMinute.ReadFields | src/app/pages/availability/availability-manage.component.ts:116-117 | fewer than two fields give no value; two digit fields give hours times 60 plus minutes |
| HourMinute.HHMMFields | src/app/pages/availability/availability-manage.component.ts:128 | text matching `^\d{2}:\d{2}$` splits at the colon into its two digit pairs, each read back as its number |
| HourMinute.ToMinOfParts | src/app/pages/availability/availability-manage.component.ts:115-118 | any text splitting at `:` into exactly two digit runs reads as hours times 60 plus minutes |
| HourMinute.ToMinOfHHMM | src/app/pages/availability/availability-manage.component.ts:115-118 | `toMin` reads a well-formed `HH:MM` as hours times 60 plus minutes |
| HourMinute.ToMinOfToHHmm | src/app/pages/availability/availability-manage.component.ts:115-123 | `toMin(toHHmm(m)) = m` for every minute count |
| HourMinute.ToHHmm | src/app/pages/availability/availability-manage.component.ts:119-123 | the text ends in a colon followed by the two-digit minute remainder |
| HourMinute.ToHHmmShape | src/app/pages/availability/availability-manage.component.ts:119-123 | `toHHmm` is well-formed exactly below 6000 minutes, and then names that minute with a field below 60 |
| HourMinute.ToHHmmOfToMin | src/app/pages/availability/availability-manage.component.ts:115-123 | `toHHmm(toMin(s)) = s` for zero-padded `HH:MM` with minutes below 60 |
| HourMinute.HHMMOrder | src/app/pages/availability/availability-manage.component.ts:132 | for such strings, string `<=` is the order of the minutes they denote |
| Intervals.Insert | src/app/pages/availability/availability-manage.component.ts:163 | insertion into a start-sorted list keeps it sorted and adds exactly one element |
| Intervals.SortByStart | src/app/pages/availability/availability-manage.component.ts:163 | the sort result is sorted by start and a permutation of its input |
| Intervals.DropEmpty | src/app/pages/availability/availability-manage.component.ts:162 | exactly the intervals with end after start are kept |
| Intervals.DropEmptyCovers | src/app/pages/availability/availability-manage.component.ts:162 | dropping empty intervals uncovers no minute |
| Intervals.Sweep | src/app/pages/availability/availability-manage.component.ts:165-169 | the sweep never lengthens its input and keeps at least one segment of a non-empty input |
| Intervals.Merge | src/app/pages/availability/availability-manage.component.ts:160-169 | the merge never lengthens its input and is non-empty whenever some segment is non-empty |
| Intervals.SweepCanonical | src/app/pages/availability/availability-manage.component.ts:165-169 | the sweep of sorted non-empty intervals is sorted, strictly separated, and covers the same minutes |
| Intervals.MergeCanonical | src/app/pages/availability/availability-manage.component.ts:160-169 | the merge is sorted, strictly separated, and covers exactly the minutes of its valid inputs |
| Intervals.CanonicalUnique | src/app/pages/availability/availability-manage.component.ts:160-169 | two canonical lists covering the same minutes are equal |
| Intervals.MergeOrderIndependent | src/app/pages/availability/availability-manage.component.ts:158-171 | the merge does not depend on the order of its input |
| Intervals.MergeIdempotent | src/app/pages/availability/availability-manage.component.ts:158-171 | merging twice is merging once |
| Intervals.CoversRemove | src/app/pages/availability/availability-manage.component.ts:153-155 | removing an interval from a canonical list uncovers exactly its minutes |
| AvailabilityManage.Norm | src/app/pages/availability/availability-manage.component.ts:105-113 | a well-formed time keeps its hour and rounds its minutes down to 00 or 30; anything else is unchanged |
| AvailabilityManage.NormIdempotent | src/app/pages/availability/availability-manage.component.ts:105-113 | rounding twice is rounding once |
| AvailabilityManage.SegOf | src/app/pages/availability/availability-manage.component.ts:161-162 | a non-empty segment comes from two readable times and carries their minute values; an unreadable time gives an empty segment, which the filter drops |
| AvailabilityManage.Segs | src/app/pages/availability/availability-manage.component.ts:161 | one segment per slot, in order |
| AvailabilityManage.Render | src/app/pages/availability/availability-manage.component.ts:170 | one slot per segment |
| AvailabilityManage.MergeSlots | src/app/pages/availability/availability-manage.component.ts:158-171 | the merged list is never longer than the input |
| AvailabilityManage.SegsOfRender | src/app/pages/availability/availability-manage.component.ts:170 | rendered intervals parse back to themselves |
| AvailabilityManage.MergeSlotsDisjoint | src/app/pages/availability/availability-manage.component.ts:158-171 | merged slots are sorted, strictly separated, and cover exactly the input slots' minutes |
| AvailabilityManage.MergeSlotsIdempotent | src/app/pages/availability/availability-manage.component.ts:158-171 | `mergeSlots` is idempotent |
| AvailabilityManage.MergeSlotsOrderIndependent | src/app/pages/availability/availability-manage.component.ts:158-171 | `mergeSlots` does not depend on input order |
| AvailabilityManage.FirstBadDay | src/app/pages/availability/availability-manage.component.ts:187-189 | the first day outside the plain Spanish names, or none exactly when all are allowed |
| AvailabilityManage.FirstBadSlot | src/app/pages/availability/availability-manage.component.ts:191-194 | the first slot failing the format or order check, or none exactly when all pass |
| AvailabilityManage.Validate | src/app/pages/availability/availability-manage.component.ts:174-196 | rules checked in order: no days, no slots, bad day name, bad format, end not after start; no error exactly when all pass |
| AvailabilityManage.Save | src/app/pages/availability/availability-manage.component.ts:198-210 | only a valid document is sent: translated days and disjoint slots covering the input minutes; otherwise the validation error |
| AvailabilityManage.MergedSlotsPass | src/app/pages/availability/availability-manage.component.ts:158-196 | merged slots within one day pass the per-slot checks |
| AvailabilityManage.MergedEmpty | src/app/pages/availability/availability-manage.component.ts:158-176 | the merge is empty exactly when the input covers no minute |
| AvailabilityManage.SaveOfSelection | src/app/pages/availability/availability-manage.component.ts:198-210 | a week-ordered day selection is sent when some minute is covered, and rejected for no slots otherwise |
| AvailabilityManage.AddSlot | src/app/pages/availability/availability-manage.component.ts:125-141 | a malformed or non-increasing slot only sets its error; otherwise the slot merges in and both inputs clear |
| AvailabilityManage.AddSlotCoverage | src/app/pages/availability/availability-manage.component.ts:137 | a successful add keeps slots disjoint and adds exactly the new slot's minutes |
| AvailabilityManage.AddPreset | src/app/pages/availability/availability-manage.component.ts:143-146 | a preset merges in without checks, keeping slots disjoint and adding its minutes |
| AvailabilityManage.RemoveSlot | src/app/pages/availability/availability-manage.component.ts:153-156 | the slot at the index goes and the others keep their order; an out-of-range index changes nothing |
| AvailabilityManage.RemoveSlotCoverage | src/app/pages/availability/availability-manage.component.ts:153-156 | removing a slot keeps disjointness and uncovers exactly that slot's minutes |
| AvailabilityManage.ToggleDay | src/app/pages/availability/availability-manage.component.ts:94-100 | membership of the toggled day flips, others stay, and the result is in week order without repeats |
| AvailabilityManage.ToggleDayTwice | src/app/pages/availability/availability-manage.component.ts:94-100 | toggling the same weekday twice restores a week-ordered selection |
| AvailabilityManage.LoadKeyIsNormDayKey | src/app/pages/availability/availability-manage.component.ts:71-80 | the inline chain of `ngOnInit` agrees with `normDayKey` |
| AvailabilityManage.LoadDays | src/app/pages/availability/availability-manage.component.ts:71-83 | loaded days are week-ordered and are exactly the weekdays some raw entry normalises to |
| AvailabilityManage.Load | src/app/pages/availability/availability-manage.component.ts:68-86 | the loaded state has ordered days, disjoint slots covering the stored minutes, and the document id when it is non-empty |
| AvailabilityManage.DeleteAll | src/app/pages/availability/availability-manage.component.ts:228-236 | the delete is requested exactly for a stored id and a confirmation; a missing id is an error |
| DayUtils.StripConcat | src/app/shared/day-utils.ts:19 | stripping diacritics distributes over concatenation |
| DayUtils.FoldKeyIsFolded | src/app/shared/day-utils.ts:19 | the fold result is diacritic-free, lower-case and trimmed |
| DayUtils.FoldKeyOfFolded | src/app/shared/day-utils.ts:19 | folding a folded key changes nothing |
| DayUtils.NormDayKey | src/app/shared/day-utils.ts:17-21 | empty stays empty; a folded Spanish name becomes its English key; anything else comes back folded |
| DayUtils.NormDayKeyIdempotent | src/app/shared/day-utils.ts:17-21 | `normDayKey` is idempotent |
| DayUtils.DaySpellingsNormalise | src/app/shared/day-utils.ts:1-4 | any case, accents and padding of a weekday's plain Spanish or English name give its English key |
| DayUtils.WeekdaysDistinct | src/app/shared/day-utils.ts:15 | there are seven distinct English keys |
| DayUtils.SpanishTablesTotal | src/app/shared/day-utils.ts:5-15 | both Spanish tables are defined on exactly the seven keys |
| DayUtils.AccentedTableInjective | src/app/shared/day-utils.ts:5-8 | no two weekdays share an accented label |
| DayUtils.PlainTableInjective | src/app/shared/day-utils.ts:10-13 | no two weekdays share a plain name |
| DayUtils.TablesRoundTrip | src/app/shared/day-utils.ts:1-15 | both Spanish spellings of every weekday translate back to the same key |
| DayUtils.DaysWhere | src/app/pages/availability/availability.component.ts:48 | filtering the week gives the keys satisfying the test, in week order, without repeats |
| DayUtils.WeekOrderedUnique | src/app/pages/availability/availability.component.ts:48 | a week-ordered list is fixed by its members |
| AvailabilityView.OrderedDaysEn | src/app/pages/availability/availability.component.ts:44-49 | the view's days are in week order, without repeats, and are the weekdays among the normalised entries |
| AvailabilityView.NormKeysMember | src/app/pages/availability/availability.component.ts:46 | a key is among the normalised entries exactly when some raw entry normalises to it |
| AvailabilityView.OrderedDaysMatchLoad | src/app/pages/availability/availability.component.ts:44-49 | the view page and the editor read a day list into the same ordered list |
| AvailabilityView.LabelDay | src/app/pages/availability/availability.component.ts:52 | a weekday's label translates back to it; other input is returned as it is |
| AvailabilityView.DaysJoined | src/app/pages/availability/availability.component.ts:55-57 | no shown day gives the empty text; one shown day gives its label alone |
| AvailabilityView.DaysJoinedRecovers | src/app/pages/availability/availability.component.ts:55-57 | the summary splits back on commas into one label per day, each translating back to its day |
| AvailabilityView.DaysJoinedEmpty | src/app/pages/availability/availability.component.ts:55-57 | the summary is empty exactly when no weekday was recognised |
| AvailabilityView.HasData | src/app/pages/availability/availability.component.ts:59-61 | true exactly when both the day list and the slot list are non-empty |
| AvailabilityView.ShownDaysHaveData | src/app/pages/availability/availability.component.ts:44-61 | a shown day implies a non-empty day list, and with a non-empty slot list the page has data |
| AvailabilityView.HasDataWithoutDays | src/app/pages/availability/availability.component.ts:44-61 | raw entries count, so a document of unknown days has data but an empty summary |
| TimeUtils.DaysEsKeys | src/app/core/utils/time.ts:2-10 | the keys are the plain names of the weekdays in week order |
| TimeUtils.DaysEsLabels | src/app/core/utils/time.ts:2-10 | the labels are the accented names with a capital initial |
| TimeUtils.BuildHourOptions | src/app/core/utils/time.ts:13-19 | one option per hour from start to end inclusive, none when start exceeds end |
| TimeUtils.HourOptionShape | src/app/core/utils/time.ts:16 | an hour below 100 renders as a well-formed `HH:MM` naming its first minute |
| TimeUtils.HourOptionsIncrease | src/app/core/utils/time.ts:15-16 | options strictly increase, both as times and as strings |
| TimeUtils.DefaultHourOptions | src/app/core/utils/time.ts:13 | the default range starts at `06:00` and ends at `20:00` |
| TimeUtils.OffsetSuffix | src/app/core/utils/time.ts:30-33 | the sign is `+` exactly for a non-negative offset |
| TimeUtils.OffsetSuffixRoundTrip | src/app/core/utils/time.ts:30-33 | the suffix determines the offset: sign, then hours and minutes of its magnitude |
| Appointment.FirstAbove | src/app/pages/appointment/appointment.component.ts:89 | the first quarter above the minute, or none exactly when every quarter is at most the minute |
| Appointment.NextQuarter | src/app/pages/appointment/appointment.component.ts:85-97 | an `HH:MM` time on the clock with a quarter minute, later in the hour than `m` or else the next hour at `:00` |
| Appointment.NextQuarterIsCeiling | src/app/pages/appointment/appointment.component.ts:85-97 | the result is the next multiple of 15 minutes, modulo a day |
| Appointment.CeilingGap | src/app/pages/appointment/appointment.component.ts:85-97 | that next quarter mark is strictly later than now and at most 15 minutes later, counting across midnight |
| Appointment.NextQuarterRollsOver | src/app/pages/appointment/appointment.component.ts:92-94 | from minute 45 on, the next full hour; 23:45 and later wrap to `00:00` |
| Appointment.IsFuture | src/app/pages/appointment/appointment.component.ts:116-123 | false whenever the date or the time is empty |
| Appointment.UpdateMinTime | src/app/pages/appointment/appointment.component.ts:100-113 | `00:00` for another day; for today the next quarter, which replaces a non-empty time that is not in the future |
| Appointment.UpdateMinTimeNeverPast | src/app/pages/appointment/appointment.component.ts:103-109 | for today the chosen time ends up empty, in the future, or the minimum |
| Appointment.FindPsych | src/app/pages/appointment/appointment.component.ts:168 | the first entry with the id, or none exactly when no entry has it |
| Appointment.PsychName | src/app/pages/appointment/appointment.component.ts:166-170 | the matching entry's non-empty name, else `Cualquiera` |
| Appointment.PsychNameOfUnique | src/app/pages/appointment/appointment.component.ts:166-170 | with distinct ids, the selected entry's name |
| Appointment.PreviewDate | src/app/pages/appointment/appointment.component.ts:172-177 | an empty date previews as empty |
| Appointment.PreviewDateOfIso | src/app/pages/appointment/appointment.component.ts:172-177 | `YYYY-MM-DD` previews as `DD/MM/YYYY` |
| Appointment.PreviewDateRoundTrip | src/app/pages/appointment/appointment.component.ts:172-177 | splitting the preview on `/` and reversing recovers the parts |
| Appointment.PreviewDateUndashed | src/app/pages/appointment/appointment.component.ts:175-176 | a date without dashes fills the missing parts with `undefined` |
| SignUp.PasswordStrength | src/app/auth/sign-up/sign-up.component.ts:106-117 | empty scores 0 with `–`; otherwise 25 per criterion met, within 0..100, with the threshold label |
| SignUp.PolicyIsStrong | src/app/auth/sign-up/sign-up.component.ts:16 | a password the policy accepts scores 100 with `Fuerte` |
| SignUp.PolicyEdges | src/app/auth/sign-up/sign-up.component.ts:16 | `PASSWORD_POLICY` passes eight characters of all four kinds and refuses seven, or a `.` as the symbol |
| SignUp.StrongButRejected | src/app/auth/sign-up/sign-up.component.ts:16 | a password with a `.` can score 100 and still fail the policy |
| SignUp.LabelsOfScores | src/app/auth/sign-up/sign-up.component.ts:114-115 | each label covers exactly one reachable score |
| SignUp.StrengthLabel | src/app/auth/sign-up/sign-up.component.ts:114-115 | "Fuerte" exactly from 90, "Media" exactly from 60 below 90, "Muy débil" exactly below 30 |
| SignUp.PolicyTrimmed | src/app/auth/sign-up/sign-up.component.ts:16 | trimming leaves a policy-valid password unchanged |
| SignUp.PasswordsMatch | src/app/auth/sign-up/sign-up.component.ts:19-23 | no error exactly when the trimmed values agree |
| SignUp.MatchIgnoresPadding | src/app/auth/sign-up/sign-up.component.ts:20 | surrounding whitespace on the password does not matter |
| SignUp.PatternsTrimmed | src/app/auth/sign-up/sign-up.component.ts:26-28 | every valid phone is a valid user id, and trimming changes neither |
| SignUp.IdPhoneEdges | src/app/auth/sign-up/sign-up.component.ts:26-28 | `USER_ID_REGEX` passes five id characters and refuses three or a space; `PHONE_REGEX` passes seven digits and refuses six or a dash |
| SignUp.FirstRule | src/app/auth/sign-up/sign-up.component.ts:150-159 | the text of the first matching rule, or none exactly when no rule matches |
| SignUp.TranslateBackendMessage | src/app/auth/sign-up/sign-up.component.ts:149-161 | the first matching rule's text; otherwise the message itself, or the default for an empty message |
| SignUp.RuleTextsDistinct | src/app/auth/sign-up/sign-up.component.ts:151-160 | the rule texts differ from each other and from the default |
| SignUp.TranslateIgnoresCase | src/app/auth/sign-up/sign-up.component.ts:150 | the lower-cased message selects the same rule |
| SignUp.TranslateSelects | src/app/auth/sign-up/sign-up.component.ts:150-159 | when rule `k` is the first to match, its text is returned |
| SignUp.EmailBeforePassword | src/app/auth/sign-up/sign-up.component.ts:151-154 | a message naming an invalid email is translated as such even if it also names the password |
| ProfileEdit.ValidatePasswordPair | src/app/pages/profile-edit/profile-edit.component.ts:67-85 | required when either trimmed field is empty, mismatch when both are present but differ, and no error exactly for an equal, strong pair |
| ProfileEdit.StrongPairPasses | src/app/pages/profile-edit/profile-edit.component.ts:76-84 | a trimmed, strong password typed twice passes |
| ProfileEdit.PolicyPassesEditor | src/app/pages/profile-edit/profile-edit.component.ts:76-84 | every password the registration policy accepts passes here too |
| ProfileEdit.EditorLooserThanPolicy | src/app/pages/profile-edit/profile-edit.component.ts:80 | a password with a `.` passes here but not the registration policy |
| ProfileEdit.RoleOf | src/app/pages/profile-edit/profile-edit.component.ts:92 | only `patient` and `psychologist` survive; anything else is unknown |
| ProfileEdit.RoleOfName | src/app/pages/profile-edit/profile-edit.component.ts:92 | a known role's own name maps back to it |
| ProfileEdit.HasIdentity | src/app/pages/profile-edit/profile-edit.component.ts:93 | identity exactly for a present, non-empty id |
| ProfileEdit.BuildPayload | src/app/pages/profile-edit/profile-edit.component.ts:145-155 | text fields trimmed; `age` only for a number; `specialty` only for psychologists |
| ProfileEdit.Submit | src/app/pages/profile-edit/profile-edit.component.ts:138-158 | no identity redirects to sign-up; an invalid form is marked; a bad pair alerts; otherwise the payload is sent |
| ProfileEdit.SentPayloadValid | src/app/pages/profile-edit/profile-edit.component.ts:138-158 | whatever is sent has trimmed fields and a valid, repeated password |
| ProfileEdit.PayloadOfTrimmedForm | src/app/pages/profile-edit/profile-edit.component.ts:145-150 | trimming the form first changes nothing that is sent |
| AuthService.TryAt | src/app/services/auth.service.ts:67-87 | endpoints are tried in order from `i`; every skipped one answered without a token or with 404/405; not-found exactly when all do; the result comes from the last one tried |
| AuthService.Login | src/app/services/auth.service.ts:58-90 | between one and five endpoints are tried, as a prefix of the listed order |
| AuthService.FirstTokenWins | src/app/services/auth.service.ts:73-79 | the first endpoint answering with a token is the login, and nothing after it is tried |
| AuthService.OtherErrorStops | src/app/services/auth.service.ts:81-85 | an error other than 404/405 is propagated and stops the chain |
| AuthService.ServiceDecode | src/app/services/auth.service.ts:27-34 | the second segment is translated to standard base64 and decoded; a token without a dot gives nothing |
| AuthService.ClaimedRole | src/app/services/auth.service.ts:42 | the payload's role, else the nested user's role, else none |
| AuthService.ClaimedName | src/app/services/auth.service.ts:43 | the payload's name, else the nested user's name, else none |
| AuthService.PutIfTruthy | src/app/services/auth.service.ts:44-45 | a key is written only for a truthy value |
| AuthService.Persist | src/app/services/auth.service.ts:37-48 | nothing is written without a browser or a token; otherwise the token, and role and name when truthy; no other key changes |
| AuthService.PersistRole | src/app/services/auth.service.ts:44 | the stored role is the claimed one when truthy, otherwise what was there |
| AuthService.PersistName | src/app/services/auth.service.ts:43-45 | the stored name is the claimed one when truthy, otherwise what was there |
| AuthService.LoginStoresToken | src/app/services/auth.service.ts:78 | a successful login stores the winning token |
| AuthState.SetAuth | src/app/core/state/auth-state.service.ts:46-55 | each field is taken from the partial when present, otherwise kept |
| AuthState.SetAuthCannotClear | src/app/core/state/auth-state.service.ts:49-52 | no present field can be cleared through `setAuth` |
| AuthState.SetAuthIdempotent | src/app/core/state/auth-state.service.ts:46-55 | applying a partial twice is applying it once; the empty partial changes nothing |
| AuthState.TokenDoesNotLogIn | src/app/core/state/auth-state.service.ts:49-50 | a token alone leaves the snapshot logged out |
| AuthState.Clear | src/app/core/state/auth-state.service.ts:58-60 | always the logged-out snapshot |
| AuthState.RefreshFromStorage | src/app/core/state/auth-state.service.ts:28-43 | outside a browser nothing changes; otherwise logged in exactly for a non-empty token, with empty role and name read as none |
| AuthState.RefreshForgetsCurrent | src/app/core/state/auth-state.service.ts:38-42 | the refreshed snapshot does not depend on the one it replaces |
| AuthState.RefreshAfterPersist | src/app/core/state/auth-state.service.ts:38-42 | refreshing after a login reports logged in with the persisted token |
| Jwt.UrlToStd | src/app/core/utils/jwt.ts:8 | a character-wise translation of the same length |
| Jwt.UrlToStdProperties | src/app/core/utils/jwt.ts:8 | no `-` or `_` remains, other characters are unchanged, and translating back restores the input |
| Jwt.PadCount | src/app/core/utils/jwt.ts:10 | fewer than four, making the length a multiple of four, zero exactly for a multiple of four |
| Jwt.Pad | src/app/core/utils/jwt.ts:10 | the text followed by only `=`, up to a multiple of four |
| Jwt.UnpadPad | src/app/core/utils/jwt.ts:10 | removing the padding restores a text that does not end in `=` |
| Jwt.PreparedIsBase64 | src/app/core/utils/jwt.ts:8-10 | a base64url segment becomes standard-alphabet base64 with padding |
| Jwt.DecodeJwt | src/app/core/utils/jwt.ts:2-24 | no token, an empty one or one without a dot gives nothing; otherwise the decoded, prepared second segment |
| Jwt.DecodeCompact | src/app/core/utils/jwt.ts:5-8 | a compact `header.payload.signature` is read from its payload alone |
| Guard.Resolve | src/app/app.routes.ts:37-117 | a declared path is kept; any other ends on `home` |
| Guard.DecodeToken | src/app/guards/auth-role.guard.ts:41-49 | the raw second segment is decoded; a token without a dot gives nothing |
| Guard.Decide | src/app/guards/auth-role.guard.ts:12-38 | the guard's decision for any roles key and sign-in page: no usable token goes to the sign-in page; admitted exactly for a decodable token whose role the key allows when present; a refused role goes to `/unauthorized` |
| Guard.CanActivate | src/app/guards/auth-role.guard.ts:12-38 | no token, and a token that does not decode, redirect to `/login`; admitted exactly for a decodable token whose role is allowed by `roles` when present; `/unauthorized` exactly for a decodable token whose role is refused |
| Guard.NoRouteDeclaresRoles | src/app/app.routes.ts:50-113 | no route declares `roles` |
| Guard.GuardedRoutesDeclareExpectedRoles | src/app/app.routes.ts:50-113 | every guarded route declares `expectedRoles` |
| Guard.AnyDecodableTokenAdmitted | src/app/guards/auth-role.guard.ts:23 | on every route, any decodable token is admitted |
| Guard.PatientOpensScheduleEditor | src/app/app.routes.ts:74-79 | a patient's token opens the psychologist-only schedule editor |
| Guard.LoginRedirectUnrouted | src/app/guards/auth-role.guard.ts:18 | `/login` and `/unauthorized` are not routes and both end on `home` |
| Guard.UrlSafePayloadRejected | src/app/guards/auth-role.guard.ts:43-44 | a payload with `-` or `_` sends the user to `/login` although the shared decoder would read it |
| Guard.CanActivateFixed | src/app/guards/auth-role.guard.ts:12-38 | no token, and a token that does not decode, redirect to `/sign-in`; admitted exactly for a decodable token whose role `expectedRoles` allows; `/unauthorized` exactly for a decodable token whose role it refuses |
| Guard.ExpectedRolesEnforced | src/app/app.routes.ts:50-113 | on guarded routes the corrected guard admits exactly the tokens with a listed role |
| Guard.SignInRedirectRouted | src/app/app.routes.ts:38 | the corrected redirect lands on a declared route |
| PostManage.NormId | src/app/pages/post/post-manage.component.ts:62-66 | none for a missing or blank value, otherwise the trimmed, non-empty value |
| PostManage.NormIdIdempotent | src/app/pages/post/post-manage.component.ts:62-66 | normalising twice is normalising once |
| PostManage.FirstPresent | src/app/pages/post/post-manage.component.ts:72-81 | the first present candidate, none exactly when all are missing |
| PostManage.FirstNormId | src/app/pages/post/post-manage.component.ts:72-81 | the first candidate that normalises to an id, trimmed and non-empty |
| PostManage.ExtractIdFromJwt | src/app/pages/post/post-manage.component.ts:68-85 | no token or an undecodable one gives nothing; otherwise the first non-blank claim among `sub`, `_id`, `id`, `user_id`, `user._id`, `user.id`, `userId` |
| PostManage.SubWins | src/app/pages/post/post-manage.component.ts:73 | a non-blank `sub` decides, whatever the other claims say |
| PostManage.BlankSubSkipped | src/app/pages/post/post-manage.component.ts:73-74 | a missing or blank `sub` is skipped for `_id` |
| PostManage.OwnerId | src/app/pages/post/post-manage.component.ts:93-98 | the normalised string author or the normalised `_id` of a populated author |
| PostManage.IsOwner | src/app/pages/post/post-manage.component.ts:100-103 | true exactly when the signed-in id is present and non-empty and equals the post's owner id |
| PostManage.OwnerIgnoresPadding | src/app/pages/post/post-manage.component.ts:100-103 | a padded author id still matches the token id |
| PostManage.ToggleActive | src/app/pages/post/post-manage.component.ts:152-167 | for a non-owner or a failed request nothing changes; otherwise only that post's `active` flips |
| PostManage.ToggleTwice | src/app/pages/post/post-manage.component.ts:152-167 | toggling twice restores the list |
| PostManage.WithoutPost | src/app/pages/post/post-manage.component.ts:176 | exactly the posts with a different `_id` are kept |
| PostManage.Remove | src/app/pages/post/post-manage.component.ts:169-185 | for a non-owner, a refused confirmation or a failed request nothing changes; otherwise every post with that `_id` goes |
| PostManage.WithoutPostKeepsOrder | src/app/pages/post/post-manage.component.ts:176 | removal keeps the others in order and leaves a list without the id unchanged |
| PostManage.RemoveDropsPost | src/app/pages/post/post-manage.component.ts:169-178 | a successful delete leaves no post with the id and shortens the list |
| PostEditor.ResolveIdentity | src/app/pages/post/post-editor.component.ts:67-77 | no token gives nothing; otherwise the first truthy of `user_id`, `id`, `_id`, `user._id`, `user.id`, and the error exactly when the role is not psychologist or the token is unreadable |
| PostEditor.IdPrioritiesDiffer | src/app/pages/post/post-editor.component.ts:73 | with both `sub` and `user_id`, the manager and the editor pick different ids from one token |
| PostEditor.IsMine | src/app/pages/post/post-editor.component.ts:79-83 | true exactly when both ids are truthy and equal as they are |
| PostEditor.PaddingSeparatesPages | src/app/pages/post/post-editor.component.ts:79-83 | a padded author id the manager accepts is not mine in the editor |
| PostEditor.RemoveSends | src/app/pages/post/post-editor.component.ts:208-210 | the delete is sent exactly for my post after confirmation |
| PostEditor.TemplateText | src/app/pages/post/post-editor.component.ts:103-115 | every template is non-empty and neither begins nor ends with whitespace |
| PostEditor.Joiner | src/app/pages/post/post-editor.component.ts:117 | a blank line exactly after non-empty text that does not end a line |
| PostEditor.InsertTemplate | src/app/pages/post/post-editor.component.ts:116-118 | the result is trimmed |
| PostEditor.InsertIntoEmpty | src/app/pages/post/post-editor.component.ts:116-118 | into an empty editor the template goes in alone |
| PostEditor.InsertAfterText | src/app/pages/post/post-editor.component.ts:116-118 | after trimmed text, the template follows a blank line and nothing is lost |
| PostEditor.Pct | src/app/pages/post/post-editor.component.ts:129 | never above 100, and 100 once the length reaches the target |
| PostEditor.PctMonotone | src/app/pages/post/post-editor.component.ts:129-134 | the bars never go back as text grows |
| PostEditor.Words | src/app/pages/post/post-editor.component.ts:130 | zero exactly for whitespace-only content |
| PostEditor.WordsAreWords | src/app/pages/post/post-editor.component.ts:130 | a count of `n` means `n` non-empty, whitespace-free words |
| PostEditor.UpdateCounters | src/app/pages/post/post-editor.component.ts:123-135 | lengths as typed, both bars at most 100, the title bar full at 160, and the word count |
| Podcast.FromToken | src/app/pages/podcast/podcast.component.ts:63-72 | no token gives no id and no flag; an id read from the token is non-empty |
| Jwt.TruthyRole | src/app/pages/podcast/podcast.component.ts:67 | `role` when truthy, else the nested user's role when truthy; never an empty role |
| Podcast.ResolveIdentityAndRole | src/app/pages/podcast/podcast.component.ts:59-82 | outside a browser nothing; a psychologist token with an id decides alone; otherwise a truthy profile `_id` replaces the id; psychologist exactly when the token or the profile says so |
| Podcast.TokenSufficesForPsychologist | src/app/pages/podcast/podcast.component.ts:75 | then the profile's answer changes nothing |
| Podcast.ProfileOverridesPatientId | src/app/pages/podcast/podcast.component.ts:75-78 | for a non-psychologist token the profile's id replaces the token's |
| Podcast.Sanitize | src/app/pages/podcast/podcast.component.ts:101 | only id characters remain, and exactly the input's id characters |
| Podcast.SanitizeFixpoints | src/app/pages/podcast/podcast.component.ts:101 | a string is unchanged exactly when it is already clean, so sanitising is idempotent |
| Podcast.LooksBareEdges | src/app/pages/podcast/podcast.component.ts:107 | eleven id characters pass the bare-id test and five do not; a dot or slash fails it, and so does `http` among id characters |
| Podcast.BuildEmbedUrl | src/app/pages/podcast/podcast.component.ts:100-103 | the embed prefix followed by the sanitised id |
| Podcast.EmbedUrlRoundTrip | src/app/pages/podcast/podcast.component.ts:100-103 | a clean id reads back from its embed URL |
| Podcast.ExtractYouTubeId | src/app/pages/podcast/podcast.component.ts:105-115 | a bare id is kept; otherwise `v`, else the path of a `youtu` host, else the trimmed input, which is also kept when parsing fails |
| Podcast.BareIdKept | src/app/pages/podcast/podcast.component.ts:106-107 | a padded bare id comes back unpadded whatever the URL parser says, and embeds unchanged |
| Podcast.IsOwner | src/app/pages/podcast/podcast.component.ts:118-121 | true exactly when both ids are present, non-empty and equal |
| Podcast.RemoveSends | src/app/pages/podcast/podcast.component.ts:153-155 | the delete is sent exactly for the owner after confirmation |
| Podcast.NoOwnerWithoutIds | src/app/pages/podcast/podcast.component.ts:118-121 | nobody owns an episode without a creator, and an anonymous visitor owns nothing |
| Podcast.OwnerAgreesWithEditor | src/app/pages/podcast/podcast.component.ts:118-121 | the podcast owner test and the post editor's `isMine` give the same answer on the same ids |
| Profile.FullName | src/app/pages/profile/profile.component.ts:64-66 | the joined truthy name parts; without any, the email when truthy, else the id |
| Profile.FullNameFallsBackToEmail | src/app/pages/profile/profile.component.ts:64-66 | without name parts the email is the name; with a truthy name the email is never used |
| Profile.Specialty | src/app/pages/profile/profile.component.ts:68 | `specialty`, else `speciality`, else empty |
| Profile.ToCard | src/app/pages/profile/profile.component.ts:63-79 | each card field is its source field, with a missing id printed as `undefined` and a missing phone as empty |
| Profile.Query | src/app/pages/profile/profile.component.ts:100 | empty exactly for a blank filter |
| Profile.ApplyFilter | src/app/pages/profile/profile.component.ts:99-112 | every card for a blank query; otherwise exactly the matching cards |
| Profile.ApplyFilterConcat | src/app/pages/profile/profile.component.ts:105-111 | the search keeps the order of the cards |
| Profile.ApplyFilterIdempotent | src/app/pages/profile/profile.component.ts:99-112 | searching the result again changes nothing |
| Profile.SpecialtySearchable | src/app/pages/profile/profile.component.ts:68-108 | a non-blank query found in the lower-cased specialty, from either spelling, keeps the card in the view |
| Profile.InitialsBase | src/app/pages/profile/profile.component.ts:115 | the full name, else the email, else the id |
| Profile.Initials | src/app/pages/profile/profile.component.ts:114-118 | at most two letters |
| Profile.InitialsOfWords | src/app/pages/profile/profile.component.ts:114-118 | none exactly for a blank base; otherwise one upper-cased letter per word up to two, the first from the base's first character |
| PostList.ShownPosts | src/app/pages/post/post-list.component.ts:44-45 | no answer shows nothing; otherwise exactly the posts not marked inactive |
| PostList.ShownPostsKeepsOrder | src/app/pages/post/post-list.component.ts:45 | the filter keeps the server's order and leaves a list without inactive posts unchanged |
| PostList.AuthorName | src/app/pages/post/post-list.component.ts:54-60 | empty for a bare or missing author; otherwise the joined truthy name parts, empty exactly when there are none |
| PostList.AuthorNameSplits | src/app/pages/post/post-list.component.ts:57 | an author line splits back on spaces into the truthy name parts |
| Names.Truthy | src/app/pages/post/post-list.component.ts:57 | present exactly for a non-empty string |
| Names.PresentParts | src/app/pages/profile/profile.component.ts:65 | the truthy parts, each non-empty; none exactly when no part is truthy |
| Names.JoinNames | src/app/pages/profile/profile.component.ts:65 | empty exactly when no part is truthy |
| Names.JoinNamesSplits | src/app/pages/profile/profile.component.ts:65 | splitting the join of space-free parts on spaces gives the truthy parts back |
| Payment.OnSave | src/app/pages/payment/payment.component.ts:89-101 | an invalid form is only marked; otherwise the body with the number's whitespace removed and the other fields as typed |
| Payment.SentNumberAsTyped | src/app/pages/payment/payment.component.ts:31 | the number pattern refuses whitespace, so the number sent is the one typed |
| Payment.CardNumberEdges | src/app/pages/payment/payment.component.ts:31 | `^\d{13,19}$` passes 13 and 19 digits and refuses 12, 20 and a grouped number |
| Payment.FieldEdges | src/app/pages/payment/payment.component.ts:31-34 | the expiry needs two digits each side of `/`, the CVV three or four digits, the name two characters; a form is valid only with every field valid |
| Payment.LastFour | src/app/pages/payment/payment.component.ts:85 | the last four characters, or all of a shorter string |
| Payment.Mask | src/app/pages/payment/payment.component.ts:83-87 | empty for a missing or empty number; otherwise the masked prefix and the last four characters |
| Payment.MaskHidesAllButLastFour | src/app/pages/payment/payment.component.ts:83-87 | numbers with the same last four look the same masked |
| Payment.AfterCreate | src/app/pages/payment/payment.component.ts:113-116 | a created document with an id goes first; otherwise the list is unchanged |
| Payment.OnDelete | src/app/pages/payment/payment.component.ts:128-151 | no id, no confirmation or a failed request leaves the list; otherwise exactly the documents with another id remain |
| Payment.DeleteUndoesCreate | src/app/pages/payment/payment.component.ts:113-142 | deleting a freshly created method with a new id restores the list |
| Checkout.Mask | src/app/pages/checkout/checkout.component.ts:41-45 | whitespace removed; four or fewer characters shown as they are, longer ones as the masked prefix and the last four |
| Checkout.MasksAgree | src/app/pages/checkout/checkout.component.ts:41-45 | for a longer number without whitespace both pages show the same |
| Checkout.ShortNumbersDiffer | src/app/pages/checkout/checkout.component.ts:43 | a short number is masked on the payment page but shown in full at checkout |
| Text.SplitWsWords | src/app/pages/post/post-editor.component.ts:130 | `split(/\s+/)` of a text without trailing whitespace gives whitespace-free pieces, all non-empty after the first |

## Left out

- HTTP, rxjs, timers and `localStorage` are not modelled. Their results are parameters: server outcomes, stored values and profile answers.
- Spinner, message and alert flags are not modelled.
- `atob`, UTF-8 decoding and `JSON.parse` are one `Decoder` parameter. JWT signatures are not checked by the source either.
- `new URL` is a `UrlParser` parameter.
- The clock is an hour and a minute. `isFuture`'s comparison with `Date.now()` is a `later` parameter.
- Prices are integers, so `toFixed(2)` rounding is not modelled.
- HourMinute.NumberOf: `Number` in `toMin` is modelled for digit runs with surrounding whitespace, for blank text (0) and for a leading `+`. A `-` sign, a fraction, an exponent, a hex prefix or `Infinity` are read as NaN although `Number` accepts them, because the model has no floats or negative minutes; `mergeSlots` then drops the slot the way `NaN > NaN` does.
- PostEditor.Pct: uses exact half-up rounding of `len / target * 100`. The floating-point product can differ for some lengths.
- Profile.Initials: uses ASCII case mapping. JavaScript's `toUpperCase` can turn one letter into two (`ß` becomes `SS`), so the two-letter bound holds only for the model.
- Lengths count characters, not UTF-16 code units. An emoji such as the ones in the editor templates counts once.
- Unicode normalisation is a fixed table of accented Latin letters and combining marks, not the full NFD decomposition.
- `ES2EN[k] ?? k` for keys inherited from `Object.prototype` (`constructor`, `toString`) is not modelled.
- The profile directory's sort by `localeCompare` is not modelled, because it needs locale collation.
- Claims that are not strings (numbers, objects) are not modelled, and neither is `String()` of them.
- Drafts of the post editor, the preview bars of the availability editor and `computePreview` are not modelled. They are display-only.
- The payment list refresh after a save or a delete is not modelled. It replaces the list with the server's answer.
- The backend-error extraction (`extractMsg`) and the error-message branches of each request are not modelled. They only choose banner texts.
- Cart.Hydrate: the catalog is a parameter. A failed or timed-out catalog request is the empty catalog, as the source's `catchError(() => of([]))` makes it. The background timing of the request is not modelled.
- AuthService.TryAt: a request that throws something other than an HTTP status is modelled as a status outside 404/405.

## Findings

| source | as written | input that shows it | evidently intended | confidence | as-written member | corrected member |
|---|---|---|---|---|---|---|
| src/app/guards/auth-role.guard.ts:23 | the guard reads `route.data['roles']`, but every guarded route declares `expectedRoles` (src/app/app.routes.ts:55), so the role check never fires | a patient's decodable token on `availability/manage` is admitted | admit only tokens whose role is listed under `expectedRoles` | high (not executed) | Guard.AnyDecodableTokenAdmitted | Guard.ExpectedRolesEnforced |
| src/app/guards/auth-role.guard.ts:18 | without a token, or with an undecodable one, the guard navigates to `/login`, which no route declares, so the wildcard sends the user home | no stored token, on any guarded route | send the user to the sign-in page, `sign-in` | medium (not executed) | Guard.LoginRedirectUnrouted | Guard.SignInRedirectRouted |

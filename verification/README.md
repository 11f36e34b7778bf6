# Chore Harmony Board — a verified model of its chore logic

Chore Harmony Board is a household chore app. Members of a household share
a board of chores. Each chore has:

- a category and an icon;
- a priority, and a 1–7 "hate points" rating;
- an optional due date and an optional repetition (daily, weekly, monthly).

Completing a repeating chore schedules its next occurrence. This project
models, in Dafny, the decisions behind the screens and the data hook:

- completing a chore, with the recurrence rollover. There are two
  variants: the persisted hook and the in-memory dashboard;
- the list updates: edit in place, append with defaults, and the open/done
  partition of the board;
- the statistics block: counts, rates, the average, per-category sums and
  the most hated category;
- the small state machines: the sort selector, the category filter chips,
  the assignee toggle and the category/icon picker;
- the validators and payload builders: sign-up validation, the chore
  dialog's submit, and household creation with its two writes;
- the display decisions: hate-level colour bands, the overdue predicates,
  category colours with their fallbacks, avatar initials, the avatar cap
  with its overflow counter, and the login code.

The app has two chore shapes, and the model keeps both:

- `Chores.Task` is the status-based shape (`todo | in-progress | done`).
  The dashboard, the chore dialog and the list card use it.
- `Chores.Chore` is a persisted `ChoreRow` joined with its assignments.
  It carries `isCompleted` and `hatePoints`. The statistics, the board and
  the board card read these fields, although the chore type they import does
  not declare them.

A `Partial<Chore>` is a `Chores.Patch`. In a patch every key is a
`Base.Field`: either absent, or present with a value. This lets the model
tell "key missing" from "key holding `undefined`", and object spread honours
that difference.

Writes to the backend are transitions over an abstract store
(`ChoreStore.Db`, `Welcome.HomeDb`). Whether each write succeeds is an input
(`WriteResult`). The clock (`now`, a `Calendar.Date` or a `Calendar.Moment`)
and generated ids (`freshId`) are parameters.

Dates are proleptic Gregorian `(year, month, day)` triples. Month
arithmetic follows JavaScript's `setMonth`: a day the target month lacks
overflows into the next month, so one month after January 31 of a common
year is March 3.

Three facts about the code shape the model:

- **Successor assignees.** The successor gets no assignments: the insert at
  `src/hooks/useChores.tsx:190-204` writes none
  (`ChoreStore.Successor`, `ChoreStore.ToggleComplete`).
- **Sorting and category filtering.** No comparator or category filter over
  chores exists. The code holds only the sort selector's state and the list
  of active filters, and only those are modelled.
- **The hate-points range.** The 1–7 range is not enforced. Statistics that
  need it take it as a hypothesis (`Stats.HatePointsInRange`).

Modules, one per source component, plus shared building blocks:

| file | module | models |
|---|---|---|
| base.dfy | `Base` | optional values, partial-object keys, `trim`, `filter(x => x !== v)` |
| calendar.dfy | `Calendar` | dates, `setDate`/`setMonth` arithmetic, "due date before now" |
| numerals.dfy | `Numerals` | `toString` and `parseInt` on integers |
| names.dfy | `Names` | `split(' ')`, `join`, avatar initials |
| chores.dfy | `Chores` | both chore shapes, recurrence, the category→icon table |
| use_chores.dfy | `ChoreStore` | `useChores`: loading, `addChore`, `toggleComplete` |
| dashboard.dfy | `Dashboard` | status change, save from the dialog, filter list |
| stats_section.dfy | `Stats` | the statistics block |
| chore_board.dfy | `Board` | the open/done columns |
| chore_sorting.dfy | `Sorting` | the sort selector |
| filter_chips.dfy | `FilterChips` | chips and the "add filter" dropdown |
| assignee_section.dfy | `Assignees` | member selection, names, avatar text |
| signup_form.dfy | `Signup` | sign-up validation and submit |
| chore_modal.dfy | `Modal` | the add/edit chore dialog |
| category_section.dfy | `CategoryPicker` | the category select and the icon grid |
| hate_points_section.dfy | `HatePoints` | the hate-level radio group |
| chore_card.dfy | `Card` | the list card |
| board_chore_card.dfy | `BoardCard` | the board card |
| welcome_page.dfy | `Welcome` | household creation, login code, header avatar |

## Model

| member | source | states |
|---|---|---|
| Base.Trim | src/components/Welcome/WelcomePage.tsx:31 | `trim()` yields a slice of the input whose prefix and suffix outside it are all whitespace; the result is empty exactly when every character is whitespace, and otherwise starts and ends with a non-space, so exactly the leading and trailing whitespace is removed |
| Base.Without | src/components/Dashboard/Dashboard.tsx:149-151 | `filter(x => x !== v)` removes every copy of `v` and keeps every other element with its multiplicity; a list without `v` is returned unchanged |
| Base.WithoutConcat | src/components/Dashboard/AssigneeSection.tsx:19-20 | removal keeps relative order: filtering a concatenation filters each part |
| Calendar.AddMonth | src/hooks/useChores.tsx:185-187 | `setMonth(getMonth() + 1)` gives a valid date strictly later that keeps the day-of-month, unless the day overflowed into the first three days of the month after |
| Calendar.AddMonthIsDayOffset | src/hooks/useChores.tsx:185-187 | one month later is exactly the first of the next month plus `day − 1` days, so an overflowing day rolls into the month after |
| Calendar.MonthAfterJan31CommonYear | src/hooks/useChores.tsx:185-187 | one month after Jan 31 is Mar 3 in a common year and Mar 2 in a leap year, not the end of February |
| Calendar.AddDaysAdditive | src/hooks/useChores.tsx:179-184 | adding `a` days and then `b` days is adding `a + b` days |
| Calendar.PastDue | src/components/Dashboard/ChoreCard.tsx:42 | `new Date(due) < new Date()` with the due date at its midnight: a due date of an earlier day is past, one of a later day is not, and today's is past once any time has elapsed since midnight |
| Numerals.ParseIntToString | src/components/Dashboard/HatePointsSection.tsx:33-34 | `parseInt` reads back every integer written in plain decimal, negative ones included; JavaScript's `toString` writes plain decimal below 10^21 in magnitude, which covers the 1–7 levels read here |
| Names.JoinSplit | src/components/Dashboard/ChoreCard.tsx:99 | joining the pieces of `split(' ')` with spaces gives back the name |
| Names.Initials | src/components/Dashboard/ChoreCard.tsx:99 | `split(' ').map(n => n[0]).join('')`, shared by every avatar: exactly the characters that are not spaces and start the name or follow a space, so never longer than the name and never a space |
| Names.InitialsAreWordStarts | src/components/Dashboard/ChoreCard.tsx:99 | the initials are exactly the characters that are not spaces and start the name or follow a space; empty pieces add nothing |
| Names.InitialsEmptyIffBlank | src/components/Dashboard/AssigneeSection.tsx:54 | a name yields no initial exactly when it consists of spaces only |
| Names.InitialsOfWords | src/components/Dashboard/ChoreCard.tsx:99 | the initials of space-free words joined with spaces are the first characters of the non-empty words, in order |
| Chores.NextDue | src/hooks/useChores.tsx:176-188 | the rollover date is computed from now: it is strictly after now for daily, weekly and monthly (the next day for daily), and is not after now for `none` |
| Chores.RecurrenceText | src/components/Dashboard/ChoreCard.tsx:17 | the recurrence is written 'none', 'daily', 'weekly' or 'monthly', and it is 'none' exactly for no repetition |
| Chores.RecurrenceTextInjective | src/components/Dashboard/ChoreCard.tsx:17 | each recurrence has its own text |
| Chores.Repeats | src/components/Dashboard/BoardChoreCard.tsx:83 | `chore.recurring && chore.recurring !== 'none'`: the recurrence is set and its text is not 'none' |
| Chores.RepeatBadge | src/components/Dashboard/ChoreCard.tsx:85-90 | the list card's repeat badge (the board card's is `BoardCard.RepeatBadge`) is drawn iff the chore repeats, and then shows the recurrence's own text, never 'none' |
| Chores.WeeklyIsSevenDailySteps | src/hooks/useChores.tsx:182-184 | the weekly rollover equals seven daily rollovers |
| Chores.TableIcon | src/components/Dashboard/ChoreModal.tsx:57-64 | a name has an icon exactly when it is one of the six known categories, and then it is that category's table icon |
| Chores.MergeLaws | src/components/Dashboard/Dashboard.tsx:95 | spreading a full copy of a chore gives that chore whatever it is spread over; spreading an empty patch changes nothing; spreading is idempotent |
| ChoreStore.Normalize | src/hooks/useChores.tsx:61-64 | every fetched row becomes a chore whose assignments are its `chore_assignments`, or empty when those are missing; missing data gives an empty list |
| ChoreStore.Reload | src/hooks/useChores.tsx:34-64 | without a user or household the list is empty; a failed query keeps the previous list; otherwise the normalised rows |
| ChoreStore.AddChore | src/hooks/useChores.tsx:100-134 | refuses without a user or household; a rejected insert changes nothing and returns its error; otherwise appends the draft with the current household, the current creator and a fresh id, and assigns it to the current user if that insert succeeds |
| ChoreStore.SetCompletion | src/hooks/useChores.tsx:159-168 | completing sets the flag and `completed_at = now`, un-completing clears both; `completed_at` is set exactly when the chore is completed; nothing else changes |
| ChoreStore.Successor | src/hooks/useChores.tsx:176-204 | the successor has a fresh id, is not completed and has no `completed_at`; it is due exactly one period after now (`Chores.NextDue`: the next day, seven days on, or the same day of the next month with overflow), whatever its old due date was, hence strictly after now; it copies title, description, category, icon, hate points, priority, recurrence, household and creator |
| ChoreStore.ToggleComplete | src/hooks/useChores.tsx:155-212 | an unknown id gives 'Chore not found' with no write; a failed update returns its error with no successor; otherwise every row with the id is updated, and a successor is appended only when a repeating chore is being completed and its insert succeeds; the insert's failure is not reported |
| ChoreStore.CompleteThenUncomplete | src/hooks/useChores.tsx:159-168 | completing and then un-completing leaves the row as it was, except not completed and without `completed_at` |
| ChoreStore.ToggleKeepsOtherRows | src/hooks/useChores.tsx:155-212 | a toggle never removes a row, leaves rows of other chores untouched, and un-completing never adds a row |
| Dashboard.Successor | src/components/Dashboard/Dashboard.tsx:117-136 | the in-memory successor differs from the chore only in a fresh id, status `todo` and a due date exactly one period after now (`Chores.NextDue`), not after the old due date, hence strictly after now |
| Dashboard.Spawned | src/components/Dashboard/Dashboard.tsx:116-141 | every scheduled successor is that of a chore with the id that repeats while the new status is `done`, and every such chore's successor is scheduled; nothing is scheduled exactly when no chore qualifies; the previous status is not consulted |
| Dashboard.SpawnedCount | src/components/Dashboard/Dashboard.tsx:116-141 | one successor per qualifying chore, counted by position, so chores sharing the id each get their own |
| Dashboard.StatusChange | src/components/Dashboard/Dashboard.tsx:114-147 | chores with the id get the new status and nothing else; every other chore keeps its place; only `done` can append successors |
| Dashboard.StatusChangeUniqueIds | src/components/Dashboard/Dashboard.tsx:114-147 | with unique ids, marking a repeating chore `done` appends exactly one successor, even when it was already `done`; any other change appends nothing |
| Dashboard.NewTask | src/components/Dashboard/Dashboard.tsx:98-109 | a new chore takes the dashboard's fresh id and the data's fields; missing or empty ones take the defaults, and a missing recurrence is 'none', so a new chore never rolls over unless the data says so; assignees fall back to the current user only when the key is absent |
| Dashboard.SaveChore | src/components/Dashboard/Dashboard.tsx:92-111 | when editing, the chore with the edited id is overridden in place by the data and nothing else moves; otherwise a new chore is appended at the end |
| Dashboard.SaveUnchangedIsIdentity | src/components/Dashboard/Dashboard.tsx:93-96 | saving an existing chore's full data over it leaves the list unchanged when ids are unique |
| Dashboard.AddFilter | src/components/Dashboard/Dashboard.tsx:153-155 | adding a filter appends it at the end and keeps the rest |
| Dashboard.RemoveFilter | src/components/Dashboard/Dashboard.tsx:149-151 | removing a filter deletes every copy of it and keeps the count of every other filter |
| Dashboard.AddThenRemoveFilter | src/components/Dashboard/Dashboard.tsx:149-155 | adding a filter that was not active and removing it again restores the list |
| Stats.CompletedCount | src/components/Dashboard/StatsSection.tsx:14 | the completed count is at most the total; it is 0 iff nothing is completed, and the total iff everything is |
| Stats.CompletedIsDoneColumn | src/components/Dashboard/StatsSection.tsx:14 | the completed count equals the length of the board's done column, the list of chores whose completion flag is set |
| Stats.PendingCount | src/components/Dashboard/StatsSection.tsx:15 | pending plus completed is the total |
| Stats.CompletionRate | src/components/Dashboard/StatsSection.tsx:16 | the rate is 0 for no chores, otherwise completed/total × 100 exactly; it always lies in [0, 100] |
| Stats.AverageHate | src/components/Dashboard/StatsSection.tsx:19-20 | the average is 0 for no chores, otherwise total hate/total exactly; with every rating in 1–7 it lies in [1, 7] |
| Stats.HighHateCount | src/components/Dashboard/StatsSection.tsx:21 | at most the total, and 0 exactly when no chore has 5 or more hate points |
| Stats.HighHateCountIsHighHateChores | src/components/Dashboard/StatsSection.tsx:21 | the count equals the number of positions holding a chore with 5 or more hate points |
| Stats.CategoryTotals | src/components/Dashboard/StatsSection.tsx:24-27 | one entry per category carried by some chore, no category twice, and no entries for no chores |
| Stats.TotalsAreCategorySums | src/components/Dashboard/StatsSection.tsx:24-27 | each entry's value is the sum of the hate points of the chores in that category |
| Stats.TotalsAddUp | src/components/Dashboard/StatsSection.tsx:19-27 | the per-category sums add up to the total hate points |
| Stats.TotalsInFirstAppearanceOrder | src/components/Dashboard/StatsSection.tsx:24-29 | the entries appear in the order their categories first occur among the chores |
| Stats.FirstMax | src/components/Dashboard/StatsSection.tsx:29-30 | the entry a descending stable sort puts first: maximal, and strictly greater than every entry before it |
| Stats.FirstMaxWins | src/components/Dashboard/StatsSection.tsx:24-30 | the category picked is the winner: carried, with a maximal sum, and strictly above every category met before it |
| Stats.WinnerUnique | src/components/Dashboard/StatsSection.tsx:29-30 | ties are broken so that at most one category wins |
| Stats.MostHated | src/components/Dashboard/StatsSection.tsx:29-30 | 'None' for no chores; otherwise the unique winner, where a winning category named `''` also shows as 'None' |
| Stats.ExampleFigures | src/components/Dashboard/StatsSection.tsx:13-21 | for a pending 5-point and a completed 2-point chore: rate 50, average 7/2, one high-hate chore, one pending |
| Board.Column | src/components/Dashboard/ChoreBoard.tsx:13-14 | a column holds only chores whose completion flag matches it |
| Board.ColumnsPartition | src/components/Dashboard/ChoreBoard.tsx:13-14 | the open and done columns together hold every chore exactly once, so their lengths sum to the total |
| Board.ColumnConcat | src/components/Dashboard/ChoreBoard.tsx:13-14 | a column keeps the input's relative order |
| Board.ExactlyOneColumn | src/components/Dashboard/ChoreBoard.tsx:13-14 | each chore is in the open column iff it is not completed, and in the done column iff it is |
| Sorting.Select | src/components/Dashboard/ChoreSorting.tsx:29-37 | the selected option becomes current; the same option flips the direction, a new one resets it to ascending |
| Sorting.SelectTwice | src/components/Dashboard/ChoreSorting.tsx:29-37 | selecting the current option twice restores the state; a new option twice gives it descending |
| Sorting.OptionLabel | src/components/Dashboard/ChoreSorting.tsx:16-27 | each option's menu label: 'Category', 'Priority', 'Due Date', 'Date Created' |
| Sorting.SortLabel | src/components/Dashboard/ChoreSorting.tsx:24-27 | the control reads the option's label followed by ' (A-Z)' when ascending and ' (Z-A)' when descending |
| Sorting.LabelsDistinct | src/components/Dashboard/ChoreSorting.tsx:24-27 | the label, the option's label followed by '(A-Z)' or '(Z-A)', determines the state |
| Sorting.Arrow | src/components/Dashboard/ChoreSorting.tsx:57-61 | the direction arrow appears on the current option's item and on no other, and it is '↑' when ascending and '↓' when descending |
| FilterChips.UnusedFilters | src/components/Dashboard/FilterChips.tsx:14-15 | the offered filters are exactly the known categories that are not active, without duplicates |
| FilterChips.FilterNotInKeepsOrder | src/components/Dashboard/FilterChips.tsx:14-15 | of two kept elements, the one earlier in the input comes earlier in the result |
| FilterChips.FilterNotInSingle | src/components/Dashboard/FilterChips.tsx:14-15 | a single element is kept exactly when it is not excluded |
| FilterChips.UnusedFiltersInTableOrder | src/components/Dashboard/FilterChips.tsx:14-15 | of two unused categories, the one earlier in the table is offered first |
| FilterChips.ShowsDropdownIff | src/components/Dashboard/FilterChips.tsx:37 | the dropdown is shown iff some known category is not active |
| FilterChips.AddFromDropdown | src/components/Dashboard/FilterChips.tsx:50-53 | adding an offered filter never creates a duplicate, and the dropdown then offers the same list minus that filter |
| FilterChips.RemoveChipOffersAgain | src/components/Dashboard/FilterChips.tsx:14-15 | removing the chip of a known category puts it back into the dropdown |
| FilterChips.DropdownExtremes | src/components/Dashboard/FilterChips.tsx:14-15 | with every category active nothing is offered; with none active all six are, in table order |
| Assignees.Toggle | src/components/Dashboard/AssigneeSection.tsx:18-24 | after a toggle the id is selected iff it was not; a selected id loses every copy, an unselected one is appended; other ids keep their counts |
| Assignees.ToggleKeepsNoDup | src/components/Dashboard/AssigneeSection.tsx:18-24 | toggling keeps a duplicate-free selection duplicate-free |
| Assignees.ToggleTwice | src/components/Dashboard/AssigneeSection.tsx:18-24 | toggling an unselected id twice restores the selection; a selected id ends up moved to the end |
| Assignees.ClickFlipsOnlyThatMember | src/components/Dashboard/AssigneeSection.tsx:40-49 | clicking a member row flips that row's selected mark and no other member's |
| Assignees.ChipName | src/components/Dashboard/AssigneeSection.tsx:84-90 | a selected id with no matching member shows 'Unknown' |
| Assignees.ChipMatchesRow | src/components/Dashboard/AssigneeSection.tsx:59-90 | a chip shows the same name as the row of the first member with that user id |
| Assignees.AvatarText | src/components/Dashboard/AssigneeSection.tsx:54 | the avatar shows '?' for a missing or all-space name, and the name's initials otherwise |
| Signup.TestEmail | src/components/Auth/SignupForm.tsx:35 | the scan accepts exactly the strings that contain non-space run, '@', non-space run, '.', non-space run somewhere |
| Signup.MatchesIffAnchor | src/components/Auth/SignupForm.tsx:35 | the unanchored pattern matches iff some '@' and '.' have non-space neighbours as the pattern requires |
| Signup.Validate | src/components/Auth/SignupForm.tsx:27-49 | each field gets at most one message, decided independently: required, then email pattern, minimum length 6, or matching confirmation |
| Signup.ValidIff | src/components/Auth/SignupForm.tsx:27-54 | a form passes iff all fields are filled, the email matches, the password has 6+ characters and the confirmation repeats it |
| Signup.Submit | src/components/Auth/SignupForm.tsx:51-73 | sign-up is requested with the fields as typed iff there is no error, and the errors are then cleared; the toast reports the reply's message or the fallback text |
| Modal.Open | src/components/Dashboard/ChoreModal.tsx:38-55 | an edited chore is loaded with its due date; a new one starts from the defaults with no id, no due date and no assignees |
| Modal.ChangeCategory | src/components/Dashboard/ChoreModal.tsx:80-87 | the category is set, the icon becomes the table icon or the broom for an unknown category, and nothing else changes |
| Modal.ChangeCategoryIcon | src/components/Dashboard/ChoreModal.tsx:57-87 | every known category gets its own table icon in the dialog |
| Modal.Submit | src/components/Dashboard/ChoreModal.tsx:66-78 | nothing is sent unless the title is present and not blank; otherwise the form is sent with the picker's due date and the edited chore's id or a fresh one |
| Modal.AddWithDefaults | src/components/Dashboard/ChoreModal.tsx:43-78 | a new chore saved with only a title has the dialog's defaults and no assignees; the dashboard's fallback to the current user never applies |
| Modal.EditUnchangedIsIdentity | src/components/Dashboard/ChoreModal.tsx:39-78 | opening an existing chore and saving it unchanged leaves the list unchanged |
| Modal.EditTitleChangesOnlyThatChore | src/components/Dashboard/ChoreModal.tsx:66-78 | editing a chore's title changes that chore's title and nothing else in the list |
| CategoryPicker.ChooseCategory | src/components/Dashboard/CategorySection.tsx:25-31 | the category is always reported; the icon is reported too exactly when the category is known, and then it is the table icon |
| CategoryPicker.ChooseCategoryEffect | src/components/Dashboard/CategorySection.tsx:25-31 | a known category is selected with its icon; an unknown one leaves the icon as it was |
| CategoryPicker.ClickIcon | src/components/Dashboard/CategorySection.tsx:63-65 | clicking an icon makes it the highlighted one and keeps the category |
| CategoryPicker.ChosenCategoryHighlighted | src/components/Dashboard/CategorySection.tsx:14-65 | after a known category is chosen, exactly its own icon cell is highlighted |
| HatePoints.BandColor | src/components/Dashboard/HatePointsSection.tsx:23-27 | green iff points ≤ 2, yellow iff 3–4, red iff ≥ 5 |
| HatePoints.BandMonotone | src/components/Dashboard/HatePointsSection.tsx:23-27 | more hate never shows a milder band |
| HatePoints.RedIffHighHate | src/components/Dashboard/HatePointsSection.tsx:26 | the red band is exactly the statistics' high-hate threshold |
| HatePoints.HeartClass | src/components/Dashboard/HatePointsSection.tsx:43 | the heart takes the band's first class, its text colour alone |
| HatePoints.RadioSelectedIff | src/components/Dashboard/HatePointsSection.tsx:33-41 | an option's radio is checked iff its value equals the current level |
| HatePoints.Chosen | src/components/Dashboard/HatePointsSection.tsx:33-34 | choosing an option reports its value back unchanged |
| HatePoints.HighlightedRows | src/components/Dashboard/HatePointsSection.tsx:13-39 | for a level in 1–7 exactly that row is coloured; otherwise none is |
| Card.BadgeClass | src/components/Dashboard/ChoreCard.tsx:27-71 | a known category gets its own badge, an unknown one the gray badge |
| Card.MaintenanceLooksUnknown | src/components/Dashboard/ChoreCard.tsx:31-71 | the Maintenance badge is the same as an unknown category's; the other five differ from it |
| Card.PriorityBorderInjective | src/components/Dashboard/ChoreCard.tsx:36-40 | each priority has its own border colour |
| Card.Overdue | src/components/Dashboard/ChoreCard.tsx:42 | overdue only with a due date; a due date of an earlier day is overdue and one of a later day is not, whatever the status |
| Card.DateClass | src/components/Dashboard/ChoreCard.tsx:42-77 | the date line shows only with a due date and is red iff the due date has passed; completion is not consulted |
| Card.Avatars | src/components/Dashboard/ChoreCard.tsx:93-106 | at most the first three assignees are drawn, with their initials, in order; the counter appears iff there are more than three and reads '+' and the rest |
| Card.AvatarsAccountForAll | src/components/Dashboard/ChoreCard.tsx:95-106 | the avatars drawn plus the number read back from the counter equal the number of assignees |
| BoardCard.StripeClass | src/components/Dashboard/BoardChoreCard.tsx:16-26 | a known category gets its own stripe colour, an unknown one 'bg-gray-500' |
| BoardCard.MenuLabel | src/components/Dashboard/BoardChoreCard.tsx:62 | 'Mark Incomplete' iff the chore is completed, 'Mark Complete' otherwise |
| BoardCard.Background | src/components/Dashboard/BoardChoreCard.tsx:25 | the card is 'bg-green-100' exactly in the done column and 'bg-white' exactly in the open one |
| BoardCard.TitleClass | src/components/Dashboard/BoardChoreCard.tsx:42 | the title is 'line-through text-green-700' exactly in the done column and carries no extra class in the open one |
| BoardCard.Overdue | src/components/Dashboard/BoardChoreCard.tsx:27 | overdue only with a due date on a chore that is not completed; such a chore due on an earlier day is overdue, and one due on a later day is not |
| BoardCard.DateClass | src/components/Dashboard/BoardChoreCard.tsx:74-81 | the date line shows only with a due date and is red iff the chore is overdue |
| BoardCard.RepeatBadge | src/components/Dashboard/BoardChoreCard.tsx:83-88 | the board card's repeat badge is drawn iff the chore repeats and shows the recurrence's text |
| BoardCard.DetailsIffDateOrBadge | src/components/Dashboard/BoardChoreCard.tsx:72-90 | the info row is drawn exactly when the date line or the repeat badge is, so it is never drawn empty |
| BoardCard.FirstAvatar | src/components/Dashboard/BoardChoreCard.tsx:102-107 | only the first assignee's initials are shown, and nothing without assignees |
| BoardCard.ColumnCards | src/components/Dashboard/BoardChoreCard.tsx:25-62 | a done-column card is green, struck through, offers 'Mark Incomplete' and is never overdue; an open-column card is white and offers 'Mark Complete' |
| BoardCard.MenuDoesWhatItSays | src/components/Dashboard/BoardChoreCard.tsx:61-62 | once the toggle is written, the stored chore is completed exactly when the item read 'Mark Complete' |
| Welcome.HouseholdPayload | src/components/Welcome/WelcomePage.tsx:38-42 | the household row has the trimmed name, the trimmed description or none when that is blank, and the user as creator |
| Welcome.CreateHousehold | src/components/Welcome/WelcomePage.tsx:29-75 | nothing is written without a user or with a blank name; the household table grows exactly when the household insert succeeds, and the member table exactly when both inserts succeed, so a failed household insert writes no member; the error toast shows exactly when either insert fails; a household is selected only after both succeed |
| Welcome.HouseholdFailureWritesNothing | src/components/Welcome/WelcomePage.tsx:46-71 | a rejected household insert leaves both tables as they were and selects nothing |
| Welcome.SelectedHouseholdHasAdmin | src/components/Welcome/WelcomePage.tsx:36-64 | a selected household exists, was created by the user, and has the user as an admin member |
| Welcome.MemberFailureLeavesOrphan | src/components/Welcome/WelcomePage.tsx:49-71 | a failed membership insert leaves the new household without a member and selects nothing |
| Welcome.LoginCode | src/components/Welcome/WelcomePage.tsx:126 | the code is the first eight characters of the user id (fewer for a shorter id), upper-cased |
| Welcome.LoginCodeIgnoresTail | src/components/Welcome/WelcomePage.tsx:126 | ids that share their first eight characters share a code |
| Welcome.AvatarFallback | src/components/Welcome/WelcomePage.tsx:98 | 'U' when there is no profile name or it yields no initials; the initials otherwise |
| Welcome.FallbackIffNoWords | src/components/Welcome/WelcomePage.tsx:98 | a name falls back to 'U' because it has no words exactly when it consists of spaces only |

## Left out

- Network I/O and realtime. All Supabase queries, the realtime channels and
  their clean-up are left out. Each write is a store transition whose outcome
  is an input. A thrown exception is modelled as a rejected write, except
  for the two writes below whose returned error the code ignores.
- ChoreStore.AddChore: the draft is taken to carry no id of its own, so
  the row written always has the store's fresh id and the draft's `id`
  field is ignored. `addChore` accepts a `Partial<Chore>`, and an `id`
  inside it would be spread into the insert (useChores.tsx:100-110), so a
  caller could choose the id.
- ChoreStore.AddChore: a throw from the assignment insert reaches the
  enclosing `catch` and is returned as the error. The model has only
  written and rejected outcomes, and a rejected assignment insert is
  ignored, so it cannot return that error.
- ChoreStore.ToggleComplete: likewise, a throw from the successor insert is
  returned as the error, while the model only ignores a rejected insert.
- The clock and id generation. `new Date()` and `Date.now().toString()` are
  the parameters `now` and `freshId`. The code does not make ids unique, so
  lemmas that need unique ids take it as a hypothesis.
- Time zones and date formatting. `toISOString`, `toLocaleDateString` and
  `format` are left out. For the overdue display, a due date stands for the
  midnight that starts its day, and "now" is a day plus milliseconds since
  its midnight (`Calendar.Moment`).
- The 500 ms delay before the dashboard appends a successor. The append is
  modelled as immediate.
- Floating point. Rates and averages are exact fractions (`Stats.Ratio`).
  `toFixed` and the progress-bar widths are left out.
- The weekly progress value. It is a constant placeholder in the statistics
  block, not derived from chores.
- Object key order. Category totals are kept in first-appearance order. A
  JavaScript object lists integer-like keys (a category named "12", say)
  before other keys, and that reordering is not modelled. The lookups of
  `ChoreCard.tsx:71` and `BoardChoreCard.tsx:26` and the totals object of
  `StatsSection.tsx:25` also read inherited keys, so a category named
  "constructor" or "toString" hits an `Object.prototype` member there.
  `Card.Lookup` and `Stats.CategoryTotals` treat such a category as unknown
  or as a fresh key.
- Chore ordering. No comparator exists in the modelled code, and the sort
  selector's state is never applied to a list here.
- `updateChore` in the data hook. It is a plain pass-through update with no
  logic of its own.
- Presentational and thin wrappers. These are the header, the profile dialog
  and its avatar upload, the date section, and the kanban and column
  wrappers. The authentication page and the page switch are left out too.
  So are the loading spinners and the `creating` flag. The initials logic
  these screens share is modelled once, in `Names`.
- Text details:
  - whitespace is ASCII only, for `trim` and for the `\S` of the email
    pattern;
  - `toUpperCase` is ASCII only;
  - a Dafny string holds Unicode scalar values, so a character outside the
    Basic Multilingual Plane counts once here and as two UTF-16 code units
    in JavaScript. This affects the password length of `Signup.Validate`
    ("😀😀😀" has length 6 in JavaScript and 3 here), the first character
    of each word in `Names.Initials`, and the eight-character prefix of
    `Welcome.LoginCode`.
- Numerals.IntToString: writes every integer in plain decimal. JavaScript
  switches to exponent form from 10^21 in magnitude (`parseInt` of
  "1e+21" gives 1), and numbers past 2^53 are not exact. The hate-point
  levels this is used for are 1–7 and the avatar overflow counts are small.
- Signup.Submit: the sign-up reply is reduced to its error message. Account
  creation and e-mail verification are not modelled.
- Card.Avatars and BoardCard.FirstAvatar: the avatar image URLs are not
  modelled. The image is drawn over the fallback text when it loads.

# Appointment scheduler — a verified model of its rules

The appointment scheduler is a web application. Signed-in users find other users, propose an
appointment to one of them (a title, an optional description, a date, a time and an optional
recorded voice message), and then accept, decline or cancel appointments on an "upcoming" and a
"past" tab. This project models the parts of it that carry logic and proves what they promise:

- **The listing** (`AppointmentQuery`, `AppointmentManagement`):
  - which rows the appointments query selects: participant, search text, tab window and status;
  - how it orders and pages them, and the page count;
  - the page state that the search box, status select, tab switch and page buttons change;
  - the accept/decline/cancel action.
- **The card rule** (`AppointmentCard`): which action buttons a viewer is offered.
- **The scheduling dialog** (`CreateAppointment`):
  - the form schema and the date picker's cut-off;
  - the row it inserts;
  - upload-before-insert ordering;
  - the recorder and player buttons.
- **The route gate** (`Middleware`): the redirect decision and the path filter.
- **The user search** (`UserSearch`): the filter and the loading flag.
- **The registration form** (`RegisterForm`): the schema with its password-confirmation rule, and the submit flags.
- **The user store** (`UserSlice`): one slot, replaced on every save.

`Text` holds what these share:
- case-insensitive substring search;
- string order;
- zero-padded decimal numbers, including the proof that fixed-width digit strings order like their numbers.

`Wrappers` holds `Option`.

The code's state that changes step by step is modelled as classes whose methods update fields:
- the page state;
- the dialog;
- the users page;
- the registration form;
- the user store.

The rules are modelled as functions and lemmas. Calls into the store are outcome parameters (`fails`, `UploadOutcome`, `SignUpOutcome`), and so are the clock (`now`) and the microphone permission.

The past tab's filter is modelled as the code writes it: `date < today OR date = today OR time < now`. It is not the complement of the upcoming filter. A row dated after today whose time of day is earlier than now satisfies both filters, so it is listed on both tabs. `TabsOverlapExactly` characterises the overlap, and `TomorrowMorningIsOnBothTabs` gives an instance. The model follows the code here, not the intent of disjoint tabs.

## Model

| member | source | states |
|---|---|---|
| AppointmentQuery.Matching | components/appointment/appointment-management.tsx:53-77 | the rows kept are exactly the table rows where the viewer is in `user_ids`, the search term is empty or found ignoring case in the title, date or time, the row is in the tab's window and the status filter is absent or equal; each is kept as often as the table holds it |
| AppointmentQuery.TabsCoverEveryRow | components/appointment/appointment-management.tsx:65-73 | every row is on the upcoming tab or on the past tab |
| AppointmentQuery.NotUpcomingIsPast | components/appointment/appointment-management.tsx:65-73 | a row the upcoming filter rejects is accepted by the past filter |
| AppointmentQuery.TabsOverlapExactly | components/appointment/appointment-management.tsx:65-73 | a row is on both tabs iff it is dated today at or after now, or dated after today with a time earlier than now |
| AppointmentQuery.TomorrowMorningIsOnBothTabs | components/appointment/appointment-management.tsx:69-73 | a row for 09:30 tomorrow, seen at noon, passes both the upcoming and the past filter |
| AppointmentQuery.InOrderTransitive | components/appointment/appointment-management.tsx:80 | the date order used for sorting is transitive in both directions |
| AppointmentQuery.InsertKeepsOrder | components/appointment/appointment-management.tsx:80 | inserting a row into a date-sorted list keeps it sorted |
| AppointmentQuery.SortByDate | components/appointment/appointment-management.tsx:80 | the result is sorted by date (ascending or descending) and is a permutation of the input |
| AppointmentQuery.Range | components/appointment/appointment-management.tsx:81 | the inclusive window `from..to` holds exactly the rows at indices `from` to `to` that exist, in order: at most `to - from + 1` of them, none when `to < from` or `from` is past the end |
| AppointmentQuery.PageHoldsAtMostN | components/appointment/appointment-management.tsx:50-51 | a page holds at most `N` rows |
| AppointmentQuery.ConsecutivePagesAdjacent | components/appointment/appointment-management.tsx:50-51 | page `p + 1` starts right after page `p` ends |
| AppointmentQuery.DistinctPagesDisjoint | components/appointment/appointment-management.tsx:50-51 | windows of two different pages do not overlap |
| AppointmentQuery.TotalPagesIsCeiling | components/appointment/appointment-management.tsx:119 | the page count is the least `t` with `t * N >= count`, and is zero iff the count is zero |
| AppointmentQuery.PagesCoverAll | components/appointment/appointment-management.tsx:50-51 | the pages `1..totalPages`, concatenated, are exactly the matching rows |
| AppointmentQuery.RunQuery | components/appointment/appointment-management.tsx:48-81 | the fetched page holds at most `N` rows, each a table row the filters select, in the tab's date order; the count is the number of all selected rows |
| AppointmentQuery.EverySelectedRowIsOnAPage | components/appointment/appointment-management.tsx:48-81 | every selected row appears on some page between 1 and the page count, when all pages see the rows in one order (see "Left out") |
| AppointmentQuery.NoMatchesNoPages | components/appointment/appointment-management.tsx:119 | with no selected row, page 1 is empty and the page count is zero |
| AppointmentQuery.WithStatusChangesOnlyThatRow | components/appointment/appointment-management.tsx:100-103 | the status write sets the status of the rows with that id and leaves every other row and every other field unchanged |
| AppointmentQuery.NavigationStaysInRange | components/appointment/appointment-management.tsx:192-195 | from a page in `1..total`, previous and next stay in `1..total`, each moves by one except at the ends, where it stays |
| AppointmentManagement.AppointmentPage.constructor | components/appointment/appointment-management.tsx:38-44 | the page starts empty, on the upcoming tab, on page 1, with no search term, no status filter, a zero count and the initial-load flag on |
| AppointmentManagement.AppointmentPage.PaginationShownIffOverflow | components/appointment/appointment-management.tsx:189 | the page buttons show exactly when the count exceeds the rows per page |
| AppointmentManagement.AppointmentPage.EnabledPageButtonsMove | components/appointment/appointment-management.tsx:195-210 | once loaded, on a page within the count, Previous is enabled exactly when it would move back and Next exactly when it would move forward, so Previous is disabled only on page 1 and Next only on the last page |
| AppointmentManagement.StatusFilterOf | components/appointment/appointment-management.tsx:136-139 | the select value "all" clears the status filter and only it does |
| AppointmentManagement.AppointmentTable.UpdateStatus | components/appointment/appointment-management.tsx:100-103 | on success the table is the status write applied to it; on failure it is unchanged |
| AppointmentManagement.AppointmentPage.SearchFired | components/appointment/appointment-management.tsx:111-117 | the debounced search sets the term and returns to page 1, and nothing else changes |
| AppointmentManagement.AppointmentPage.StatusChosen | components/appointment/appointment-management.tsx:136-139 | choosing a status sets the filter and returns to page 1, and nothing else changes |
| AppointmentManagement.AppointmentPage.TabChosen | components/appointment/appointment-management.tsx:155-158 | switching tab returns to page 1, and nothing else changes |
| AppointmentManagement.AppointmentPage.PrevClicked | components/appointment/appointment-management.tsx:192-195 | the page becomes `max(p - 1, 1)` and stays within the page count |
| AppointmentManagement.AppointmentPage.NextClicked | components/appointment/appointment-management.tsx:205-210 | the page becomes `min(p + 1, totalPages)` and stays within the page count |
| AppointmentManagement.AppointmentPage.ApplyResponse | components/appointment/appointment-management.tsx:83-89 | an error keeps the list and count; data replaces both, a null list giving no rows and a null count zero; the initial-load flag goes off either way |
| AppointmentManagement.AppointmentPage.FetchAppointments | components/appointment/appointment-management.tsx:48-90 | on success the list and count are the query's page and count for the current filters and page |
| AppointmentManagement.AppointmentPage.HandleAction | components/appointment/appointment-management.tsx:96-109 | the row's status is written; the page refetches only when the write succeeded and is untouched when it failed; when the refetch fails the list and count stay and the initial-load flag goes off |
| AppointmentCard.Buttons | components/appointment/appointment-card.tsx:52-89 | Cancel is offered iff the viewer created the appointment, it is not cancelled and the card is upcoming; Accept and Decline are offered together iff the viewer did not create it, it is pending and the card is upcoming; every button carries the card's id; nothing is offered off the upcoming tab |
| AppointmentCard.CreatorOnlyCancels | components/appointment/appointment-card.tsx:52-64 | the creator of an appointment is offered at most Cancel |
| AppointmentCard.OthersNeverCancel | components/appointment/appointment-card.tsx:52-89 | a viewer who did not create the appointment is never offered Cancel |
| AppointmentCard.PastTabOffersNothing | components/appointment/appointment-card.tsx:52-89 | a card on the past tab offers no button at all |
| AppointmentCard.OfferedActionsAreAuthorized | components/appointment/appointment-card.tsx:52-89 | every button offered on a row the query returned is allowed by the policy that only the creator cancels and only the other participant accepts or declines a pending appointment |
| CreateAppointment.TimeValidIsPattern | components/appointment/create-appointment.tsx:63-65 | the time check agrees with the regular expression read as "some colon splits an hour field from a minute field" |
| CreateAppointment.TimeValidMeaning | components/appointment/create-appointment.tsx:63-65 | a time is accepted iff it is one or two hour digits worth at most 23, a colon, and two minute digits worth at most 59 |
| CreateAppointment.ClockTextAccepted | components/appointment/create-appointment.tsx:63-65 | every `HH:MM` text for a time of day is accepted |
| CreateAppointment.ShortHourAccepted | components/appointment/create-appointment.tsx:63-65 | every `H:MM` text with a one-digit hour is accepted |
| CreateAppointment.TimeExamples | components/appointment/create-appointment.tsx:63-65 | "9:30", "09:30", "23:59" and "0:00" pass; "24:00", "12:60", "9:5" and "123:00" fail |
| CreateAppointment.SchemaRejects | components/appointment/create-appointment.tsx:55-68 | values fail the schema exactly when the title is under two characters, the description has one to nine characters, the date or the invitee is missing, or the time fails the pattern |
| CreateAppointment.DatePickerCutoff | components/appointment/create-appointment.tsx:363-371 | today and later days are selectable, days before yesterday are not, and yesterday is disabled unless now is exactly midnight |
| CreateAppointment.IsoDateReadsBack | components/appointment/create-appointment.tsx:197 | the `yyyy-MM-dd` text is ten characters whose year, month and day fields read back as the date |
| CreateAppointment.IsoDateOrder | components/appointment/create-appointment.tsx:197 | the date text orders like the calendar, and distinct dates give distinct texts |
| CreateAppointment.BuildRow | components/appointment/create-appointment.tsx:191-204 | `user_ids` is the preset invitee (or else the picked one) followed by the current user, `created_by` is the current user, the title, description and time are the form's, the date is the `yyyy-MM-dd` text and the audio field is the uploaded URL (empty with no clip) |
| CreateAppointment.ColumnTime | components/appointment/create-appointment.tsx:198 | an accepted time is kept by the `time` column as `HH:MM:SS`: the same hour value padded to two digits, the same minutes, zero seconds |
| CreateAppointment.NewRowVisibleToBoth | components/appointment/create-appointment.tsx:191-204 | the stored appointment is pending, created by the current user, and has both the creator and the invitee as participants |
| CreateAppointment.NewAppointmentListedAsUpcoming | components/appointment/create-appointment.tsx:191-204 | a new appointment for a later day is selected on the upcoming tab of both the creator and the invitee, at any time of day |
| CreateAppointment.UploadPath | components/appointment/create-appointment.tsx:183 | the clip's file name is the user's id, a dash, the decimal digits of the millisecond clock and `.mp3` |
| CreateAppointment.UploadPathsDiffer | components/appointment/create-appointment.tsx:183 | one user's uploads at different milliseconds go to different files |
| CreateAppointment.RecordingControls | components/appointment/create-appointment.tsx:412-452 | Start shows iff not recording and no clip; Stop iff recording; Play iff there is a clip that is not playing, Pause iff there is a clip that is playing; Start and Stop never together; some button always shows |
| CreateAppointment.Dialog.constructor | components/appointment/create-appointment.tsx:81-123 | the dialog starts closed, not recording, with no clip, not playing, and with the form's default values (the preset invitee filled in when given) |
| CreateAppointment.Dialog.StartRecording | components/appointment/create-appointment.tsx:125-153 | with microphone access a recorder exists and recording is on; without it nothing changes |
| CreateAppointment.Dialog.StopRecording | components/appointment/create-appointment.tsx:155-160 | recording goes off only if a recorder exists; otherwise nothing changes |
| CreateAppointment.Dialog.RecorderStopped | components/appointment/create-appointment.tsx:142-146 | the recorder's stop event stores the clip and turns recording off |
| CreateAppointment.Dialog.PlayAudio | components/appointment/create-appointment.tsx:162-168 | playback starts only with a clip and an audio element |
| CreateAppointment.Dialog.PauseAudio | components/appointment/create-appointment.tsx:170-175 | playback stops whenever there is an audio element |
| CreateAppointment.Dialog.Submit | components/appointment/create-appointment.tsx:177-221 | invalid values change nothing; a clip is uploaded before the insert, and a failed upload stops before any insert; a failed insert leaves the dialog open with its values and clip; success closes it, resets the form and drops the clip |
| CreateAppointment.ResetDropsInvitee | components/appointment/create-appointment.tsx:93-98 | the reset values carry no invitee, so they do not pass the schema |
| Middleware.Gate | middleware.ts:15-37 | a request continues iff signed-in exactly when the path is not `/login` or `/register`; a redirect keeps the URL but its path, which is `/login` for guests and `/` for signed-in users |
| Middleware.ContinueMeansAllowed | middleware.ts:21-37 | a request let through is a signed-in one to a private page or a guest one to a public page |
| Middleware.NoRedirectLoop | middleware.ts:21-36 | with the same session, the redirect target is let through |
| Middleware.HandleNeverLoops | middleware.ts:21-42 | with the path filter in front of the gate, the target of any redirect is let through with the same session |
| Middleware.GuestsReachOnlyPublicPages | middleware.ts:21-29 | a guest reaches a matched page only if it is `/login` or `/register` |
| Middleware.Handle | middleware.ts:15-42 | a request continues iff its path is skipped by the filter or it is signed in exactly when the path is not `/login` or `/register`; a redirect keeps the URL and sets the path to `/` when signed in and `/login` otherwise |
| Middleware.OtherPathsMatched | middleware.ts:40-42 | the root and every path whose first character after the slash is not `a`, `_` or `f` pass the filter, so the gate runs on them |
| Middleware.UnmatchedExamples | middleware.ts:40-42 | `/api/users`, `/apiary`, `/favicon.ico` and `/faviconXico` bypass the gate |
| UserSearch.ListedUsers | components/user/index.tsx:76-80 | a user is listed iff the query is found ignoring case in the name or the e-mail and the user is not the signed-in one, as often as the table holds them |
| UserSearch.SelfNeverListed | components/user/index.tsx:80 | the signed-in user is never listed |
| UserSearch.EmptyQueryListsEveryoneElse | components/user/index.tsx:79-80 | with an empty query every other user is listed |
| UserSearch.FindsByOwnName | components/user/index.tsx:79 | searching a user's exact name finds that user |
| UserSearch.UsersPage.constructor | components/user/index.tsx:64-66 | the page starts with no users, an empty search box and loading on |
| UserSearch.UsersPage.FetchUsers | components/user/index.tsx:69-91 | loading is set on, then off on every path; on success the list is the filtered table, on failure it is unchanged |
| UserSearch.UsersPage.Mount | components/user/index.tsx:98-100 | mounting fetches with the empty query: on success the list is exactly the table's users other than the signed-in one, in table order; loading goes on, then off |
| UserSearch.UsersPage.SearchChanged | components/user/index.tsx:106-108 | typing sets the box's text and nothing else |
| UserSearch.UsersPage.SearchFired | components/user/index.tsx:123 | the search button fetches with the box's text: on success the list is exactly the matching users other than the signed-in one; loading goes on, then off |
| RegisterForm.Issues | components/register-form.tsx:30-40 | the name is rejected iff shorter than 3, the e-mail iff the e-mail check fails, the password iff shorter than 8, and the confirmation iff it differs from the password |
| RegisterForm.AcceptedIffAllRules | components/register-form.tsx:30-40 | the form is accepted iff all four rules hold |
| RegisterForm.MismatchReportedOnConfirmation | components/register-form.tsx:37-40 | a differing confirmation is reported on the confirmation field with its message, whatever else is wrong |
| RegisterForm.Form.constructor | components/register-form.tsx:45-46 | the form starts with no error, loading off, no reload requested and no request sent |
| RegisterForm.Form.Submit | components/register-form.tsx:59-81 | rejected values change nothing; otherwise one sign-up request goes out, loading goes on then off, an error answer sets its message, a throw sets "An unexpected error occurred", success requests a reload |
| UserSlice.UserStore.constructor | lib/redux/features/user/userSlice.ts:15-17 | the store starts with no user |
| UserSlice.UserStore.SaveUser | lib/redux/features/user/userSlice.ts:23-25 | after a save the store holds exactly the payload |
| UserSlice.SaveTwice | lib/redux/features/user/userSlice.ts:23-25 | saving the same payload twice leaves the store as one save does |
| UserSlice.LastSaveWins | lib/redux/features/user/userSlice.ts:23-25 | of two saves the later payload is what the store holds |

## Left out

- Rendering, styling, toasts, dialogs' open/close animation, skeletons and the loading overlay: presentation only.
- The store's query builder, storage upload, public-URL lookup and the auth calls (`getSession`, `getUser`, `signUp`): each is an outcome parameter. The dialog's own list of invitees (`create-appointment.tsx:101-117`) is another such select and is not modelled.
- AppointmentQuery.Matching: case is folded for the ASCII letters `A`-`Z` only. The store's `ilike` folds letters by the database's locale, so a row it selects through a non-ASCII letter in another case (`É` against `é`) is not selected by the model.
- UserSearch.ListedUsers: the same ASCII-only folding, so a user whose name or e-mail matches only through a non-ASCII letter in another case is not listed by the model.
- RegisterForm.Issues: lengths are counted in characters (code points); the schema library counts UTF-16 code units, so a text with characters outside the Basic Multilingual Plane is shorter in the model. The same holds for CreateAppointment.TitleValid and the description length.
- The search text is taken as a literal substring. In the store's `ilike` filter `%` and `_` act as wildcards, and a comma or parenthesis in the text changes the filter string.
- Debounce timing, overlapping fetches and stale responses are concurrency. Only the effect of a callback when it fires is modelled.
- The media recorder, microphone stream, blobs, object URLs and the `<audio>` element become flags and byte sequences. The audio player component is never rendered and is not modelled.
- The clock, the time zone and date formatting: `now` is a parameter holding the date and time texts, and dates and times are compared as strings.
  - The current time sent by the code carries milliseconds and a zone suffix. That comparison is taken to be plain string order.
  - `IsoDateOrder` shows that zero-padded dates order like the calendar.
  - `DatePickerCutoff` counts days as whole multiples of 24 hours, which ignores daylight-saving shifts.
- Rows per page comes from an environment variable, defaulting to 9. It is a parameter `itemsPerPage >= 1`.
- The e-mail check of the registration schema is a library pattern and is taken as the verdict `emailOk`.
- A fetch past the last page gets a range error from the store. `AppointmentQuery.Range` returns an empty page instead.
- AppointmentQuery.SortByDate: rows with equal dates may come back in any order from the store. The model fixes one order for them (insertion sort); the contract promises only that the result is sorted and a permutation, not which of the orders among equal dates it is.
- AppointmentQuery.EverySelectedRowIsOnAPage: the lemma assumes that every page request gets the equal-date rows in the same order, because `RunQuery` sorts with `SortByDate` for every page. `order("date")` with offset paging does not promise this: each page is a separate request, and rows sharing a date may be ordered differently from one request to the next. With ten rows on one day and nine per page, page 2 may repeat a row of page 1, and one row is then on no page.
- A missing signed-in user (`user?.id` undefined) is not modelled. Every operation takes the current user's id as a string.
- CreateAppointment.Dialog.Submit: the form library's field-level validation timing, error display and `reset` internals are reduced to "values pass the schema" and "values become the defaults".
- The login form, navigation, layout and sidebar hold only wiring and auth calls.

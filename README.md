# Course-grades bot: navigation engine

This project models the navigation engine of a Telegram bot for browsing course grade distributions. A user
searches for a course or a professor, pages through the hits, picks a course and a year/semester, and gets a
grade plot. From every screen the user can go back to an earlier one. A second, small conversation collects
feedback. Before either conversation sees an update, a gate checks the maintenance flag and whether the user
is blocked. The backend's rate limiter keys requests per Telegram user.

The model has these parts:

- **Keyboards** (`keyboards.dfy`) are the inline keyboards of `bot/keyboards.py`.
  - Page windows follow Python slicing, including negative pages.
  - Previous/Next controls and fixed footers are appended by the `KeyboardBuilder` class, which grows its rows
    in place.
  - Year/semester terms are de-duplicated in an insertion-ordered dictionary and then ordered by Python's
    stable `sorted` (`stablesort.dfy`).
  - The static menus are modelled too.
- **Callbacks** (`callbacks.dfy`) decodes every callback payload the handlers read. Round-trip lemmas tie each
  decoder to the encoder in `Keyboards` that produced the payload.
- **Slots** (`slots.dfy`) models the per-user `context.user_data` dictionary: its keys, its values, and the
  groups of keys the handlers drop together (`_clear_list_context`, the back levels, the selection clearing).
- **Transitions** (`transitions.dfy`) has one pure function per handler of `bot/handlers.py`. Each maps the
  slots and the handler's inputs to the new slots and the next conversation state. The lemmas there state what
  each handler promises.
  - Backend answers are `Option` values, because the client wrappers of `bot/api_client.py` yield `None` on
    any failure.
  - Each awaited Telegram call inside a `try` whose failure changes the handler's course is numbered. An `Io`
    value says which of them fail. Every other awaited call is taken to succeed (see "## Left out").
- **Sessions** (`sessions.dfy`) holds the class `Session`, whose `userData` map the handler methods pop,
  assign and clear step by step, as the source does; `Session.SelectCourse` is the `cs_` branch of
  `select_item_callback` written the same way. Every method ensures that it ends in exactly the slots
  and state its `Transitions` function gives.
- **Conversation** (`conversation.dfy`) models the two `ConversationHandler` tables of `bot/main.py`: entry
  points, per-state whitelists, fallbacks, timeouts and re-entry. It also models the order in which the
  group -1 gate, the two conversations and the plain commands see an update. `Menus` (`menus.dfy`) proves that
  the state a handler returns answers every button of the menu it shows.
- **DeadButtons** (`deadbuttons.dfy`) covers the two exceptions to that agreement, as the tables are written:
  - The "Restart Search" button of the error replies (`back_main`) reaches no handler once an error has ended
    the search. The search conversation's only entry point is `/start` (`DeadButtons.RestartButtonUnrouted`).
    `DeadButtons.RestartingBrowseTable` adds the button as an entry point and is proved to change nothing
    inside a running search.
  - The back button of the "no offerings" notice built in `select_item_callback` is not in the whitelist of
    the state the handler returns (`DeadButtons.NoOfferingsBackUnanswered`). With SELECTING_YEAR_SEMESTER
    returned instead, every button of the notice is answered (`DeadButtons.NoOfferingsCorrectedServed`).
  - The handler models in `Transitions` and `Sessions` keep both behaviours as written.
- **Gating** (`gating.dfy`) models `get_maintenance_status`, `pre_process_blocked_user` (which fails open),
  `global_pre_processor` and the flag logic of `maintenance_command`. `Gating.MaintenanceCommand` is the command
  as written; `Gating.CorrectedMaintenanceCommand` reports the flag the way the gate reads it.
- **Escaping** (`escaping.dfy`) models the two Markdown escapers. The source's loop of `str.replace` calls is
  proved equal to the per-character transform.
- **ErrorReplies** (`errors.dfy`) models `_handle_api_error_async`: the message per error kind, the restart
  button, the chat-id fallback chain, and edit-else-send delivery.
- **Limiter** (`limiter.dfy`) models `get_request_identifier` and the header the bot's client attaches to each
  request.
- `PyStr` (`pystr.dfy`) models the Python string operations the code uses: `strip`, `split`, `rsplit`,
  `join`, `int()`, `str(int)` and `lower`.

Where the code and its written description disagree, the model follows the code:

- `start_command` does not clear `user_data`. It only replaces the stored edit target.
- Pages are not clamped. Python slicing with a negative page shows items counted from the end.
- A failed or timed-out search reads as "no results", because the client wrapper swallows the error. The user
  stays in the typing state.
- A `ValueError`'s own text is shown to the user in the error reply.

## Model

| member | source | states |
|---|---|---|
| Constants.StateCode | bot/constants.py:6-18 | every state's code lies in `range(11)` |
| Constants.StateCodesAreRange | bot/constants.py:6-18 | distinct states have distinct codes, each code names its state back, and no code is END (-1) |
| Constants.StateOfCode | bot/constants.py:6-18 | every code in `range(11)` names a state whose code it is |
| Constants.CallbackVocabularyPrefixFree | bot/constants.py:24-55 | no callback constant of either conversation is a prefix of another, so `^prefix` dispatch is unambiguous |
| Constants.FeedbackDisjointFromBrowse | bot/constants.py:24-55 | no feedback callback value equals, starts, or is started by a browse callback value |
| Keyboards.SliceBound | bot/keyboards.py:82-84 | a slice bound is clamped into `[0, n]` the way Python clamps it, and a bound inside is kept |
| Keyboards.PySlice | bot/keyboards.py:82-84 | a Python slice is never longer than the list |
| Keyboards.PageItems | bot/keyboards.py:82-84 | a page slice never holds more than `ITEMS_PER_PAGE` (8) items |
| Keyboards.PageItemsWindow | bot/keyboards.py:82-84 | page `p >= 0` holds exactly the existing items at indices `[8p, 8p+8)`, in list order; a page past the end is empty |
| Keyboards.NegativePagesAreNotClamped | bot/keyboards.py:82-84 | there is no clamping: page -1 is empty and page -2 shows the eight items ending eight before the end |
| Keyboards.ItemRowsFromItems | bot/keyboards.py:86-96 | every item row is one button that an item of the page rendered to |
| Keyboards.ItemRowsTotal | bot/keyboards.py:86-96 | when every item renders, there is exactly one row per item, in order |
| Keyboards.ItemRowsNone | bot/keyboards.py:86-96 | items lacking an id or code contribute no row, so a page of such items renders none |
| Keyboards.KeyboardBuilder.AppendRow | bot/keyboards.py:96 | a row is appended to the keyboard being built, after all earlier rows |
| Keyboards.KeyboardBuilder.AddPaginationButtons | bot/keyboards.py:45-67 | appends exactly the pagination rows for the page and list length to the keyboard being built, in place |
| Keyboards.NoControlsForShortLists | bot/keyboards.py:52-53 | a list of at most 8 items (the empty list included) gets no pagination row |
| Keyboards.NextMeansMoreItems | bot/keyboards.py:55-64 | "Next" is offered (`p < ceil(n/8) - 1`) exactly when items remain after page `p` |
| Keyboards.PaginationControls | bot/keyboards.py:55-67 | for more than 8 items: Previous (target `p-1`) iff `p > 0`, Next (target `p+1`) iff `p < ceil(n/8)-1`, Previous first, and no empty row is appended |
| Keyboards.PaginationDataPrefixed | bot/keyboards.py:58-64 | every page control's data starts with the list's page prefix |
| Keyboards.CreateSearchResultsKeyboard | bot/keyboards.py:73-108 | the for-loop builder returns the search results keyboard |
| Keyboards.SearchResultsLayout | bot/keyboards.py:73-108 | one row per hit of the page that has an id, labelled with at most 60 characters and selecting `cs_<code>`/`ps_<id>`; then the controls; the last row is always "Re-enter Search" and "Cancel" |
| Keyboards.CreateProfCourseSelectionKeyboard | bot/keyboards.py:110-137 | the for-loop builder returns the professor's course-list keyboard |
| Keyboards.AppendCourseRows | bot/keyboards.py:119-126 | the course loop appends, in order, one row per course of the page that has a code and none for the others |
| Keyboards.ProfCourseSelectionLayout | bot/keyboards.py:110-137 | one row per course with a code, labelled with at most 60 characters and selecting `cs_<code>\|prof\|<prof id>`; the last row is "Different Professor" and "Cancel" |
| Keyboards.DictPut | bot/keyboards.py:148-151 | assigning into the insertion-ordered dict keeps an existing key's place and appends a new key |
| Keyboards.UniqueTermsSpec | bot/keyboards.py:148-151 | de-duplication keeps, for every `(academic_year, semester)` with both parts truthy, the last term with that key, each key once; terms lacking a part are dropped |
| Keyboards.UniqueTermsValues | bot/keyboards.py:148-151 | the kept terms are exactly the last occurrences of the distinct truthy keys |
| Keyboards.CollectTerms | bot/keyboards.py:148-151 | the dict-filling loop ends with one entry per `(academic_year, semester)` with both parts truthy, holding the last such term, keys in first-insertion order |
| Keyboards.OrderedTermsFails | bot/keyboards.py:154-158 | the picker raises (`None`) exactly when a kept term's start year does not parse as an integer |
| Keyboards.OrderedTermsContents | bot/keyboards.py:148-158 | otherwise the ordered list holds exactly the kept terms, each key once |
| Keyboards.OrderedTermsOrder | bot/keyboards.py:154-158 | the list is sorted by descending start year, then Odd < Even < Summer < any other semester, and equal keys keep their first-appearance order |
| Keyboards.CreateYearSemesterKeyboard | bot/keyboards.py:139-183 | the builder (dict-filling loop, sort, page loop) returns the year/semester keyboard, or `None` for the `ValueError` |
| Keyboards.AppendTermRows | bot/keyboards.py:163-166 | the term loop appends, in order, one `ysel_{y}\|{s}\|{mode}\|{back_id}` row per term of the page |
| Keyboards.YearSemesterLayout | bot/keyboards.py:160-182 | one row per listed term of the page, in order, selecting `ysel_<y>\|<s>\|<mode>\|<back id>`; the last row goes back to `back_crs_srch_list` in course mode and to `back_prof_crs_list_<back id>` otherwise |
| Keyboards.RenderedDataPrefixed | bot/keyboards.py:96-166 | every item button of each list selects with that list's prefix |
| Keyboards.FinalOptionsLayout | bot/keyboards.py:185-200 | the options always start with `back_ys_sel_<course>` and end with `back_main`; the "different course" row appears exactly in course mode (`back_clp_course`) or in professor mode with a truthy id (`back_clp_prof_<id>`) |
| StableSort.InsertStable | bot/keyboards.py:154-158 | inserting one element keeps every other element and adds exactly that one |
| StableSort.Sorted | bot/keyboards.py:154-158 | the sorted list is a permutation of its input |
| StableSort.SortedOrdered | bot/keyboards.py:154-158 | the sorted list is ordered by the key |
| StableSort.SortedStable | bot/keyboards.py:154-158 | elements with equal keys keep their input order |
| StableSort.SortedSpec | bot/keyboards.py:154-158 | the model of `sorted(..., key=...)` returns its input ordered by key, with equal keys in input order |
| StableSort.CountWhereSorted | bot/keyboards.py:154-158 | sorting neither adds nor drops elements with any property |
| Callbacks.SearchPageParts | bot/handlers.py:1141-1163 | a payload starting with the prefix yields the single part after it |
| Callbacks.ProfCoursePageParts | bot/handlers.py:1165-1177 | an accepted payload is cut at its last `_` into an id part and a page part without `_` |
| Callbacks.YearSemesterPageParts | bot/handlers.py:1179-1189 | an accepted payload has exactly three `_`-separated parts |
| Callbacks.PageNumber | bot/handlers.py:1077-1098 | a page is read only with the expected part count, from the last part parsed as an integer |
| Callbacks.PlainPageRoundTrip | bot/handlers.py:1141-1163 | a control built from any prefix with no parts decodes to its page |
| Callbacks.SearchPageRoundTrip | bot/handlers.py:1141-1163 | a search list's control `p_csr_<n>` / `p_psr_<n>` decodes to page `n`, for every integer `n` |
| Callbacks.ProfCoursePageRoundTrip | bot/handlers.py:1165-1177 | `p_pcl_<id>_<n>` decodes to `(id, n)` whatever the id holds, since `rsplit` cuts at the last `_` |
| Callbacks.YearSemesterPageRoundTrip | bot/handlers.py:1179-1189 | `p_ys_<mode>_<id>_<n>` decodes to `[mode, id, n]` exactly when neither mode nor id holds `_` |
| Callbacks.DecodeCourseSelect | bot/handlers.py:761-767 | a `cs_` payload is decoded exactly when it carries the prefix |
| Callbacks.DecodeSelection | bot/handlers.py:761-845 | `cs_` payloads are course selections and `ps_` payloads professor selections, exactly |
| Callbacks.CourseButtonSelects | bot/handlers.py:761-767 | a course button `cs_<code>` is a course selection of that code |
| Callbacks.ProfCourseButtonSelects | bot/handlers.py:761-772 | a professor's course button is a course selection of that code in the professor flow |
| Callbacks.ProfCourseChoice | bot/handlers.py:761-772 | a payload splitting into `[code, "prof", id]` after `cs_` is a professor-flow choice of that code and id |
| Callbacks.CourseSelectRoundTrip | bot/handlers.py:761-767 | a course button `cs_<code>` gives back the code, outside the professor flow |
| Callbacks.ProfCourseSelectRoundTrip | bot/handlers.py:761-772 | a professor's course button `cs_<code>\|prof\|<id>` gives back the code and the id |
| Callbacks.ProfButtonSelects | bot/handlers.py:840-842 | a professor button `ps_<id>` selects that professor |
| Callbacks.DecodeYearSemSelect | bot/handlers.py:987-992 | an accepted `ysel_` payload has exactly four fields |
| Callbacks.YearSemSelectRoundTrip | bot/handlers.py:987-992 | a term button decodes to its four fields exactly when none of them holds `\|` |
| Callbacks.IntAfter | bot/handlers.py:840-842 | a payload no longer than its prefix leaves `int("")`, which fails |
| Callbacks.IntAfterShortPayload | bot/handlers.py:840-842 | a payload no longer than its prefix leaves the empty string to parse |
| Callbacks.IdPayloadRoundTrip | bot/handlers.py:1401-1405 | every id payload built from `str(id)` decodes to that id, read by slicing or by `split(prefix, 1)` |
| Callbacks.DecodePlotBack | bot/handlers.py:1442-1460 | the payload is refused exactly when the prefix is missing |
| Callbacks.PlotBackRoundTrip | bot/handlers.py:1442-1460 | both "Select Diff. Course" payloads decode to their targets |
| Slots.Get | bot/handlers.py:323-340 | an absent key reads as `None` |
| Slots.ClearListContextExact | bot/handlers.py:323-340 | `_clear_list_context(t)` drops exactly its keys, keeps every other key's value, and is idempotent |
| Slots.ListContextsDisjoint | bot/handlers.py:323-340 | clearing one list never touches another list's keys |
| Slots.KeyGroupsNest | bot/handlers.py:1303-1439 | the groups of keys the back handlers pop are built from one another |
| Slots.BackLevelsNest | bot/handlers.py:1246-1439 | going back further forgets more: each back target drops all that the one below it drops |
| Slots.SelectionSparesSearches | bot/handlers.py:748-758 | no selection drops either search's cached list |
| Slots.SessionKeysSurviveBacktracking | bot/handlers.py:1246-1439 | no back target and no selection drops the edit target, the search mode or the feedback slots |
| Slots.BackTargetsKeepOtherSearch | bot/handlers.py:1246-1391 | course-side back targets keep the professor search and vice versa |
| Transitions.ProfNameInFirstHit | bot/handlers.py:848-851 | the recorded professor name is that of the first hit with the id |
| Transitions.StartCommandReplacesEditTarget | bot/handlers.py:534-596 | `/start` replaces only the edit target and reaches SELECTING_ACTION exactly when the welcome went out |
| Transitions.SelectSearchModeOutcome | bot/handlers.py:600-643 | choosing a mode forgets all but the edit target and the mode, and reaches the typing state exactly for the two mode payloads with a stored target and a shown prompt |
| Transitions.ShortQueryKeepsLists | bot/handlers.py:661-670 | a stripped query shorter than 2 (course) or 3 (professor) keeps the user typing and the cached lists untouched |
| Transitions.SearchInputOutcome | bot/handlers.py:646-728 | a long enough search touches only its own list context and the edit target; it lists exactly when there are hits and the edit went through, storing hits, page 0 and the stripped query together; no hits keep the user typing |
| Transitions.SearchResultsShowable | bot/handlers.py:712-716 | a stored search list can be shown again straight away |
| Transitions.SelectionForgetsTerms | bot/handlers.py:748-758 | the clearing before a selection stores the edit target and drops the year/semester choice, term list and plot |
| Transitions.SelectItemForgetsChoice | bot/handlers.py:748-758 | selecting an item stores the edit target and forgets any year/semester choice, term list and plot |
| Transitions.SelectItemKeepsSearchLists | bot/handlers.py:739-898 | selecting an item never touches either search's cached list |
| Transitions.SelectionBranchesWrite | bot/handlers.py:761-891 | each branch writes only its own keys and returns one of the four states a selection leads to |
| Transitions.SelectCourseWrites | bot/handlers.py:761-838 | a course selection writes only the chosen course and the term-list slots |
| Transitions.OfferingsOfCourse | bot/handlers.py:795-796 | the filter keeps exactly the professor's offerings of the chosen course |
| Transitions.CourseTerms | bot/handlers.py:790-798 | in the professor flow the terms are offerings of the chosen course; in course mode there is always a term list, empty when the backend call failed |
| Transitions.StoreTermList | bot/handlers.py:827-831 | storing a term list writes the terms, page 0, the mode and the identifier and nothing else |
| Transitions.ShowTermListStores | bot/handlers.py:800-831 | a shown term list is stored with page 0, its mode and its identifier, keeps the chosen course, and has a sortable order |
| Transitions.ListCourseTermsStores | bot/handlers.py:788-831 | a listed course's non-empty terms are stored beside the search mode; in the professor flow all are of the chosen course |
| Transitions.StoredTermListShowable | bot/handlers.py:1498-1536 | a term list stored this way can be shown again exactly when the course code is non-empty |
| Transitions.CourseSelectionStoresTermList | bot/handlers.py:827-831 | a listed course keeps its terms on page 0 with the mode and back identifier beside them; in the professor flow every term is an offering of the chosen course |
| Transitions.CourseSelectionRestorable | bot/handlers.py:827-831 | that list can be brought back from the plot exactly when the course code is non-empty |
| Transitions.ProfCourseButtonChecksProf | bot/handlers.py:768-774 | a professor's course button carrying another professor's id ends the conversation |
| Transitions.SelectProfWrites | bot/handlers.py:840-891 | a professor selection writes only the professor's id, the mode and the name, and lists the courses or ends |
| Transitions.ProfSelectionRecordsProf | bot/handlers.py:840-891 | selecting professor `id` records the id, the professor mode and the first hit's name, drops the chosen course and the old course list, and reaches the course list exactly when the dossier was shown |
| Transitions.UniqueCoursesCodes | bot/handlers.py:937-947 | the de-duplicated course list has one entry per truthy course code of the offerings and no other |
| Transitions.UniqueCoursesDistinct | bot/handlers.py:937-947 | no course code appears twice in it |
| Transitions.UniqueCoursesKeepFirst | bot/handlers.py:937-947 | each entry carries the code and name of the first offering with that code |
| Transitions.ViewProfCoursesOutcome | bot/handlers.py:900-969 | viewing a professor's courses records the id, the offerings and their de-duplicated list on page 0, and touches nothing else |
| Transitions.SelectYearSemesterOutcome | bot/handlers.py:971-1063 | picking a term writes only the message ids, the choice and the plot; it reaches the grades exactly when payload, course, notice, record and grades are all there |
| Transitions.PlotKeepsTermList | bot/handlers.py:971-1063 | picking a term keeps a stored year/semester list, so the plot's back button brings it back whenever the message goes out |
| Transitions.PaginateWritesOnlyPage | bot/handlers.py:1066-1137 | turning a page writes only the edit target and that list's page, and returns the list's state or END |
| Transitions.PaginateStoresPage | bot/handlers.py:1131 | a list that was turned shows the decoded page |
| Transitions.PaginateTurnsPage | bot/handlers.py:1077-1131 | the page turns exactly when the list is cached, its keyboard builds and the edit goes through |
| Transitions.DecodedPageTurns | bot/handlers.py:1077-1131 | a payload that decodes to a page number turns a cached list whose keyboard builds to that page, and stores it, when the edit goes through |
| Transitions.SearchPageButtonTurnsPage | bot/handlers.py:1141-1163 | a search list's control turns to its page whenever the list is cached |
| Transitions.ProfCoursePageButtonTurnsPage | bot/handlers.py:1165-1177 | a professor course-list control turns to its page whenever the course list is cached |
| Transitions.TermPageButtonTurnsPage | bot/handlers.py:1179-1189 | a year/semester control turns to its page when mode and id hold no `_`, and ends otherwise |
| Transitions.ChainIsShort | bot/handlers.py:1303-1439 | every back-handler fallback chain starts at the pressed handler, visits at most three handlers and strictly descends, so it ends |
| Transitions.DelegateDescends | bot/handlers.py:1303-1439 | a back handler only ever hands over to one of lower rank |
| Transitions.BackToMainResets | bot/handlers.py:1193-1243 | going to the main menu keeps nothing but the new welcome message |
| Transitions.BackToTypingForgets | bot/handlers.py:1246-1300 | going back to typing forgets that search and everything below it, sets the mode, and keeps the rest |
| Transitions.BackToCourseSearchListOutcome | bot/handlers.py:1361-1391 | with no list it falls back to typing a course; with a list it shows it again and drops the course level |
| Transitions.BackToProfSearchListOutcome | bot/handlers.py:1303-1358 | with no list it falls back to typing a professor; otherwise it resends the list, which becomes the edit target, and drops the professor level |
| Transitions.BackToProfCourseListFallbacks | bot/handlers.py:1394-1423 | a bad payload goes to the main menu and another professor's id to typing a professor |
| Transitions.BackToProfCourseListRestores | bot/handlers.py:1394-1439 | on the cached professor it forgets the course level and shows the list again |
| Transitions.ViewedProfCoursesCanBeRestored | bot/handlers.py:900-1439 | after viewing a professor's non-empty course list, its back button brings it back |
| Transitions.PlotBackToCourseResults | bot/handlers.py:1442-1493 | the plot's course-results button shows the cached results again |
| Transitions.PlotBackToProfCourses | bot/handlers.py:1442-1493 | the plot's professor button shows the cached course list again |
| Transitions.TermListShownAgain | bot/handlers.py:1498-1536 | with all four pieces stored, the plot's back button shows the year/semester list |
| Transitions.EmptyFeedbackAskedAgain | bot/handlers.py:1720-1727 | empty stripped feedback is asked for again and changes nothing |
| Transitions.FeedbackRoundLeavesNoTrace | bot/handlers.py:1675-1826 | start, type, message and confirm pass through the four feedback states, hold the stripped message, and end with the slots as before minus the feedback slots |
| Transitions.RetryAsWrittenEnds | bot/handlers.py:1018-1045 | as written, a missing record or missing grades always end the conversation |
| Transitions.RetryCorrectedShowsList | bot/handlers.py:1010-1029 | with the keyword corrected, they keep the user at the year/semester list whenever it can be shown |
| Sessions.FindProfName | bot/handlers.py:848-851 | the search loop finds the first hit's name for the id |
| Sessions.DeduplicateCourses | bot/handlers.py:937-947 | the loop with its `seen` set builds the de-duplicated course list |
| Sessions.Session.ClearList | bot/handlers.py:323-340 | the pops leave exactly the cleared list context |
| Sessions.Session.Start | bot/handlers.py:534-596 | the new slots and state are those of `StartCommand` |
| Sessions.Session.SelectSearchMode | bot/handlers.py:600-643 | the new slots and state are those of `SelectSearchMode` |
| Sessions.Session.SearchTextInput | bot/handlers.py:646-728 | the new slots and state are those of `SearchInput` |
| Sessions.Session.SelectItem | bot/handlers.py:739-898 | the new slots and state are those of `SelectItem` on the decoded payload |
| Sessions.Session.SelectCourse | bot/handlers.py:761-838 | the `cs_` branch's assignments, one at a time, end in the slots and state of `SelectCourse` |
| Sessions.Session.ViewProfCourses | bot/handlers.py:900-969 | the new slots and state are those of `ViewProfCourses` on the decoded id |
| Sessions.Session.SelectYearSemester | bot/handlers.py:971-1063 | the new slots and state are those of `SelectYearSemester` for either retry call: the `TypeError` of the retry as written ends the conversation, the corrected retry shows the list again |
| Sessions.Session.SelectProfessor | bot/handlers.py:840-891 | the new slots and state are those of `SelectProf` |
| Sessions.Session.Paginate | bot/handlers.py:1066-1137 | the new slots and state are those of `Paginate` |
| Sessions.Session.PageCallback | bot/handlers.py:1066-1189 | the new slots and state are those of the decoder and `Paginate` |
| Sessions.Session.BackToMain | bot/handlers.py:1193-1243 | the new slots and state are those of `BackToMain` |
| Sessions.Session.BackToTypingCourse | bot/handlers.py:1246-1270 | the new slots and state are those of `BackToTypingCourse` |
| Sessions.Session.BackToTypingProf | bot/handlers.py:1273-1300 | the new slots and state are those of `BackToTypingProf` |
| Sessions.Session.Back | bot/handlers.py:1303-1439 | any back handler, with the calls it hands over to, ends in the slots and state of `Back` |
| Sessions.Session.BackToProfSearchList | bot/handlers.py:1303-1358 | the new slots and state are those of the back chain from `back_to_prof_search_list` |
| Sessions.Session.BackToCourseSearchList | bot/handlers.py:1361-1391 | the new slots and state are those of the back chain from `back_to_course_search_list` |
| Sessions.Session.BackToProfCourseList | bot/handlers.py:1394-1439 | the new slots and state are those of the back chain from `back_to_prof_courses` |
| Sessions.Session.BackToCourseListFromPlot | bot/handlers.py:1442-1493 | the new slots and state are those of `BackToCourseListFromPlot` |
| Sessions.Session.BackToYearSemSelect | bot/handlers.py:1498-1536 | the new slots and state are those of `BackToYearSemSelect` |
| Sessions.Session.Cancel | bot/handlers.py:1539-1562 | everything is cleared and the conversation ends |
| Sessions.Session.Close | bot/handlers.py:1590-1611 | everything is cleared and the state stays |
| Sessions.Session.FeedbackStart | bot/handlers.py:1675-1687 | both feedback slots go, then ASK_FEEDBACK_TYPE |
| Sessions.Session.FeedbackType | bot/handlers.py:1690-1712 | the type is stored, then TYPING_FEEDBACK_MESSAGE |
| Sessions.Session.FeedbackMessage | bot/handlers.py:1715-1751 | the stripped message is stored, or asked for again |
| Sessions.Session.FeedbackConfirm | bot/handlers.py:1754-1826 | both feedback slots go, or everything without a message, then END |
| Sessions.Session.FeedbackCancelOrEdit | bot/handlers.py:1829-1845 | both feedback slots go, then ASK_FEEDBACK_TYPE |
| Escaping.EscapeSequentially | bot/handlers.py:344-355 | one `replace` per distinct special character, in order, equals the per-character escape |
| Escaping.EscapeMarkdownV1 | bot/handlers.py:86-94 | the result is the per-character escape of `` _*`[ ``, one character longer per special character |
| Escaping.EscapeMarkdownV2 | bot/handlers.py:344-355 | the result is the per-character escape of the 18 MarkdownV2 specials, one character longer per special character |
| Escaping.ReplaceExtendsEscape | bot/handlers.py:344-355 | one more `replace` of a new special character escapes that character too |
| Escaping.EscapedLength | bot/handlers.py:344-355 | escaping adds exactly one character per special character |
| Escaping.UnescapeEscape | bot/handlers.py:344-355 | escaping loses nothing: unescaping gives the text back |
| Escaping.SpecialsArePreceded | bot/handlers.py:344-355 | in the escaped text every special character sits right after a backslash |
| Gating.MaintenanceStatus | bot/handlers.py:96-125 | admins see no maintenance; absent, `'false'` and a connection failure read as live; `'true'` and `'stealth'` as stealth; other values as they are; only other read errors escape |
| Gating.BlockCheckFailsOpen | bot/handlers.py:281-317 | the block check stops exactly a non-admin user whose lookup answered a truthy `is_blocked` |
| Gating.GateCases | bot/handlers.py:127-151 | the gate stops silently for stealth, replies with the flag for a message, lets an escaped read error through, and otherwise stops only a blocked user |
| Gating.AdminsAlwaysPass | bot/handlers.py:127-151 | admins are never stopped |
| Gating.GateFailsOpen | bot/handlers.py:127-151 | an unreachable flag store and a failed lookup stop nobody |
| Gating.NoUserPasses | bot/handlers.py:127-151 | updates without a user skip both checks |
| Gating.MaintenanceCommandCases | bot/handlers.py:153-201 | `maintenance_command` as written answers only admins; its report says live exactly for a falsy flag, stealth exactly for `'stealth'` and otherwise shows the stored text; `off`/`on` in any case write the flag and any other sub-command is refused |
| Gating.CommandThenGate | bot/handlers.py:178-199 | after `off` the flag is deleted and only blocked users stop; after `on` users stop silently; after `on <words>` the joined words are non-empty and, when they are a message value, users get exactly them |
| Gating.StatusReportMatchesGate | bot/handlers.py:159-176 | `/maintenance` with the corrected status report says live, stealth or message exactly when the gate passes, stops silently or replies with that message |
| Gating.LegacyFlagsMisreported | bot/handlers.py:159-176 | as written, `/maintenance` reports the legacy `'false'` and `'true'` flags as messages although the gate passes or stops silently |
| ErrorReplies.KindShown | bot/handlers.py:366-399 | every error kind is told apart by its message |
| ErrorReplies.StatusShown | bot/handlers.py:370-378 | a backend error shows its status code |
| ErrorReplies.DetailShown | bot/handlers.py:373-379 | a backend error shows its `detail` cut to 100 characters, and none when absent |
| ErrorReplies.ValueTextShown | bot/handlers.py:390-393 | a `ValueError` shows its text cut to 150 characters |
| ErrorReplies.FirstTruthy | bot/handlers.py:402-406 | the chosen chat is one of the candidates and truthy, and there is none exactly when no candidate is truthy |
| ErrorReplies.ChatIdChain | bot/handlers.py:402-406 | the chat is the first truthy of the chat id, the context's chat and the context's user |
| ErrorReplies.DeliveryCases | bot/handlers.py:408-422 | the reply is the error's text under the single restart button, edited in place when possible and otherwise sent to the chosen chat |
| Conversation.ClassifyFindsPrefix | bot/main.py:124-162 | a payload starting with a callback word is classified as that word |
| Conversation.WordsPrefixFree | bot/constants.py:24-55 | no callback word starts another |
| Conversation.StatePatternsExclusive | bot/main.py:123-153 | within one state no two handlers can match the same event |
| Conversation.TablesPartitionStates | bot/main.py:123-178 | the two tables name exactly the browse and the feedback states |
| Conversation.SelectingActionTakesOnlyModes | bot/main.py:124 | SELECTING_ACTION takes exactly `mode_course` and `mode_prof` |
| Conversation.TypingStatesTakeOnlyText | bot/main.py:125-126 | the typing states take any non-command text and nothing else |
| Conversation.FallbacksAlwaysAnswer | bot/main.py:155-163 | every fallback answers from every state, and no entry point or state handler takes its event elsewhere |
| Conversation.EntryMatch | bot/main.py:122-171 | the search is entered only by `/start` and the feedback flow only by `/feedback` |
| Conversation.TimeoutsEndConversations | bot/main.py:164-186 | ten idle minutes end a search and five a feedback round |
| Conversation.EntryAlwaysRestarts | bot/main.py:164-187 | the entry command restarts its conversation from any state, timed out or not |
| Conversation.IdleConversationTakesOnlyEntry | bot/main.py:121-188 | without a conversation only the entry command is answered |
| Conversation.FeedbackStartLeavesUnknownState | bot/main.py:180-185 | the feedback flow's `/start` fallback returns SELECTING_ACTION, which the feedback table does not know |
| Conversation.GateRunsFirst | bot/main.py:118 | an update the group -1 gate stops reaches no handler |
| Conversation.StartAlwaysGoesToSearch | bot/main.py:121-189 | `/start` always restarts the search, so the feedback flow's own `/start` never runs |
| Conversation.SearchIgnoresOtherCommands | bot/main.py:121-166 | no search state takes commands other than its entry and three fallbacks |
| Conversation.FeedbackIgnoresOtherCommands | bot/main.py:170-188 | no feedback state takes commands other than `/feedback`, `/cancel` and `/start` |
| Conversation.GeneralCommandNames | bot/main.py:192-200 | the plain commands are distinct commands and, `/help` aside, none is also a conversation command |
| Conversation.FeedbackAlwaysReachable | bot/main.py:170-189 | `/feedback` opens the feedback flow from anywhere |
| Conversation.PlainCommandsAlwaysReachable | bot/main.py:192-200 | the admin and subscription commands are answered whatever either conversation is doing |
| Conversation.HelpAlwaysAnswered | bot/main.py:192 | `/help` is the search fallback during a search and the plain command otherwise |
| Conversation.SearchPromptCapturesFeedbackText | bot/main.py:167-189 | a search prompt waiting for text captures text typed for an open feedback round |
| Menus.ServedMeansAnswered | bot/main.py:123-178 | a state that serves a keyboard answers every one of its buttons |
| Menus.StartMenuServed | bot/keyboards.py:25-31 | the start menu is answered in SELECTING_ACTION |
| Menus.CancelMenuServed | bot/keyboards.py:33-35 | the search prompt's cancel is answered in both typing states |
| Menus.SearchResultsServed | bot/main.py:127-136 | every button of a results page is answered by the results state of its kind |
| Menus.ProfCourseListServed | bot/main.py:137-141 | a professor's course list is answered in SELECTING_COURSE_FOR_PROF |
| Menus.DossierServed | bot/keyboards.py:202-208 | the dossier's buttons are answered in SELECTING_COURSE_FOR_PROF |
| Menus.YearSemesterServed | bot/main.py:142-147 | every button of a year/semester page is answered in SELECTING_YEAR_SEMESTER |
| Menus.FinalOptionsServed | bot/main.py:148-153 | the options under a plot are answered in SHOWING_FINAL_GRADES |
| Menus.FeedbackTypeMenuServed | bot/keyboards.py:214-220 | the feedback type menu is answered in ASK_FEEDBACK_TYPE |
| Menus.FeedbackEntryMenuServed | bot/keyboards.py:222-223 | the feedback entry's cancel button is answered in TYPING_FEEDBACK_MESSAGE |
| Menus.FeedbackConfirmationMenuServed | bot/keyboards.py:225-229 | the confirmation menu is answered in CONFIRM_FEEDBACK_SUBMISSION |
| DeadButtons.RestartButtonUnrouted | bot/handlers.py:358-360 | the restart button's `back_main` reaches no handler once the search has ended |
| DeadButtons.RestartingTableAgrees | bot/main.py:121-166 | adding `back_main` as an entry point changes no routing inside a running search |
| DeadButtons.RestartingTableAnswersRestart | bot/main.py:121-122 | with that entry point the restart button starts over after an error |
| DeadButtons.NoOfferingsBackUnanswered | bot/handlers.py:800-825 | the "no offerings" back button is answered by no handler of the state returned, while "New Search" is |
| DeadButtons.NoOfferingsCorrectedServed | bot/handlers.py:800-825 | returning SELECTING_YEAR_SEMESTER instead, every button of the notice is answered |
| Limiter.HeaderGet | api/utils/limiter.py:10 | a header lookup finds a header of that name up to case, and fails exactly when there is none |
| Limiter.IdentifierCases | api/utils/limiter.py:10-18 | a non-empty user-id header wins as it is; else the forwarding chain's first comma field, stripped; else the client address, or `127.0.0.1` |
| Limiter.BotTrafficKeyedPerUser | api/utils/limiter.py:10-12 | whatever a proxy appends, a bot request for a user is keyed by `str(user_id)`, which reads back as the user |
| Limiter.DistinctUsersDistinctKeys | api/utils/limiter.py:10-12 | two users never share a rate-limit key |

## Left out

- Telegram I/O is left out: sending, editing, deleting, photos and answering callback queries. The model keeps
  only whether each numbered call succeeds (`Io`) and the message id a send returns.
- Awaited calls outside any `try` are taken to succeed: the `query.answer()` at bot/handlers.py:741, 975, 1070,
  1696, 1764 and 1835, and the edits at bot/handlers.py:1707, 1778 and 1839. In the program a failure of one of
  them escapes the handler, python-telegram-bot keeps the previous conversation state, and slots popped before
  the call stay popped. For example, a failed edit at bot/handlers.py:1839 leaves both feedback slots in place
  and the state unchanged, while `Transitions.FeedbackCancelOrEdit` always pops both and goes to
  ASK_FEEDBACK_TYPE. The model has no outcome for an escaping exception. The texts of the messages
  the handlers send are not modelled, except for the error replies.
- Redis client calls are left out. The model keeps only the flag value read (`FlagRead`) or written
  (`FlagWrite`). `bot/set_initial_mode.py` is not part of this model.
- Fire-and-forget scheduling (`create_task` in `handle_api_error` and `start_command`) is left out. It is
  concurrency; the model calls the error helper directly.
- `_format_dossier_caption` and `display_grades_and_plot` are left out. They do floating-point formatting and
  plotting. The plot's message id, or its absence, is an input.
- `bot/api_client.py` is a network client and is not part of this model. Each wrapper's answer is an `Option`
  input. The header it attaches is modelled by `Limiter.BotHeaders`.
- `help_command`, `subscribe_command` and `unsubscribe_command` are left out, as are the network side of the
  admin commands (`block`, `unblock`, `userstatus`, `broadcast_admin`, `admin_commands`). Only their routing is
  modelled.
- `_disable_previous_plot_buttons` is modelled only as the pop of the stored plot message. The edit it sends is
  Telegram I/O.
- Sessions.Session: one user's `user_data` is modelled. The per-chat and per-user keying of conversations in
  python-telegram-bot is not.
- `get_ipaddr` of the rate-limit library is an input (`clientAddress`).
- Webhook, uvicorn and `add_handler` plumbing are left out, as are the API routers, the database, Celery tasks
  and the ingestion scripts.

## Findings

| source | as written | input that shows it | evidently intended | confidence | as-written member | corrected member |
|---|---|---|---|---|---|---|
| bot/handlers.py:1018-1045 | the retry keyboard is built with the keyword `identifier_for_back_button`, which `create_year_semester_keyboard` (bot/keyboards.py:139-144) does not take, so the call raises `TypeError` and the conversation ends | a year/semester button for a term whose offering record or grades the backend does not return | the list is shown again with the notice and the user stays in SELECTING_YEAR_SEMESTER (the keyword is `back_id`) | not executed | Transitions.RetryAsWrittenEnds | Transitions.RetryCorrectedShowsList |
| bot/handlers.py:159-176 | the status report calls any truthy flag other than `'stealth'` a message, including the legacy `'false'` and `'true'` that `get_maintenance_status` (bot/handlers.py:110-116) reads as live and as stealth | `/maintenance` with no arguments while the flag holds `'false'` (reported as a message; users pass) or `'true'` (reported as a message; users are stopped silently) | the report reads the flag the way the gate does | not executed | Gating.LegacyFlagsMisreported | Gating.StatusReportMatchesGate |

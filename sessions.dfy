/**
 * The handlers of `bot/handlers.py` as methods of one user's session: the
 * `context.user_data` dictionary is the field `userData`, which each
 * handler pops, assigns and clears step by step, in the order the source
 * does, before it hands back the next conversation state. Every handler
 * ends in exactly the slots and the state its transition function in
 * `Transitions` describes, so what is proved there holds of the session.
 */
module Sessions {
  import opened Wrappers
  import opened PyStr
  import opened Constants
  import opened Keyboards
  import opened Callbacks
  import opened Slots
  import opened Transitions

  /**
   * The name `select_item_callback` records for professor `id`: the first
   * hit with that id lends its name (the fallback when it has none), and
   * the search stops there.
   */
  method FindProfName(items: seq<SearchItem>, id: int, fallback: string) returns (name: string)
    ensures name == ProfNameIn(items, id, fallback)
  {
    name := fallback;
    var i := 0;
    while i < |items|
      invariant 0 <= i <= |items|
      invariant ProfNameIn(items[i..], id, fallback) == ProfNameIn(items, id, fallback)
    {
      assert items[i..][0] == items[i] && items[i..][1..] == items[i + 1..];
      if items[i].id == Some(id) {
        name := items[i].name.GetOr(name);
        return;
      }
      i := i + 1;
    }
  }

  /**
   * The course list `view_prof_courses_callback` builds: one entry per
   * truthy course code, in order of first appearance, with the codes seen
   * so far kept in a set.
   */
  method DeduplicateCourses(offerings: seq<Offering>) returns (unique: seq<CourseEntry>)
    ensures unique == UniqueCourses(offerings)
  {
    unique := [];
    var seen: set<string> := {};
    for i := 0 to |offerings|
      invariant unique == UniqueCourses(offerings[..i])
      invariant seen == CodesOf(unique)
    {
      assert offerings[..i + 1][..i] == offerings[..i];
      var o := offerings[i];
      var code := o.courseCode;
      if Truthy(code) && code.value !in seen {
        var e := CourseEntry(code, o.courseName);
        CodesOfSnoc(unique, e);
        unique := unique + [e];
        seen := seen + {code.value};
      }
    }
    assert offerings[..|offerings|] == offerings;
  }

  /** Dropping one set of keys and then another is dropping both at once. */
  lemma DropTwice(m: Slots, a: set<Key>, b: set<Key>)
    ensures m - a - b == m - (a + b)
  {
  }

  class Session {
    /** `context.user_data`. */
    var userData: Slots

    constructor ()
      ensures userData == map[]
    {
      userData := map[];
    }

    /** `user_data.pop(k, None)`. */
    method Pop(k: Key)
      modifies this
      ensures userData == old(userData) - {k}
    {
      userData := userData - {k};
    }

    /** `user_data[k] = v`. */
    method Put(k: Key, v: Slot)
      modifies this
      ensures userData == old(userData)[k := v]
    {
      userData := userData[k := v];
    }

    /** `_clear_list_context(t)`: the list, its page and its keyboard cache, then the list's own extra key. */
    method ClearList(t: ListType)
      modifies this
      ensures userData == ClearListContext(old(userData), t)
    {
      Pop(ResultsKey(t));
      Pop(PageKey(t));
      Pop(UniqueKbKey(t));
      match t
      case CourseSearch => Pop(LastCourseQueryKey);
      case ProfSearch => Pop(LastProfQueryKey);
      case ProfCourseList => Pop(ProfCoursesKey);
      case YearSemesterList =>
    }

    /** `start_command`. */
    method Start(io: Io) returns (next: Next)
      modifies this
      ensures Outcome(userData, next) == StartCommand(old(userData), io)
    {
      Pop(OriginalMessageKey);
      if !Succeeds(io, 0) {
        return End;
      }
      Put(OriginalMessageKey, IntSlot(io.sentId));
      next := To(SelectingAction);
    }

    /** `select_search_mode_callback`. */
    method SelectSearchMode(data: string, io: Io) returns (next: Next)
      modifies this
      ensures Outcome(userData, next) == Transitions.SelectSearchMode(old(userData), data, io)
    {
      var original := Get(userData, OriginalMessageKey);
      userData := map[];
      if SlotTruthy(original) {
        Put(OriginalMessageKey, original);
      }
      if !SlotTruthy(original) {
        return End;
      }
      var typing: State;
      if data == CourseSearchMode {
        Put(SearchModeKey, StrSlot("course"));
        typing := TypingCourse;
      } else if data == ProfSearchMode {
        Put(SearchModeKey, StrSlot("prof"));
        typing := TypingProf;
      } else {
        return End;
      }
      next := if Succeeds(io, 0) then To(typing) else End;
    }

    /** `_handle_search_text_input(search_type)`, with the backend's hits. */
    method SearchTextInput(kind: SearchKind, text: string, io: Io, results: Option<seq<SearchItem>>)
      returns (next: Next)
      modifies this
      ensures Outcome(userData, next) == SearchInput(old(userData), kind, text, io, results)
    {
      var query := Strip(text);
      var prompt := Get(userData, OriginalMessageKey);
      var typing := To(TypingStateOf(kind));
      if |query| < MinQueryLength(kind) {
        if !(SlotTruthy(prompt) && Succeeds(io, 0)) {
          Put(OriginalMessageKey, IntSlot(io.sentId));
        }
        return typing;
      }
      if !SlotTruthy(prompt) || !Succeeds(io, 0) {
        Put(OriginalMessageKey, IntSlot(io.sentId));
        prompt := IntSlot(io.sentId);
      }
      if !SlotTruthy(prompt) {
        return End;
      }
      var lt := SearchListOf(kind);
      if results.None? || results.value == [] {
        if Succeeds(io, 1) {
          return typing;
        }
        ClearList(lt);
        return End;
      }
      ClearList(lt);
      Put(ResultsKey(lt), ItemsSlot(results.value));
      Put(PageKey(lt), IntSlot(0));
      Put(QueryKeyOf(kind), StrSlot(query));
      if Succeeds(io, 1) {
        return To(ListingStateOf(kind));
      }
      ClearList(lt);
      next := End;
    }

    /** `select_item_callback`: the earlier choice goes, then the `cs_` or `ps_` branch runs. */
    method SelectItem(data: string, msgId: int, io: Io, offerings: Option<seq<Offering>>, dossierFound: bool)
      returns (next: Next)
      modifies this
      ensures Outcome(userData, next) ==
              Transitions.SelectItem(old(userData), DecodeSelection(data), msgId, io, offerings, dossierFound)
    {
      var sel := DecodeSelection(data);
      ForgetChoice(ProfSelectPrefix <= data, msgId);
      match sel
      case CourseSelection(choice) =>
        next := SelectCourse(choice, io, offerings);
      case ProfSelection(id) =>
        next := SelectProfessor(id, io, dossierFound);
      case UnknownSelection =>
        next := End;
    }

    /**
     * What `select_item_callback` drops before it looks at the payload: the
     * term choice, the term list and the plot, for a `ps_` payload also the
     * chosen course and the professor's list; the callback's message
     * becomes the edit target.
     */
    method ForgetChoice(profSelection: bool, msgId: int)
      modifies this
      ensures userData == (old(userData) - (if profSelection then ProfSelectionKeys() else SelectionKeys()))
                          [OriginalMessageKey := IntSlot(msgId)]
    {
      SelectionKeysNest();
      ForgetTerms();
      if profSelection {
        ForgetProfCourse();
      }
      Put(OriginalMessageKey, IntSlot(msgId));
    }

    /** The pops every selection starts with. */
    method ForgetTerms()
      modifies this
      ensures userData == old(userData) - SelectionKeys()
    {
      Pop(SelectedYearKey);
      Pop(SelectedSemesterKey);
      assert userData == old(userData) - TermChoiceKeys();
      ClearList(YearSemesterList);
      Pop(LastPlotMessageKey);
      Pop(LastBotMessageKey);
      SelectionKeysNest();
    }

    /** The further pops of a `ps_` selection. */
    method ForgetProfCourse()
      modifies this
      ensures userData == old(userData) - ({SelectedCourseKey} + ListContextKeys(ProfCourseList))
    {
      Pop(SelectedCourseKey);
      ClearList(ProfCourseList);
    }

    /** The `ps_` branch of `select_item_callback`. */
    /**
     * The `cs_` branch: the course is recorded, the professor id checked and
     * the "fetching" notice shown (call 0); then the terms are stored and
     * the year/semester list shown (call 1), or the empty notice shown.
     */
    method SelectCourse(choice: CourseChoice, io: Io, offerings: Option<seq<Offering>>) returns (next: Next)
      modifies this
      ensures Outcome(userData, next) == Transitions.SelectCourse(old(userData), choice, io, offerings)
    {
      Put(SelectedCourseKey, StrSlot(choice.code));
      if !ChoiceMatchesProf(userData, choice) || !Succeeds(io, 0) {
        return End;
      }
      var mode := Get(userData, SearchModeKey);
      var profMode := mode == StrSlot("prof");
      var identifier := if profMode then SlotStr(Get(userData, SelectedProfIdKey)) else choice.code;
      var terms := CourseTerms(userData, choice.code, profMode, offerings);
      if terms.None? {
        return End;
      }
      if terms.value == [] {
        var back := if profMode && SelectedProfIdKey in userData then SelectingCourseForProf else SelectingCourseResults;
        return if Succeeds(io, 1) then To(back) else End;
      }
      Put(ResultsKey(YearSemesterList), OfferingsSlot(terms.value));
      Put(PageKey(YearSemesterList), IntSlot(0));
      Put(TermListModeKey, mode);
      Put(TermListIdentifierKey, StrSlot(identifier));
      if YearSemesterKeyboard(terms.value, identifier, SlotStr(mode), 0).Some? && Succeeds(io, 1) {
        next := To(SelectingYearSemester);
      } else {
        next := End;
      }
    }

    method SelectProfessor(id: Option<int>, io: Io, dossierFound: bool) returns (next: Next)
      modifies this
      ensures Outcome(userData, next) == SelectProf(old(userData), id, io, dossierFound)
    {
      if id.None? {
        return End;
      }
      var pid := id.value;
      Put(SelectedProfIdKey, IntSlot(pid));
      Put(SearchModeKey, StrSlot("prof"));
      var fallback := "ID " + IntToString(pid);
      var hits := GetOr(userData, ResultsKey(ProfSearch), ItemsSlot([]));
      if !hits.ItemsSlot? {
        return End;
      }
      var name := FindProfName(hits.items, pid, fallback);
      Put(SelectedProfNameKey, StrSlot(name));
      if Succeeds(io, 0) && dossierFound && Succeeds(io, 1) && Succeeds(io, 2) {
        next := To(SelectingCourseForProf);
      } else {
        next := End;
      }
    }

    /** `view_prof_courses_callback`, with the professor's offerings from the backend. */
    method ViewProfCourses(data: string, io: Io, offerings: Option<seq<Offering>>) returns (next: Next)
      modifies this
      ensures Outcome(userData, next) ==
              Transitions.ViewProfCourses(old(userData), IntAfter(data, ViewProfCoursesPrefix), io, offerings)
    {
      var id := IntAfter(data, ViewProfCoursesPrefix);
      if id.None? {
        return End;
      }
      Put(SelectedProfIdKey, IntSlot(id.value));
      Put(ResultsKey(ProfCourseList), if offerings.Some? then OfferingsSlot(offerings.value) else NoneSlot);
      next := if Succeeds(io, 0) then To(SelectingCourseForProf) else End;
      if offerings.None? || offerings.value == [] {
        return;
      }
      var unique := DeduplicateCourses(offerings.value);
      Put(ProfCoursesKey, CoursesSlot(unique));
      Put(PageKey(ProfCourseList), IntSlot(0));
    }

    /**
     * `select_year_semester_callback`, with the offering id and whether
     * grades were found, and the plot message when one went out. A missing
     * record or missing grades end the conversation under `RetryAsWritten`
     * (the retry call's `TypeError`) and show the retry list under
     * `RetryCorrected`.
     */
    method SelectYearSemester(data: string, msgId: Option<int>, io: Io,
                              offeringId: Option<int>, gradesFound: bool, plotSent: Option<int>,
                              retry: RetryCall)
      returns (next: Next)
      modifies this
      ensures Outcome(userData, next) ==
              Transitions.SelectYearSemester(old(userData), data, msgId, io, offeringId, gradesFound, plotSent, retry)
    {
      if msgId.None? {
        return End;
      }
      Put(LastBotMessageKey, MessageSlot(msgId.value));
      Put(OriginalMessageKey, IntSlot(msgId.value));
      var parts := DecodeYearSemSelect(data);
      if parts.None? {
        return End;
      }
      Put(SelectedYearKey, StrSlot(parts.value[0]));
      Put(SelectedSemesterKey, StrSlot(parts.value[1]));
      var course := Get(userData, SelectedCourseKey);
      if !SlotTruthy(course) || !Succeeds(io, 0) {
        return End;
      }
      if offeringId.None? || !gradesFound {
        if retry == RetryAsWritten {
          return End;
        }
        var retryKeyboard := RetryKeyboard(userData, SlotStr(course));
        if retryKeyboard.Some? && Succeeds(io, 1) {
          return To(SelectingYearSemester);
        }
        return End;
      }
      if plotSent.Some? {
        Put(FinalPlotMessageKey, MessageSlot(plotSent.value));
      }
      next := To(ShowingFinalGrades);
    }

    /** `_handle_pagination_callback` on the decoded parts. */
    method Paginate(t: ListType, parts: seq<string>, msgId: int, io: Io) returns (next: Next)
      modifies this
      ensures Outcome(userData, next) == Transitions.Paginate(old(userData), t, parts, msgId, io)
    {
      Put(OriginalMessageKey, IntSlot(msgId));
      var page := PageNumber(parts, ExpectedParts(t));
      if page.None? {
        return End;
      }
      var primary := Get(userData, ResultsKey(t));
      var forKeyboard := KeyboardSource(userData, t);
      if primary == NoneSlot || forKeyboard == NoneSlot {
        return End;
      }
      Put(PageKey(t), IntSlot(page.value));
      if PageBuilds(t, forKeyboard, parts, page.value) && Succeeds(io, 0) {
        next := To(ListStateOf(t));
      } else {
        next := End;
      }
    }

    /** A `page_*_callback`: its decoder, then the shared handler. */
    method PageCallback(t: ListType, data: string, msgId: int, io: Io) returns (next: Next)
      modifies this
      ensures Outcome(userData, next) == PageCallbackHandler(old(userData), t, data, msgId, io)
    {
      var parts := DecodePage(t, data);
      if parts.None? {
        return End;
      }
      next := Paginate(t, parts.value, msgId, io);
    }

    /** `_disable_previous_plot_buttons`: the plot message is forgotten (its keyboard removal may fail). */
    method DisablePlotButtons()
      modifies this
      ensures userData == old(userData) - {FinalPlotMessageKey}
    {
      Pop(FinalPlotMessageKey);
    }

    /** What hangs below a chosen course, popped as the list-restoring back handlers do. */
    method ForgetCourseLevel()
      modifies this
      ensures userData == old(userData) - CourseLevelKeys()
    {
      Pop(SelectedCourseKey);
      ClearList(YearSemesterList);
      Pop(LastPlotMessageKey);
      Pop(LastBotMessageKey);
      Pop(TermListModeKey);
      Pop(TermListIdentifierKey);
    }

    /** What hangs below a chosen professor, popped as `back_to_prof_search_list` does. */
    method ForgetProfLevel()
      modifies this
      ensures userData == old(userData) - ProfLevelKeys()
    {
      KeyGroupsNest();
      Pop(SelectedProfIdKey);
      Pop(SelectedProfNameKey);
      ClearList(ProfCourseList);
      ForgetCourseLevel();
    }

    /** `back_to_main_callback`. */
    method BackToMain(io: Io) returns (next: Next)
      modifies this
      ensures Outcome(userData, next) == Transitions.BackToMain(old(userData), io)
    {
      DisablePlotButtons();
      userData := map[];
      if !Succeeds(io, 0) {
        return End;
      }
      Put(OriginalMessageKey, IntSlot(io.sentId));
      next := To(SelectingAction);
    }

    /** The pops both typing handlers finish with: the course and everything below it, and the term choice. */
    method ForgetCourseAndTerms()
      modifies this
      ensures userData == old(userData) - (CourseLevelKeys() + TermChoiceKeys())
    {
      ghost var start := userData;
      Pop(SelectedCourseKey);
      ClearList(YearSemesterList);
      DropTwice(start, {SelectedCourseKey}, ListContextKeys(YearSemesterList));
      ghost var course := {SelectedCourseKey} + ListContextKeys(YearSemesterList);
      ghost var middle := userData;
      Pop(SelectedYearKey);
      Pop(SelectedSemesterKey);
      DropTwice(middle, {SelectedYearKey}, {SelectedSemesterKey});
      ghost var rest := {SelectedYearKey} + {SelectedSemesterKey};
      Pop(LastPlotMessageKey);
      DropTwice(middle, rest, {LastPlotMessageKey});
      rest := rest + {LastPlotMessageKey};
      Pop(LastBotMessageKey);
      DropTwice(middle, rest, {LastBotMessageKey});
      rest := rest + {LastBotMessageKey};
      Pop(TermListModeKey);
      DropTwice(middle, rest, {TermListModeKey});
      rest := rest + {TermListModeKey};
      Pop(TermListIdentifierKey);
      DropTwice(middle, rest, {TermListIdentifierKey});
      rest := rest + {TermListIdentifierKey};
      DropTwice(start, course, rest);
      assert course + rest == CourseLevelKeys() + TermChoiceKeys();
    }

    /** `back_to_typing_course_callback`. */
    method BackToTypingCourse(msgId: int, io: Io) returns (next: Next)
      modifies this
      ensures Outcome(userData, next) == Transitions.BackToTypingCourse(old(userData), msgId, io)
    {
      ghost var start := userData;
      ClearList(CourseSearch);
      ForgetCourseAndTerms();
      DropTwice(start, ListContextKeys(CourseSearch), CourseLevelKeys() + TermChoiceKeys());
      TypingKeysNest();
      assert userData == start - TypingCourseKeys();
      Put(SearchModeKey, StrSlot("course"));
      Put(OriginalMessageKey, IntSlot(msgId));
      next := if Succeeds(io, 0) then To(TypingCourse) else End;
    }

    /** `back_to_typing_prof_callback`. */
    method BackToTypingProf(msgId: int, io: Io) returns (next: Next)
      modifies this
      ensures Outcome(userData, next) == Transitions.BackToTypingProf(old(userData), msgId, io)
    {
      ghost var start := userData;
      ClearList(ProfSearch);
      ClearList(ProfCourseList);
      DropTwice(start, ListContextKeys(ProfSearch), ListContextKeys(ProfCourseList));
      ghost var lists := ListContextKeys(ProfSearch) + ListContextKeys(ProfCourseList);
      Pop(SelectedProfIdKey);
      Pop(SelectedProfNameKey);
      DropTwice(start - lists, {SelectedProfIdKey}, {SelectedProfNameKey});
      DropTwice(start, lists, {SelectedProfIdKey, SelectedProfNameKey});
      ghost var prof := lists + {SelectedProfIdKey, SelectedProfNameKey};
      ForgetCourseAndTerms();
      DropTwice(start, prof, CourseLevelKeys() + TermChoiceKeys());
      assert prof + (CourseLevelKeys() + TermChoiceKeys()) == TypingProfKeys();
      assert userData == start - TypingProfKeys();
      Put(SearchModeKey, StrSlot("prof"));
      Put(OriginalMessageKey, IntSlot(msgId));
      next := if Succeeds(io, 0) then To(TypingProf) else End;
    }

    /**
     * A back button: the list-restoring handlers first store the callback's
     * message as the edit target, then either hand the update to the
     * handler they fall back to or restore their list.
     */
    method Back(h: BackHandler, data: string, msgId: int, io: Io) returns (next: Next)
      modifies this
      ensures Outcome(userData, next) == Transitions.Back(h, old(userData), data, msgId, io)
      decreases Rank(h), 2
    {
      match h
      case ToMain =>
        next := BackToMain(io);
      case ToTypingCourse =>
        next := BackToTypingCourse(msgId, io);
      case ToTypingProf =>
        next := BackToTypingProf(msgId, io);
      case ToProfSearchList =>
        next := BackToProfSearchList(data, msgId, io);
      case ToCourseSearchList =>
        next := BackToCourseSearchList(data, msgId, io);
      case ToProfCourseList =>
        next := BackToProfCourseList(data, msgId, io);
    }

    /** `back_to_prof_search_list_callback`. */
    method BackToProfSearchList(data: string, msgId: int, io: Io) returns (next: Next)
      modifies this
      ensures Outcome(userData, next) == Transitions.Back(ToProfSearchList, old(userData), data, msgId, io)
      decreases 1, 0
    {
      Put(OriginalMessageKey, IntSlot(msgId));
      if MissingAt(userData, ResultsKey(ProfSearch)) {
        next := Back(ToTypingProf, data, msgId, io);
        return;
      }
      ForgetProfLevel();
      if SearchListShowable(userData, ProfSearch) && Succeeds(io, 0) && Succeeds(io, 1) {
        Put(OriginalMessageKey, IntSlot(io.sentId));
        next := To(SelectingProfResults);
      } else {
        next := End;
      }
    }

    /** `back_to_course_search_list_callback`. */
    method BackToCourseSearchList(data: string, msgId: int, io: Io) returns (next: Next)
      modifies this
      ensures Outcome(userData, next) == Transitions.Back(ToCourseSearchList, old(userData), data, msgId, io)
      decreases 1, 0
    {
      Put(OriginalMessageKey, IntSlot(msgId));
      if MissingAt(userData, ResultsKey(CourseSearch)) {
        next := Back(ToTypingCourse, data, msgId, io);
        return;
      }
      ForgetCourseLevel();
      next := if SearchListShowable(userData, CourseSearch) && Succeeds(io, 0) then To(SelectingCourseResults) else End;
    }

    /** `back_to_prof_courses_callback`: a button whose professor id does not parse goes to the main menu. */
    method BackToProfCourseList(data: string, msgId: int, io: Io) returns (next: Next)
      modifies this
      ensures Outcome(userData, next) == Transitions.Back(ToProfCourseList, old(userData), data, msgId, io)
      decreases 2, 1
    {
      var id := IntAfterFirst(data, BackToProfCourseListPrefix);
      if id.None? {
        BackHandsOver(ToProfCourseList, ToMain, userData, data, msgId, io);
        Put(OriginalMessageKey, IntSlot(msgId));
        next := Back(ToMain, data, msgId, io);
      } else {
        next := BackToProfCourseListOf(id.value, data, msgId, io);
      }
    }

    /** The same handler once the button's professor id `id` has parsed. */
    method BackToProfCourseListOf(id: int, data: string, msgId: int, io: Io) returns (next: Next)
      requires IntAfterFirst(data, BackToProfCourseListPrefix) == Some(id)
      modifies this
      ensures Outcome(userData, next) == Transitions.Back(ToProfCourseList, old(userData), data, msgId, io)
      decreases 2, 0
    {
      Put(OriginalMessageKey, IntSlot(msgId));
      if Get(userData, SelectedProfIdKey) != IntSlot(id) {
        BackHandsOver(ToProfCourseList, ToTypingProf, old(userData), data, msgId, io);
        next := Back(ToTypingProf, data, msgId, io);
      } else if !TruthyAt(userData, ProfCoursesKey) {
        BackHandsOver(ToProfCourseList, ToProfSearchList, old(userData), data, msgId, io);
        next := Back(ToProfSearchList, data, msgId, io);
      } else {
        BackActsItself(ToProfCourseList, old(userData), data, msgId, io);
        next := RestoreProfCourseList(msgId, io);
      }
    }

    /** The professor's course list handler's own work: forget the course level, then show the stored list. */
    method RestoreProfCourseList(msgId: int, io: Io) returns (next: Next)
      modifies this
      ensures Outcome(userData, next) == BackOwn(ToProfCourseList, old(userData), msgId, io)
    {
      ForgetCourseLevel();
      if Get(userData, ProfCoursesKey).CoursesSlot? && StoredPage(userData, ProfCourseList).Some? && Succeeds(io, 0) {
        next := To(SelectingCourseForProf);
      } else {
        next := End;
      }
    }

    /** `back_to_course_list_from_plot_callback`. */
    method BackToCourseListFromPlot(data: string, io: Io) returns (next: Next)
      modifies this
      ensures Outcome(userData, next) == Transitions.BackToCourseListFromPlot(old(userData), data, io)
    {
      DisablePlotButtons();
      match DecodePlotBack(data)
      case Some(ToProfCourses(_)) =>
        var ok := TruthyAt(userData, ProfCoursesKey) && Get(userData, ProfCoursesKey).CoursesSlot?
                  && StoredPage(userData, ProfCourseList).Some?;
        next := if ok && Succeeds(io, 0) then To(SelectingCourseForProf) else End;
      case Some(ToCourseResults) =>
        var ok := TruthyAt(userData, ResultsKey(CourseSearch)) && SearchListShowable(userData, CourseSearch);
        next := if ok && Succeeds(io, 0) then To(SelectingCourseResults) else End;
      case _ =>
        next := End;
    }

    /** `back_to_year_sem_select_callback`. */
    method BackToYearSemSelect(io: Io) returns (next: Next)
      modifies this
      ensures Outcome(userData, next) == Transitions.BackToYearSemSelect(old(userData), io)
    {
      DisablePlotButtons();
      if !TermListRestorable(userData) {
        return End;
      }
      var terms := Get(userData, ResultsKey(YearSemesterList));
      var page := StoredPage(userData, YearSemesterList);
      if !terms.OfferingsSlot? || page.None? {
        return End;
      }
      var keyboard := YearSemesterKeyboard(terms.offerings, SlotStr(Get(userData, TermListIdentifierKey)),
                                           SlotStr(Get(userData, TermListModeKey)), page.value);
      next := if keyboard.Some? && Succeeds(io, 0) then To(SelectingYearSemester) else End;
    }

    /** `cancel_conversation`. */
    method Cancel() returns (next: Next)
      modifies this
      ensures Outcome(userData, next) == CancelConversation(old(userData))
    {
      DisablePlotButtons();
      Pop(LastPlotMessageKey);
      userData := map[];
      next := End;
    }

    /** `simple_close_callback`. */
    method Close() returns (next: Next)
      modifies this
      ensures Outcome(userData, next) == SimpleClose(old(userData))
    {
      userData := map[];
      next := Stay;
    }

    /** `feedback_start_command`. */
    method FeedbackStart(hasUserAndMessage: bool) returns (next: Next)
      modifies this
      ensures Outcome(userData, next) == Transitions.FeedbackStart(old(userData), hasUserAndMessage)
    {
      if !hasUserAndMessage {
        return End;
      }
      Pop(FeedbackMessageKey);
      Pop(FeedbackTypeKey);
      next := To(AskFeedbackType);
    }

    /** `feedback_type_callback`. */
    method FeedbackType(data: string) returns (next: Next)
      modifies this
      ensures Outcome(userData, next) == Transitions.FeedbackType(old(userData), data)
    {
      if data == "" {
        return End;
      }
      Put(FeedbackTypeKey, StrSlot(data));
      next := To(TypingFeedbackMessage);
    }

    /** `feedback_message_handler`. */
    method FeedbackMessage(text: string) returns (next: Next)
      modifies this
      ensures Outcome(userData, next) == Transitions.FeedbackMessage(old(userData), text)
    {
      var feedback := Strip(text);
      if feedback == "" {
        return To(TypingFeedbackMessage);
      }
      Put(FeedbackMessageKey, StrSlot(feedback));
      next := To(ConfirmFeedbackSubmission);
    }

    /** `feedback_confirm_send_callback`; the submission's outcome does not matter. */
    method FeedbackConfirm(hasUser: bool) returns (next: Next)
      modifies this
      ensures Outcome(userData, next) == Transitions.FeedbackConfirm(old(userData), hasUser)
    {
      if !hasUser {
        return End;
      }
      if !TruthyAt(userData, FeedbackMessageKey) {
        userData := map[];
        return End;
      }
      Pop(FeedbackMessageKey);
      Pop(FeedbackTypeKey);
      next := End;
    }

    /** `feedback_cancel_or_edit_callback`. */
    method FeedbackCancelOrEdit() returns (next: Next)
      modifies this
      ensures Outcome(userData, next) == Transitions.FeedbackCancelOrEdit(old(userData))
    {
      Pop(FeedbackMessageKey);
      Pop(FeedbackTypeKey);
      next := To(AskFeedbackType);
    }
  }
}

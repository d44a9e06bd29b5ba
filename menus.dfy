/**
 * The menus of `bot/keyboards.py` and the conversation states the handlers
 * return together with them: every button a handler shows is answered by
 * the state it leaves the conversation in, except where noted.
 */
module Menus {
  import opened Wrappers
  import opened PyStr
  import opened Constants
  import opened Keyboards
  import opened Conversation

  /**
   * Whether handler `h` takes callback data `d`, decided by the word `d`
   * starts with rather than by comparing `d` with every pattern.
   */
  predicate Catches(h: Handler, d: string)
  {
    var c := Classify(d);
    && h.trigger.OnCallback? && c.Some? && c.value in Words(h.trigger.pattern) && WordText(c.value) <= d
    && (h.trigger.pattern.StartsWith? || d == WordText(c.value) || d == WordText(c.value) + "\n")
  }

  lemma CatchesFires(h: Handler, d: string)
    requires Catches(h, d)
    ensures Fires(h.trigger, Callback(d))
  {
    var c := Classify(d).value;
    match h.trigger.pattern
    case Exactly(w) =>
    case StartsWith(w) =>
    case OneOf(ws) =>
      var k :| 0 <= k < |ws| && ws[k] == c;
  }

  /** Some handler of the list catches `d`. */
  predicate CaughtBy(hs: seq<Handler>, d: string)
  {
    hs != [] && (Catches(hs[0], d) || CaughtBy(hs[1..], d))
  }

  lemma {:induction false} CaughtAt(hs: seq<Handler>, k: nat, d: string)
    requires k < |hs| && Catches(hs[k], d)
    ensures CaughtBy(hs, d)
    decreases k
  {
    if k > 0 {
      assert hs[1..][k - 1] == hs[k];
      CaughtAt(hs[1..], k - 1, d);
    }
  }

  lemma {:induction false} CaughtMatches(hs: seq<Handler>, d: string)
    requires CaughtBy(hs, d)
    ensures FirstMatch(hs, Callback(d)).Some?
    decreases |hs|
  {
    if Catches(hs[0], d) {
      CatchesFires(hs[0], d);
    } else if !Fires(hs[0].trigger, Callback(d)) {
      CaughtMatches(hs[1..], d);
    }
  }

  /** The flow in state `s` has a handler, of the state or a fallback, that catches `d`. */
  predicate Heard(flow: Flow, s: State, d: string)
  {
    CaughtBy(StateHandlers(TableOf(flow), s), d) || CaughtBy(TableOf(flow).fallbacks, d)
  }

  /** What is heard is answered. */
  lemma HeardAccepted(flow: Flow, s: State, d: string)
    requires Heard(flow, s, d)
    ensures Accepts(flow, s, Callback(d))
  {
    if CaughtBy(StateHandlers(TableOf(flow), s), d) {
      CaughtMatches(StateHandlers(TableOf(flow), s), d);
    } else {
      CaughtMatches(TableOf(flow).fallbacks, d);
    }
  }

  /** Every button of `kb` is heard by the flow in state `s`. */
  predicate Serves(flow: Flow, s: State, kb: Keyboard)
  {
    forall i, j :: 0 <= i < |kb| && 0 <= j < |kb[i]| ==> Heard(flow, s, kb[i][j].data)
  }

  /** A served keyboard's buttons are answered, whichever one is pressed. */
  lemma ServedMeansAnswered(flow: Flow, s: State, kb: Keyboard, i: nat, j: nat)
    requires Serves(flow, s, kb) && i < |kb| && j < |kb[i]|
    ensures Accepts(flow, s, Callback(kb[i][j].data))
  {
    HeardAccepted(flow, s, kb[i][j].data);
  }

  lemma ServesConcat(flow: Flow, s: State, a: Keyboard, b: Keyboard)
    requires Serves(flow, s, a) && Serves(flow, s, b)
    ensures Serves(flow, s, a + b)
  {
    forall i, j | 0 <= i < |a + b| && 0 <= j < |(a + b)[i]|
      ensures Heard(flow, s, (a + b)[i][j].data)
    {
      if i < |a| {
        assert (a + b)[i] == a[i];
      } else {
        assert (a + b)[i] == b[i - |a|];
      }
    }
  }

  /** The `k`-th handler of state `s` is `^prefix` for word `w`. */
  predicate PrefixHandler(flow: Flow, s: State, k: nat, w: Word)
  {
    s in TableOf(flow).states && k < |TableOf(flow).states[s]|
    && TableOf(flow).states[s][k].trigger == OnCallback(StartsWith(w))
  }

  /** Why a button is heard: which handler of the state, or which fallback, takes it. */
  datatype Reason = ByPrefix(k: nat, w: Word) | ByExact(k: nat, w: Word) | ByOneOf(k: nat, i: nat) | ByFallback(j: nat, w: Word)

  /** Reason `r` applies to callback data `d`; a matter of the tables' shape only. */
  predicate Justifies(flow: Flow, s: State, r: Reason, d: string)
  {
    var hs := StateHandlers(TableOf(flow), s);
    match r
    case ByPrefix(k, w) => k < |hs| && hs[k].trigger == OnCallback(StartsWith(w)) && WordText(w) <= d
    case ByExact(k, w) => k < |hs| && hs[k].trigger == OnCallback(Exactly(w)) && d == WordText(w)
    case ByOneOf(k, i) =>
      k < |hs| && hs[k].trigger.OnCallback? && hs[k].trigger.pattern.OneOf?
      && i < |hs[k].trigger.pattern.words| && d == WordText(hs[k].trigger.pattern.words[i])
    case ByFallback(j, w) =>
      j < |TableOf(flow).fallbacks| && TableOf(flow).fallbacks[j].trigger == OnCallback(Exactly(w)) && d == WordText(w)
  }

  lemma JustifiedHeard(flow: Flow, s: State, r: Reason, d: string)
    requires Justifies(flow, s, r, d)
    ensures Heard(flow, s, d)
  {
    var hs := StateHandlers(TableOf(flow), s);
    match r
    case ByPrefix(k, w) =>
      ClassifyFindsPrefix(w, d);
      CaughtAt(hs, k, d);
    case ByExact(k, w) =>
      ClassifyFindsPrefix(w, d);
      CaughtAt(hs, k, d);
    case ByOneOf(k, i) =>
      ClassifyFindsPrefix(hs[k].trigger.pattern.words[i], d);
      CaughtAt(hs, k, d);
    case ByFallback(j, w) =>
      ClassifyFindsPrefix(w, d);
      CaughtAt(TableOf(flow).fallbacks, j, d);
  }

  /** A keyboard is served when every button has a reason, given row by row. */
  lemma KeyboardServed(flow: Flow, s: State, kb: Keyboard, why: seq<seq<Reason>>)
    requires |why| == |kb| && forall i :: 0 <= i < |kb| ==> |why[i]| == |kb[i]|
    requires forall i, j :: 0 <= i < |kb| && 0 <= j < |kb[i]| ==> Justifies(flow, s, why[i][j], kb[i][j].data)
    ensures Serves(flow, s, kb)
  {
    forall i, j | 0 <= i < |kb| && 0 <= j < |kb[i]|
      ensures Heard(flow, s, kb[i][j].data)
    {
      JustifiedHeard(flow, s, why[i][j], kb[i][j].data);
    }
  }

  /** Item rows are served when a state's `^prefix` handler starts every rendered button. */
  lemma ItemRowsServed<T>(flow: Flow, s: State, k: nat, w: Word, items: seq<T>, render: T -> Option<Button>)
    requires PrefixHandler(flow, s, k, w)
    requires forall x :: render(x).Some? ==> WordText(w) <= render(x).value.data
    ensures Serves(flow, s, ItemRows(items, render))
  {
    var kb: Keyboard := ItemRows(items, render);
    forall i, j | 0 <= i < |kb| && 0 <= j < |kb[i]|
      ensures Heard(flow, s, kb[i][j].data)
    {
      ItemRowsFromItems(items, render, i);
      var x :| 0 <= x < |items| && render(items[x]) == Some(kb[i][0]);
      JustifiedHeard(flow, s, ByPrefix(k, w), kb[i][j].data);
    }
  }

  /** The page controls of a list are served by the state's handler for their prefix. */
  lemma PaginationServed(flow: Flow, s: State, k: nat, w: Word, page: int, total: int, parts: seq<string>)
    requires PrefixHandler(flow, s, k, w)
    ensures Serves(flow, s, PaginationRows(page, total, WordText(w), parts))
  {
    var kb: Keyboard := PaginationRows(page, total, WordText(w), parts);
    PaginationDataPrefixed(page, total, WordText(w), parts);
    forall i, j | 0 <= i < |kb| && 0 <= j < |kb[i]|
      ensures Heard(flow, s, kb[i][j].data)
    {
      JustifiedHeard(flow, s, ByPrefix(k, w), kb[i][j].data);
    }
  }

  /** The words the list keyboards' buttons start with. */
  lemma ListWordTexts(searchType: string)
    ensures WordText(if searchType == "course" then CourseSelectWord else ProfSelectWord) == SelectPrefix(searchType)
    ensures WordText(if searchType == "course" then PageCourseSearchResultsWord else PageProfSearchResultsWord)
              == PagePrefix(searchType)
    ensures WordText(CourseSelectWord) == CourseSelectPrefix
    ensures WordText(PageProfCourseListWord) == PageProfCourseListPrefix
    ensures WordText(YearSemSelectWord) == YearSemSelectPrefix
    ensures WordText(PageYearSemesterWord) == PageYearSemesterPrefix
  {
  }

  /**
   * A list page: item rows under a `^prefix` handler, page controls under
   * another, and a footer served on its own.
   */
  lemma ListPageServed<T>(flow: Flow, s: State, kb: Keyboard, items: seq<T>, render: T -> Option<Button>,
                          kItems: nat, wItems: Word, page: int, total: int, prefix: string, parts: seq<string>,
                          kPages: nat, wPages: Word, footer: Row)
    requires PrefixHandler(flow, s, kItems, wItems) && PrefixHandler(flow, s, kPages, wPages)
    requires forall x :: render(x).Some? ==> WordText(wItems) <= render(x).value.data
    requires prefix == WordText(wPages)
    requires Serves(flow, s, [footer])
    requires kb == ItemRows(items, render) + PaginationRows(page, total, prefix, parts) + [footer]
    ensures Serves(flow, s, kb)
  {
    ItemRowsServed(flow, s, kItems, wItems, items, render);
    PaginationServed(flow, s, kPages, wPages, page, total, parts);
    ServesConcat(flow, s, ItemRows(items, render), PaginationRows(page, total, prefix, parts));
    ServesConcat(flow, s, ItemRows(items, render) + PaginationRows(page, total, prefix, parts), [footer]);
  }

  // ---------------------------------------------------------------------------
  // The menus of the search flow
  // ---------------------------------------------------------------------------

  /** `start_command` shows the start menu and returns SELECTING_ACTION. */
  lemma StartMenuServed()
    ensures Serves(BrowseFlow, SelectingAction, StartKeyboard())
  {
    KeyboardServed(BrowseFlow, SelectingAction, StartKeyboard(), [[ByOneOf(0, 0)], [ByOneOf(0, 1)]]);
  }

  /** The search prompt's cancel button is answered in both typing states. */
  lemma CancelMenuServed()
    ensures Serves(BrowseFlow, TypingCourse, CancelKeyboard())
    ensures Serves(BrowseFlow, TypingProf, CancelKeyboard())
  {
    KeyboardServed(BrowseFlow, TypingCourse, CancelKeyboard(), [[ByFallback(5, CancelWord)]]);
    KeyboardServed(BrowseFlow, TypingProf, CancelKeyboard(), [[ByFallback(5, CancelWord)]]);
  }

  /** The state a results page for `search_type` is shown in. */
  function ResultsState(searchType: string): State
  {
    if searchType == "course" then SelectingCourseResults else SelectingProfResults
  }

  lemma SearchFooterServed(searchType: string)
    ensures Serves(BrowseFlow, ResultsState(searchType), [SearchResultsFooter(searchType)])
  {
    var back := if searchType == "course" then BackToTypingCourseWord else BackToTypingProfWord;
    KeyboardServed(BrowseFlow, ResultsState(searchType), [SearchResultsFooter(searchType)],
                   [[ByExact(1, back), ByFallback(5, CancelWord)]]);
  }

  /**
   * Every button of a search results page (hits, page controls, "Re-enter
   * Search" and "Cancel") is answered by the results state of its kind.
   */
  lemma SearchResultsServed(all: seq<SearchItem>, searchType: string, page: int)
    ensures Serves(BrowseFlow, ResultsState(searchType), SearchResultsKeyboard(all, searchType, page))
  {
    var course := searchType == "course";
    var select := if course then CourseSelectWord else ProfSelectWord;
    var paging := if course then PageCourseSearchResultsWord else PageProfSearchResultsWord;
    RenderedDataPrefixed(searchType, "", "", "");
    ListWordTexts(searchType);
    SearchFooterServed(searchType);
    ListPageServed(BrowseFlow, ResultsState(searchType), SearchResultsKeyboard(all, searchType, page),
                   PageItems(all, page), SearchRender(searchType), 0, select,
                   page, |all|, PagePrefix(searchType), [], 2, paging, SearchResultsFooter(searchType));
  }

  lemma ProfCourseFooterServed()
    ensures Serves(BrowseFlow, SelectingCourseForProf, [ProfCourseFooter()])
  {
    KeyboardServed(BrowseFlow, SelectingCourseForProf, [ProfCourseFooter()],
                   [[ByFallback(4, BackToProfSearchListWord), ByFallback(5, CancelWord)]]);
  }

  /** A professor's course list is answered in SELECTING_COURSE_FOR_PROF. */
  lemma ProfCourseListServed(courses: seq<CourseEntry>, profIdStr: string, page: int)
    ensures Serves(BrowseFlow, SelectingCourseForProf, ProfCourseSelectionKeyboard(courses, profIdStr, page))
  {
    RenderedDataPrefixed("", profIdStr, "", "");
    ListWordTexts("");
    ProfCourseFooterServed();
    ListPageServed(BrowseFlow, SelectingCourseForProf, ProfCourseSelectionKeyboard(courses, profIdStr, page),
                   PageItems(courses, page), CourseRender(profIdStr), 0, CourseSelectWord,
                   page, |courses|, PageProfCourseListPrefix, [profIdStr], 1, PageProfCourseListWord, ProfCourseFooter());
  }

  /** The professor dossier, also shown in SELECTING_COURSE_FOR_PROF, is answered there. */
  lemma DossierServed(profId: int)
    ensures Serves(BrowseFlow, SelectingCourseForProf, DossierKeyboard(profId))
  {
    assert ViewProfCoursesPrefix <= ViewProfCoursesPrefix + IntToString(profId);
    KeyboardServed(BrowseFlow, SelectingCourseForProf, DossierKeyboard(profId),
                   [[ByPrefix(2, ViewProfCoursesWord)], [ByFallback(4, BackToProfSearchListWord)], [ByFallback(3, BackToMainWord)]]);
  }

  lemma YearSemesterFooterServed(mode: string, backId: string)
    ensures Serves(BrowseFlow, SelectingYearSemester, [YearSemesterFooter(mode, backId)])
  {
    assert BackToProfCourseListPrefix <= BackToProfCourseListPrefix + backId;
    var back := if mode == "course" then ByExact(2, BackToCourseSearchListWord) else ByPrefix(3, BackToProfCourseListWord);
    KeyboardServed(BrowseFlow, SelectingYearSemester, [YearSemesterFooter(mode, backId)], [[back, ByFallback(5, CancelWord)]]);
  }

  /**
   * A year/semester page, whenever the terms give one, is answered in
   * SELECTING_YEAR_SEMESTER: the terms, the page controls, the back button
   * of either mode and cancel.
   */
  lemma YearSemesterServed(terms: seq<Offering>, backId: string, mode: string, page: int)
    requires YearSemesterKeyboard(terms, backId, mode, page).Some?
    ensures Serves(BrowseFlow, SelectingYearSemester, YearSemesterKeyboard(terms, backId, mode, page).value)
  {
    var ts := OrderedTerms(terms).value;
    RenderedDataPrefixed("", "", mode, backId);
    YearSemesterFooterServed(mode, backId);
    ListWordTexts("");
    ListPageServed(BrowseFlow, SelectingYearSemester, YearSemesterKeyboard(terms, backId, mode, page).value,
                   PageItems(ts, page), TermRender(mode, backId), 0, YearSemSelectWord,
                   page, |ts|, PageYearSemesterPrefix, [mode, backId], 1, PageYearSemesterWord, YearSemesterFooter(mode, backId));
  }

  /** The options under a plot are answered in SHOWING_FINAL_GRADES. */
  lemma FinalOptionsServed(courseCode: string, searchMode: Option<string>, profId: Option<int>)
    ensures Serves(BrowseFlow, ShowingFinalGrades, FinalOptionsKeyboard(courseCode, searchMode, profId))
  {
    var kb: Keyboard := FinalOptionsKeyboard(courseCode, searchMode, profId);
    FinalOptionsLayout(courseCode, searchMode, profId);
    assert BackToYearSemSelectPrefix <= kb[0][0].data;
    var first := [ByPrefix(0, BackToYearSemSelectWord)];
    var last := [ByExact(2, BackToMainWord)];
    if |kb| == 3 {
      assert BackToCourseListFromPlotPrefix <= kb[1][0].data;
      KeyboardServed(BrowseFlow, ShowingFinalGrades, kb, [first, [ByPrefix(1, BackToCourseListFromPlotWord)], last]);
    } else {
      KeyboardServed(BrowseFlow, ShowingFinalGrades, kb, [first, last]);
    }
  }

  // ---------------------------------------------------------------------------
  // The menus of the feedback flow
  // ---------------------------------------------------------------------------

  /** The feedback menus are answered in the states `feedback_*` return with them. */
  lemma FeedbackTypeMenuServed()
    ensures Serves(FeedbackFlow, AskFeedbackType, FeedbackTypeKeyboard())
  {
    KeyboardServed(FeedbackFlow, AskFeedbackType, FeedbackTypeKeyboard(),
                   [[ByOneOf(0, 0)], [ByOneOf(0, 1)], [ByOneOf(0, 2)], [ByFallback(1, CancelWord)]]);
  }

  lemma FeedbackEntryMenuServed()
    ensures Serves(FeedbackFlow, TypingFeedbackMessage, FeedbackEntryCancelKeyboard())
  {
    KeyboardServed(FeedbackFlow, TypingFeedbackMessage, FeedbackEntryCancelKeyboard(),
                   [[ByFallback(0, CancelFeedbackWord)]]);
  }

  lemma FeedbackConfirmationMenuServed()
    ensures Serves(FeedbackFlow, ConfirmFeedbackSubmission, FeedbackConfirmationKeyboard())
  {
    KeyboardServed(FeedbackFlow, ConfirmFeedbackSubmission, FeedbackConfirmationKeyboard(),
                   [[ByExact(0, ConfirmSendFeedbackWord)], [ByExact(1, CancelFeedbackWord)], [ByFallback(1, CancelWord)]]);
  }
}

/**
 * Buttons that no handler answers: the "Restart Search" button of the
 * error replies, pressed once the search conversation has ended, and the
 * back button of the "no offerings" notice. Each comes with the table or
 * the state under which the button would be answered.
 */
module DeadButtons {
  import opened Wrappers
  import opened Constants
  import opened Keyboards
  import opened Slots
  import Transitions
  import opened Conversation
  import opened Menus
  import Gating

  /**
   * A callback whose data starts with a word that neither the entry points
   * nor, inside a conversation, the state's handlers and the fallbacks
   * name is routed nowhere.
   */
  lemma UnheardUnrouted(t: FlowTable, state: Option<State>, w: Word, d: string)
    requires !Hears(t.entry, w) && WordText(w) <= d
    requires state.Some? ==> !Hears(StateHandlers(t, state.value), w) && !Hears(t.fallbacks, w)
    ensures Route(t, state, Callback(d)) == None
  {
    UnheardWordUnanswered(t.entry, w, d);
    if state.Some? {
      UnheardWordUnanswered(StateHandlers(t, state.value), w, d);
      UnheardWordUnanswered(t.fallbacks, w, d);
    }
  }

  /** `FirstMatch` over a list extended at its end. */
  lemma {:induction false} FirstMatchAppend(hs: seq<Handler>, h: Handler, e: Event)
    ensures FirstMatch(hs + [h], e) ==
              if FirstMatch(hs, e).Some? then FirstMatch(hs, e) else FirstMatch([h], e)
  {
    if hs != [] {
      assert (hs + [h])[1..] == hs[1..] + [h];
      FirstMatchAppend(hs[1..], h, e);
    }
  }

  // ---------------------------------------------------------------------------
  // The restart button of the error replies
  // ---------------------------------------------------------------------------

  /** The feedback flow and the plain commands never hear `back_main`. */
  lemma RestartUnheardOutsideSearch(s: State)
    ensures !Hears(FeedbackTable().entry, BackToMainWord)
    ensures !Hears(StateHandlers(FeedbackTable(), s), BackToMainWord)
    ensures !Hears(FeedbackTable().fallbacks, BackToMainWord)
    ensures !Hears(GeneralCommands(), BackToMainWord)
    ensures !Hears(BrowseTable().entry, BackToMainWord)
  {
    GeneralCommandNames();
  }

  /**
   * As written, the error replies carry a "Restart Search" button with
   * `back_main`, but the search conversation returns `END` after an error
   * and its only entry point is `/start`: with no search running, the
   * button reaches no handler at all, whatever the feedback flow is doing.
   */
  lemma RestartButtonUnrouted(gate: Gating.Gate, feedback: Option<State>)
    requires Gating.LetsThrough(gate)
    ensures RestartKeyboard()[0][0].data == BackToMain
    ensures Route(BrowseTable(), None, Callback(BackToMain)) == None
    ensures Dispatch(gate, None, feedback, Callback(BackToMain)) == None
  {
    var d := WordText(BackToMainWord);
    if feedback.Some? {
      RestartUnheardOutsideSearch(feedback.value);
    } else {
      RestartUnheardOutsideSearch(SelectingAction);
    }
    UnheardUnrouted(BrowseTable(), None, BackToMainWord, d);
    UnheardUnrouted(FeedbackTable(), feedback, BackToMainWord, d);
    UnheardWordUnanswered(GeneralCommands(), BackToMainWord, d);
  }

  /** The search table with `back_main` also among its entry points. */
  function RestartingBrowseTable(): FlowTable
  {
    BrowseTable().(entry := BrowseTable().entry + [Cb(Exactly(BackToMainWord), BackToMainCallback)])
  }

  /** With that entry point the restart button starts over even after an error ended the search. */
  lemma RestartingTableAnswersRestart()
    ensures Route(RestartingBrowseTable(), None, Callback(BackToMain)) == Some(BackToMainCallback)
  {
    var e := Callback(WordText(BackToMainWord));
    var h := Cb(Exactly(BackToMainWord), BackToMainCallback);
    EntryMatch(BrowseFlow, e);
    FirstMatchAppend(BrowseTable().entry, h, e);
    FirstMatchSingle(h, e);
  }

  /** Inside a running search the extra entry point changes nothing: `back_main` is a fallback there already. */
  lemma RestartingTableAgrees(s: State, e: Event)
    ensures Route(RestartingBrowseTable(), Some(s), e) == Route(BrowseTable(), Some(s), e)
  {
    var h := Cb(Exactly(BackToMainWord), BackToMainCallback);
    FirstMatchAppend(BrowseTable().entry, h, e);
    FirstMatchSingle(h, e);
    if FirstMatch(BrowseTable().entry, e).None? && Fires(h.trigger, e) {
      assert BrowseFallbacks()[3] == h;
      FallbacksAlwaysAnswer(BrowseFlow, s, e, 3);
    }
  }

  // ---------------------------------------------------------------------------
  // The "no offerings" notice
  // ---------------------------------------------------------------------------

  /** Whether the notice gets the professor's back button, as the source tests it. */
  predicate ProfBack(m: Slots)
  {
    Get(m, SearchModeKey) == StrSlot("prof") && SelectedProfIdKey in m
  }

  /** Whether the notice gets the course search back button. */
  predicate CourseBack(m: Slots)
  {
    !ProfBack(m) && Get(m, SearchModeKey) == StrSlot("course")
  }

  /** The keyboard of the notice: the back button of the mode, if any, then "New Search". */
  function NoOfferingsKeyboard(m: Slots): (kb: Keyboard)
  {
    var back :=
      if ProfBack(m) then
        [[Button("\U{2B05}\U{FE0F} Back to Prof's Courses", BackToProfCourseListPrefix + Transitions.SlotStr(Get(m, SelectedProfIdKey)))]]
      else if CourseBack(m) then [[Button("\U{2B05}\U{FE0F} Back to Course Search", BackToCourseSearchList)]]
      else [];
    back + [[Button("\U{1F504} New Search", BackToMain)]]
  }

  /** The state the notice returns, as written: the professor's course list or the course results. */
  function NoOfferingsState(m: Slots): State
  {
    if ProfBack(m) then SelectingCourseForProf else SelectingCourseResults
  }

  /** `ListCourseTerms` returns exactly that state when a course has no terms. */
  lemma NoOfferingsStateListed(m: Slots, code: string, io: Transitions.Io, offerings: Option<seq<Offering>>)
    requires Transitions.CourseTerms(m, code, Get(m, SearchModeKey) == StrSlot("prof"), offerings) == Some([])
    requires Transitions.Succeeds(io, 1)
    ensures Transitions.ListCourseTerms(m, code, io, offerings) == Transitions.Outcome(m, To(NoOfferingsState(m)))
  {
  }

  /** The word the back button of the notice starts with. */
  function BackWord(m: Slots): Word
  {
    if ProfBack(m) then BackToProfCourseListWord else BackToCourseSearchListWord
  }

  lemma BackWordsUnheard()
    ensures !Hears(BrowseTable().entry, BackToProfCourseListWord)
    ensures !Hears(StateHandlers(BrowseTable(), SelectingCourseForProf), BackToProfCourseListWord)
    ensures !Hears(BrowseTable().fallbacks, BackToProfCourseListWord)
    ensures !Hears(BrowseTable().entry, BackToCourseSearchListWord)
    ensures !Hears(StateHandlers(BrowseTable(), SelectingCourseResults), BackToCourseSearchListWord)
    ensures !Hears(BrowseTable().fallbacks, BackToCourseSearchListWord)
  {
  }

  /**
   * As written, the back button of the notice is answered by no handler of
   * the state the notice returns (neither state handles the back-to-list
   * callbacks; SELECTING_YEAR_SEMESTER does), while "New Search" works.
   */
  lemma NoOfferingsBackUnanswered(m: Slots)
    requires ProfBack(m) || CourseBack(m)
    ensures var kb := NoOfferingsKeyboard(m);
      && |kb| == 2 && |kb[0]| == 1 && |kb[1]| == 1
      && !Accepts(BrowseFlow, NoOfferingsState(m), Callback(kb[0][0].data))
      && Accepts(BrowseFlow, NoOfferingsState(m), Callback(kb[1][0].data))
  {
    var kb: Keyboard := NoOfferingsKeyboard(m);
    var w := BackWord(m);
    assert WordText(w) <= kb[0][0].data;
    BackWordsUnheard();
    UnheardUnrouted(BrowseTable(), Some(NoOfferingsState(m)), w, kb[0][0].data);
    assert Fires(BrowseFallbacks()[3].trigger, Callback(kb[1][0].data));
    FallbacksAlwaysAnswer(BrowseFlow, NoOfferingsState(m), Callback(kb[1][0].data), 3);
  }

  /** The state the notice should return: the year/semester state, whose handlers take both back buttons. */
  function NoOfferingsStateCorrected(m: Slots): State
  {
    if ProfBack(m) || CourseBack(m) then SelectingYearSemester else SelectingCourseResults
  }

  /** Returning that state, every button of the notice is answered. */
  lemma NoOfferingsCorrectedServed(m: Slots)
    ensures Serves(BrowseFlow, NoOfferingsStateCorrected(m), NoOfferingsKeyboard(m))
  {
    var kb: Keyboard := NoOfferingsKeyboard(m);
    var s := NoOfferingsStateCorrected(m);
    var last := [ByFallback(3, BackToMainWord)];
    if ProfBack(m) {
      assert BackToProfCourseListPrefix <= kb[0][0].data;
      KeyboardServed(BrowseFlow, s, kb, [[ByPrefix(3, BackToProfCourseListWord)], last]);
    } else if CourseBack(m) {
      KeyboardServed(BrowseFlow, s, kb, [[ByExact(2, BackToCourseSearchListWord)], last]);
    } else {
      KeyboardServed(BrowseFlow, s, kb, [last]);
    }
  }
}

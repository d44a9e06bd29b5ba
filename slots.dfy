/**
 * The per-user `context.user_data` dictionary the handlers of
 * `bot/handlers.py` share: its keys, the kinds of value stored under them,
 * and the groups of keys the handlers drop together.
 */
module Slots {
  import opened Wrappers
  import opened Keyboards

  /** One value of `user_data`; a message object is kept by its id. */
  datatype Slot =
    | IntSlot(i: int)
    | StrSlot(s: string)
    | NoneSlot
    | ItemsSlot(items: seq<SearchItem>)
    | OfferingsSlot(offerings: seq<Offering>)
    | CoursesSlot(courses: seq<CourseEntry>)
    | MessageSlot(messageId: int)

  type Slots = map<Key, Slot>

  /** Python truthiness of a stored value. */
  predicate SlotTruthy(v: Slot)
  {
    match v
    case IntSlot(i) => i != 0
    case StrSlot(s) => s != ""
    case NoneSlot => false
    case ItemsSlot(items) => items != []
    case OfferingsSlot(offerings) => offerings != []
    case CoursesSlot(courses) => courses != []
    case MessageSlot(_) => true
  }

  /** `user_data.get(k)`, with an absent key read as `None`. */
  function Get(m: Slots, k: Key): (v: Slot)
    ensures k !in m ==> v == NoneSlot
  {
    if k in m then m[k] else NoneSlot
  }

  /** `user_data.get(k)` is truthy. */
  predicate TruthyAt(m: Slots, k: Key)
  {
    SlotTruthy(Get(m, k))
  }

  /** `user_data.get(k) is None`. */
  predicate MissingAt(m: Slots, k: Key)
  {
    Get(m, k) == NoneSlot
  }

  // ---------------------------------------------------------------------------
  // Keys
  // ---------------------------------------------------------------------------

  /** The four cached lists the pagination handlers page through. */
  datatype ListType = CourseSearch | ProfSearch | ProfCourseList | YearSemesterList

  /** The keys of `user_data` the handlers use; `KeyName` gives each one's string. */
  datatype Key =
    | OriginalMessageKey
    | SearchModeKey
    | SelectedCourseKey
    | SelectedProfIdKey
    | SelectedProfNameKey
    | SelectedYearKey
    | SelectedSemesterKey
    | LastPlotMessageKey
    | LastBotMessageKey
    | FinalPlotMessageKey
    | TermListModeKey
    | TermListIdentifierKey
    | LastCourseQueryKey
    | LastProfQueryKey
    | ProfCoursesKey
    | FeedbackTypeKey
    | FeedbackMessageKey
    | ResultsKey(list: ListType)
    | PageKey(list: ListType)
    | UniqueKbKey(list: ListType)

  /** The `list_type` string each list is stored under. */
  function ListName(t: ListType): string
  {
    match t
    case CourseSearch => "course_search"
    case ProfSearch => "prof_search"
    case ProfCourseList => "prof_course_list"
    case YearSemesterList => "year_semester_list"
  }

  /** The dictionary key each `Key` stands for. */
  function KeyName(k: Key): string
  {
    match k
    case OriginalMessageKey => "original_message_id_for_edit"
    case SearchModeKey => "search_mode"
    case SelectedCourseKey => "selected_course"
    case SelectedProfIdKey => "selected_prof_id"
    case SelectedProfNameKey => "selected_prof_name"
    case SelectedYearKey => "selected_year"
    case SelectedSemesterKey => "selected_semester"
    case LastPlotMessageKey => "last_plot_message_id"
    case LastBotMessageKey => "last_bot_message_obj"
    case FinalPlotMessageKey => "final_plot_message_obj"
    case TermListModeKey => "current_ys_list_mode"
    case TermListIdentifierKey => "current_ys_list_identifier"
    case LastCourseQueryKey => "last_search_query_course"
    case LastProfQueryKey => "last_search_query_prof"
    case ProfCoursesKey => "unique_courses_for_selected_prof_kb"
    case FeedbackTypeKey => "feedback_type"
    case FeedbackMessageKey => "feedback_message"
    case ResultsKey(t) => "all_" + ListName(t) + "_results"
    case PageKey(t) => "current_" + ListName(t) + "_page"
    case UniqueKbKey(t) => "unique_" + ListName(t) + "_kb"
  }

  /** Every key `_clear_list_context(t)` drops: the three derived from `t` and, but for the term list, one more. */
  function ListContextKeys(t: ListType): set<Key>
  {
    match t
    case CourseSearch => {ResultsKey(t), PageKey(t), UniqueKbKey(t), LastCourseQueryKey}
    case ProfSearch => {ResultsKey(t), PageKey(t), UniqueKbKey(t), LastProfQueryKey}
    case ProfCourseList => {ResultsKey(t), PageKey(t), UniqueKbKey(t), ProfCoursesKey}
    case YearSemesterList => {ResultsKey(t), PageKey(t), UniqueKbKey(t)}
  }

  /** The state `_clear_list_context(t)` leaves behind. */
  function ClearListContext(m: Slots, t: ListType): Slots
  {
    m - ListContextKeys(t)
  }

  /**
   * `_clear_list_context(t)` drops exactly its keys: none of them survives,
   * every other key keeps its value, and clearing twice is clearing once.
   */
  lemma ClearListContextExact(m: Slots, t: ListType)
    ensures forall k :: k in ListContextKeys(t) ==> k !in ClearListContext(m, t)
    ensures forall k :: k in m && k !in ListContextKeys(t) ==>
              k in ClearListContext(m, t) && ClearListContext(m, t)[k] == m[k]
    ensures forall k :: k in ClearListContext(m, t) ==> k in m
    ensures ClearListContext(ClearListContext(m, t), t) == ClearListContext(m, t)
  {
  }

  /** Clearing one list never touches another list's keys. */
  lemma ListContextsDisjoint(t: ListType, u: ListType)
    requires t != u
    ensures ListContextKeys(t) * ListContextKeys(u) == {}
  {
  }

  // ---------------------------------------------------------------------------
  // Groups of keys the handlers drop together
  // ---------------------------------------------------------------------------

  // Each group is written out key by key; `KeyGroupsNest` below shows how
  // the handlers build them from one another.

  /** The messages the plot and the last listing were shown in. */
  function PlotKeys(): set<Key>
  {
    {LastPlotMessageKey, LastBotMessageKey}
  }

  /** The chosen year and semester. */
  function TermChoiceKeys(): set<Key>
  {
    {SelectedYearKey, SelectedSemesterKey}
  }

  /** The year/semester list with its mode and back identifier. */
  function TermListKeys(): set<Key>
  {
    {ResultsKey(YearSemesterList), PageKey(YearSemesterList), UniqueKbKey(YearSemesterList),
     TermListModeKey, TermListIdentifierKey}
  }

  /** What hangs below a chosen course: `back_to_course_search_list` and `back_to_prof_courses` drop it. */
  function CourseLevelKeys(): set<Key>
  {
    {SelectedCourseKey,
     ResultsKey(YearSemesterList), PageKey(YearSemesterList), UniqueKbKey(YearSemesterList),
     TermListModeKey, TermListIdentifierKey,
     LastPlotMessageKey, LastBotMessageKey}
  }

  /** What hangs below a chosen professor: `back_to_prof_search_list` drops it. */
  function ProfLevelKeys(): set<Key>
  {
    {SelectedProfIdKey, SelectedProfNameKey,
     ResultsKey(ProfCourseList), PageKey(ProfCourseList), UniqueKbKey(ProfCourseList), ProfCoursesKey,
     SelectedCourseKey,
     ResultsKey(YearSemesterList), PageKey(YearSemesterList), UniqueKbKey(YearSemesterList),
     TermListModeKey, TermListIdentifierKey,
     LastPlotMessageKey, LastBotMessageKey}
  }

  /** `back_to_typing_course` drops the course search and everything below it. */
  function TypingCourseKeys(): set<Key>
  {
    {ResultsKey(CourseSearch), PageKey(CourseSearch), UniqueKbKey(CourseSearch), LastCourseQueryKey,
     SelectedCourseKey,
     ResultsKey(YearSemesterList), PageKey(YearSemesterList), UniqueKbKey(YearSemesterList),
     TermListModeKey, TermListIdentifierKey,
     LastPlotMessageKey, LastBotMessageKey,
     SelectedYearKey, SelectedSemesterKey}
  }

  /** `back_to_typing_prof` drops the professor search and everything below it. */
  function TypingProfKeys(): set<Key>
  {
    {ResultsKey(ProfSearch), PageKey(ProfSearch), UniqueKbKey(ProfSearch), LastProfQueryKey,
     SelectedProfIdKey, SelectedProfNameKey,
     ResultsKey(ProfCourseList), PageKey(ProfCourseList), UniqueKbKey(ProfCourseList), ProfCoursesKey,
     SelectedCourseKey,
     ResultsKey(YearSemesterList), PageKey(YearSemesterList), UniqueKbKey(YearSemesterList),
     TermListModeKey, TermListIdentifierKey,
     LastPlotMessageKey, LastBotMessageKey,
     SelectedYearKey, SelectedSemesterKey}
  }

  /** What every `select_item` drops before it looks at the payload. */
  function SelectionKeys(): set<Key>
  {
    {SelectedYearKey, SelectedSemesterKey,
     ResultsKey(YearSemesterList), PageKey(YearSemesterList), UniqueKbKey(YearSemesterList),
     LastPlotMessageKey, LastBotMessageKey}
  }

  /** What a `ps_` selection drops: that, the chosen course and the professor's course list. */
  function ProfSelectionKeys(): set<Key>
  {
    {SelectedYearKey, SelectedSemesterKey,
     ResultsKey(YearSemesterList), PageKey(YearSemesterList), UniqueKbKey(YearSemesterList),
     LastPlotMessageKey, LastBotMessageKey,
     SelectedCourseKey,
     ResultsKey(ProfCourseList), PageKey(ProfCourseList), UniqueKbKey(ProfCourseList), ProfCoursesKey}
  }

  /** How the groups are made of one another, as the handlers pop them. */
  lemma KeyGroupsNest()
    ensures TermListKeys() == ListContextKeys(YearSemesterList) + {TermListModeKey, TermListIdentifierKey}
    ensures CourseLevelKeys() == {SelectedCourseKey} + TermListKeys() + PlotKeys()
    ensures ProfLevelKeys() == {SelectedProfIdKey, SelectedProfNameKey} + ListContextKeys(ProfCourseList) + CourseLevelKeys()
  {
  }

  /** Dropping the course level keeps the professor's course list, its page and the edit target. */
  lemma CourseLevelSparesProfList()
    ensures ProfCoursesKey !in CourseLevelKeys() && PageKey(ProfCourseList) !in CourseLevelKeys()
    ensures SelectedProfIdKey !in CourseLevelKeys() && OriginalMessageKey !in CourseLevelKeys()
  {
  }

  lemma TypingKeysNest()
    ensures TypingCourseKeys() == ListContextKeys(CourseSearch) + CourseLevelKeys() + TermChoiceKeys()
    ensures TypingProfKeys() == ListContextKeys(ProfSearch) + ProfLevelKeys() + TermChoiceKeys()
  {
  }

  lemma SelectionKeysNest()
    ensures SelectionKeys() == TermChoiceKeys() + ListContextKeys(YearSemesterList) + PlotKeys()
    ensures ProfSelectionKeys() == SelectionKeys() + {SelectedCourseKey} + ListContextKeys(ProfCourseList)
  {
  }

  /** The keys of the two searches' cached lists, told apart by their shape. */
  predicate IsSearchListKey(k: Key)
  {
    match k
    case ResultsKey(t) => t == CourseSearch || t == ProfSearch
    case PageKey(t) => t == CourseSearch || t == ProfSearch
    case UniqueKbKey(t) => t == CourseSearch || t == ProfSearch
    case LastCourseQueryKey => true
    case LastProfQueryKey => true
    case _ => false
  }

  /** `IsSearchListKey` picks out exactly what clearing either search drops. */
  lemma SearchListKeysExact(k: Key)
    ensures IsSearchListKey(k) <==> k in ListContextKeys(CourseSearch) + ListContextKeys(ProfSearch)
  {
  }

  /** A `ps_` selection drops none of the searches' keys (and so neither does any other selection). */
  lemma SelectionSparesSearches()
    ensures forall k :: k in ProfSelectionKeys() ==> !IsSearchListKey(k)
    ensures forall k :: k in SelectionKeys() ==> !IsSearchListKey(k)
  {
  }

  /**
   * Going back further forgets more: each back target drops everything the
   * one below it drops.
   */
  lemma BackLevelsNest()
    ensures CourseLevelKeys() <= ProfLevelKeys() <= TypingProfKeys()
    ensures CourseLevelKeys() <= TypingCourseKeys()
    ensures SelectionKeys() <= ProfSelectionKeys()
  {
  }

  /** No back target and no selection drops the session's edit target, its search mode or the feedback slots. */
  lemma SessionKeysSurviveBacktracking(k: Key)
    requires k == OriginalMessageKey || k == SearchModeKey || k == FeedbackTypeKey || k == FeedbackMessageKey
    ensures k !in TypingProfKeys() && k !in TypingCourseKeys() && k !in ProfSelectionKeys()
  {
  }

  /**
   * The course-side back targets keep the professor search, and the
   * professor-side ones keep the course search, so switching sides back
   * and forth does not lose the other side's cached list.
   */
  lemma BackTargetsKeepOtherSearch()
    ensures ListContextKeys(ProfSearch) * TypingCourseKeys() == {}
    ensures ListContextKeys(CourseSearch) * TypingProfKeys() == {}
    ensures ListContextKeys(CourseSearch) * ProfLevelKeys() == {}
    ensures ResultsKey(ProfSearch) !in ProfLevelKeys()
    ensures ResultsKey(CourseSearch) !in CourseLevelKeys()
  {
  }
}

/**
 * What each conversation handler of `bot/handlers.py` does to the user's
 * slots and which state it hands back, as pure functions of the slots
 * before the update, the decoded update and the abstract outcomes of the
 * Telegram and backend calls the handler awaits.
 *
 * Telegram calls: every awaited call inside a `try` whose failure changes
 * the handler's course is numbered by its position in the handler (0, 1,
 * 2, ...), and `Io.failing` is the set of those that raise. A message the
 * handler sends carries the id `Io.sentId`. Calls outside any `try` and
 * calls whose failure the handler swallows are taken to succeed.
 * Backend calls: the wrappers of `bot/api_client.py` turn every failure
 * into `None`, so each one is an `Option` parameter.
 */
module Transitions {
  import opened Wrappers
  import opened PyStr
  import opened Constants
  import opened Keyboards
  import opened Callbacks
  import opened Slots

  datatype Io = Io(failing: set<nat>, sentId: int)

  /** The handler's awaited call number `k` returns normally. */
  predicate Succeeds(io: Io, k: nat)
  {
    k !in io.failing
  }

  /** The slots after the update and the state handed back. */
  datatype Outcome = Outcome(slots: Slots, next: Next)

  /** `user_data.get(k, d)`. */
  function GetOr(m: Slots, k: Key, d: Slot): (v: Slot)
    ensures k in m ==> v == m[k]
    ensures k !in m ==> v == d
  {
    if k in m then m[k] else d
  }

  /**
   * `str(v)` of a stored value as the handlers use it (ids and modes).
   * The handlers only ever store ints, strings or `None` under the keys
   * they print; a list or a message object stands for its `repr`.
   */
  function SlotStr(v: Slot): string
  {
    match v
    case IntSlot(i) => IntToString(i)
    case StrSlot(s) => s
    case NoneSlot => "None"
    case MessageSlot(_) => "<Message>"
    case _ => "<list>"
  }

  /** `search_type` of the two text-search handlers. */
  datatype SearchKind = CourseKind | ProfKind

  function KindName(kind: SearchKind): string
  {
    if kind == CourseKind then "course" else "prof"
  }

  /** `min_len`: two characters for a course search, three for a professor. */
  function MinQueryLength(kind: SearchKind): nat
  {
    if kind == CourseKind then 2 else 3
  }

  function TypingStateOf(kind: SearchKind): State
  {
    if kind == CourseKind then TypingCourse else TypingProf
  }

  function ListingStateOf(kind: SearchKind): State
  {
    if kind == CourseKind then SelectingCourseResults else SelectingProfResults
  }

  function SearchListOf(kind: SearchKind): ListType
  {
    if kind == CourseKind then CourseSearch else ProfSearch
  }

  function QueryKeyOf(kind: SearchKind): Key
  {
    if kind == CourseKind then LastCourseQueryKey else LastProfQueryKey
  }

  // ---------------------------------------------------------------------------
  // Entry and mode selection
  // ---------------------------------------------------------------------------

  /**
   * `start_command`: forgets the old edit target and sends the welcome
   * (call 0), whose id becomes the new one. The other slots are kept.
   */
  function StartCommand(m: Slots, io: Io): Outcome
  {
    var m1 := m - {OriginalMessageKey};
    if !Succeeds(io, 0) then Outcome(m1, End)
    else Outcome(m1[OriginalMessageKey := IntSlot(io.sentId)], To(SelectingAction))
  }

  /**
   * `select_search_mode_callback`: everything but the edit target is
   * cleared; without one the conversation ends. `mode_course` and
   * `mode_prof` record the mode and edit the prompt (call 0).
   */
  function SelectSearchMode(m: Slots, data: string, io: Io): Outcome
  {
    var orig := Get(m, OriginalMessageKey);
    var kept := if SlotTruthy(orig) then map[OriginalMessageKey := orig] else map[];
    if !SlotTruthy(orig) then Outcome(kept, End)
    else if data == CourseSearchMode then
      Outcome(kept[SearchModeKey := StrSlot("course")], if Succeeds(io, 0) then To(TypingCourse) else End)
    else if data == ProfSearchMode then
      Outcome(kept[SearchModeKey := StrSlot("prof")], if Succeeds(io, 0) then To(TypingProf) else End)
    else Outcome(kept, End)
  }

  // ---------------------------------------------------------------------------
  // Text search
  // ---------------------------------------------------------------------------

  /**
   * `_handle_search_text_input`. Call 0 edits the prompt (the length
   * warning, or the "searching" status); when it fails, or there is no
   * prompt, a new message is sent and becomes the edit target. Call 1 edits
   * in the results, or the "no results" notice.
   */
  function SearchInput(m: Slots, kind: SearchKind, text: string, io: Io,
                       results: Option<seq<SearchItem>>): Outcome
  {
    var q := Strip(text);
    var prompt := Get(m, OriginalMessageKey);
    if |q| < MinQueryLength(kind) then
      var typing := To(TypingStateOf(kind));
      if SlotTruthy(prompt) && Succeeds(io, 0) then Outcome(m, typing)
      else Outcome(m[OriginalMessageKey := IntSlot(io.sentId)], typing)
    else SearchFor(m, kind, q, io, results)
  }

  /** The search itself, once the stripped query `q` is long enough. */
  function SearchFor(m: Slots, kind: SearchKind, q: string, io: Io,
                     results: Option<seq<SearchItem>>): Outcome
  {
    var prompt := Get(m, OriginalMessageKey);
    var typing := To(TypingStateOf(kind));
    var lt := SearchListOf(kind);
    var resent := !SlotTruthy(prompt) || !Succeeds(io, 0);
    var m1 := if resent then m[OriginalMessageKey := IntSlot(io.sentId)] else m;
    var target := if resent then IntSlot(io.sentId) else prompt;
    if !SlotTruthy(target) then Outcome(m1, End)
    else if results.None? || results.value == [] then
      if Succeeds(io, 1) then Outcome(m1, typing) else Outcome(ClearListContext(m1, lt), End)
    else
      var m2 := ClearListContext(m1, lt)[ResultsKey(lt) := ItemsSlot(results.value)]
                  [PageKey(lt) := IntSlot(0)][QueryKeyOf(kind) := StrSlot(q)];
      if Succeeds(io, 1) then Outcome(m2, To(ListingStateOf(kind)))
      else Outcome(ClearListContext(m2, lt), End)
  }

  // ---------------------------------------------------------------------------
  // Selecting a course or a professor
  // ---------------------------------------------------------------------------

  /** `[o for o in offerings if o['course']['code'] == code]`. */
  function OfferingsOfCourse(offerings: seq<Offering>, code: string): (r: seq<Offering>)
    ensures |r| <= |offerings|
    ensures forall o :: o in r <==> o in offerings && o.courseCode == Some(code)
  {
    if offerings == [] then []
    else
      var rest := OfferingsOfCourse(offerings[1..], code);
      assert offerings == [offerings[0]] + offerings[1..];
      if offerings[0].courseCode == Some(code) then [offerings[0]] + rest else rest
  }

  /**
   * The name `select_item_callback` records for professor `id`: the name of
   * the first search hit with that id, the fallback when that hit has no
   * name or there is none.
   */
  function ProfNameIn(items: seq<SearchItem>, id: int, fallback: string): string
  {
    if items == [] then fallback
    else if items[0].id == Some(id) then items[0].name.GetOr(fallback)
    else ProfNameIn(items[1..], id, fallback)
  }

  /** `ProfNameIn` names the first hit with the id and nothing else. */
  lemma ProfNameInFirstHit(items: seq<SearchItem>, id: int, fallback: string)
    ensures (forall i :: 0 <= i < |items| ==> items[i].id != Some(id)) ==> ProfNameIn(items, id, fallback) == fallback
    ensures forall i :: (0 <= i < |items| && items[i].id == Some(id) &&
              (forall j :: 0 <= j < i ==> items[j].id != Some(id))) ==>
              ProfNameIn(items, id, fallback) == items[i].name.GetOr(fallback)
  {
    if forall i :: 0 <= i < |items| ==> items[i].id != Some(id) {
      ProfNameInMissing(items, id, fallback);
    }
    forall i | 0 <= i < |items| && items[i].id == Some(id) && (forall j :: 0 <= j < i ==> items[j].id != Some(id))
      ensures ProfNameIn(items, id, fallback) == items[i].name.GetOr(fallback)
    {
      ProfNameInAt(items, id, fallback, i);
    }
  }

  lemma {:induction false} ProfNameInMissing(items: seq<SearchItem>, id: int, fallback: string)
    requires forall i :: 0 <= i < |items| ==> items[i].id != Some(id)
    ensures ProfNameIn(items, id, fallback) == fallback
  {
    if items != [] {
      assert items[0].id != Some(id);
      forall i | 0 <= i < |items| - 1 ensures items[1..][i].id != Some(id) {
        assert items[1..][i] == items[i + 1];
      }
      ProfNameInMissing(items[1..], id, fallback);
    }
  }

  lemma {:induction false} ProfNameInAt(items: seq<SearchItem>, id: int, fallback: string, i: nat)
    requires i < |items| && items[i].id == Some(id)
    requires forall j :: 0 <= j < i ==> items[j].id != Some(id)
    ensures ProfNameIn(items, id, fallback) == items[i].name.GetOr(fallback)
  {
    if i > 0 {
      assert items[0].id != Some(id);
      assert items[1..][i - 1] == items[i];
      forall j | 0 <= j < i - 1 ensures items[1..][j].id != Some(id) {
        assert items[1..][j] == items[j + 1];
      }
      ProfNameInAt(items[1..], id, fallback, i - 1);
    }
  }

  /**
   * `select_item_callback` on the decoded payload. The year/semester
   * choice, the year/semester list and the plot messages are always
   * dropped; a `ps_` payload also drops the chosen course and the
   * professor's course list. The callback's message becomes the edit
   * target before the payload is looked at.
   */
  function SelectItem(m: Slots, sel: Selection, msgId: int, io: Io,
                      offerings: Option<seq<Offering>>, dossierFound: bool): Outcome
  {
    var m1 := ClearForSelection(m, sel, msgId);
    match sel
    case CourseSelection(choice) => SelectCourse(m1, choice, io, offerings)
    case ProfSelection(id) => SelectProf(m1, id, io, dossierFound)
    case UnknownSelection => Outcome(m1, End)
  }

  /** What `select_item_callback` drops for a payload, before it looks at it. */
  function DroppedBySelection(sel: Selection): set<Key>
  {
    if sel.ProfSelection? then ProfSelectionKeys() else SelectionKeys()
  }

  /** The slots `select_item_callback` works on once the earlier choice is dropped and the edit target stored. */
  function ClearForSelection(m: Slots, sel: Selection, msgId: int): Slots
  {
    (m - DroppedBySelection(sel))[OriginalMessageKey := IntSlot(msgId)]
  }

  /**
   * The `cs_` branch. Call 0 shows the "fetching" notice, call 1 the
   * year/semester list or the "no offerings" notice. In professor mode the
   * terms come from the professor's cached offerings, otherwise from the
   * backend (`None` reads as no terms).
   */
  function SelectCourse(m: Slots, choice: CourseChoice, io: Io, offerings: Option<seq<Offering>>): Outcome
  {
    var m1 := m[SelectedCourseKey := StrSlot(choice.code)];
    if !ChoiceMatchesProf(m1, choice) || !Succeeds(io, 0) then Outcome(m1, End)
    else ListCourseTerms(m1, choice.code, io, offerings)
  }

  /**
   * A professor's course button must carry the stored professor id, printed
   * as Python prints it, and the professor flow needs a professor id at all.
   */
  predicate ChoiceMatchesProf(m: Slots, choice: CourseChoice)
  {
    && !(choice.profIdPart.Some? && SlotStr(Get(m, SelectedProfIdKey)) != choice.profIdPart.value)
    && !(Get(m, SearchModeKey) == StrSlot("prof") && !TruthyAt(m, SelectedProfIdKey))
  }

  /** The rest of the `cs_` branch once the "fetching" notice is shown. */
  function ListCourseTerms(m: Slots, code: string, io: Io, offerings: Option<seq<Offering>>): Outcome
  {
    var mode := Get(m, SearchModeKey);
    var profMode := mode == StrSlot("prof");
    var identifier := if profMode then SlotStr(Get(m, SelectedProfIdKey)) else code;
    var terms := CourseTerms(m, code, profMode, offerings);
    if terms.None? then Outcome(m, End)
    else if terms.value == [] then
      var back := if profMode && SelectedProfIdKey in m then SelectingCourseForProf else SelectingCourseResults;
      Outcome(m, if Succeeds(io, 1) then To(back) else End)
    else ShowTermList(m, terms.value, mode, identifier, io)
  }

  /** Stores a non-empty year/semester list and shows it with call 1. */
  function ShowTermList(m: Slots, terms: seq<Offering>, mode: Slot, identifier: string, io: Io): Outcome
  {
    var m2 := StoreTermList(m, terms, mode, identifier);
    if YearSemesterKeyboard(terms, identifier, SlotStr(mode), 0).None? then Outcome(m2, End)
    else Outcome(m2, if Succeeds(io, 1) then To(SelectingYearSemester) else End)
  }

  /**
   * The terms a course selection lists: in the professor flow the cached
   * offerings of the professor for that course (`None`, the `ValueError`,
   * when there are none cached), otherwise the backend's answer.
   */
  function CourseTerms(m: Slots, code: string, profMode: bool, offerings: Option<seq<Offering>>): (r: Option<seq<Offering>>)
    ensures profMode && r.Some? ==> forall o :: o in r.value ==> o.courseCode == Some(code)
    ensures !profMode ==> r.Some?
  {
    if profMode then
      match Get(m, ResultsKey(ProfCourseList))
      case OfferingsSlot(all) => if all == [] then None else Some(OfferingsOfCourse(all, code))
      case _ => None
    else Some(offerings.GetOr([]))
  }

  /** The four slots a shown year/semester list keeps beside it. */
  function TermListSlots(): set<Key>
  {
    {ResultsKey(YearSemesterList), PageKey(YearSemesterList), TermListModeKey, TermListIdentifierKey}
  }

  /** Stores a year/semester list on page 0 with its mode and back identifier. */
  function StoreTermList(m: Slots, terms: seq<Offering>, mode: Slot, identifier: string): (r: Slots)
    ensures Untouched(m, r, TermListSlots())
    ensures Get(r, ResultsKey(YearSemesterList)) == OfferingsSlot(terms) && Get(r, PageKey(YearSemesterList)) == IntSlot(0)
    ensures Get(r, TermListModeKey) == mode && Get(r, TermListIdentifierKey) == StrSlot(identifier)
  {
    m[ResultsKey(YearSemesterList) := OfferingsSlot(terms)][PageKey(YearSemesterList) := IntSlot(0)]
     [TermListModeKey := mode][TermListIdentifierKey := StrSlot(identifier)]
  }

  /**
   * The `ps_` branch. The id must parse; it and the professor mode and
   * name are recorded. Call 0 shows the "fetching" notice, then the dossier
   * must be found, call 1 deletes the notice and call 2 sends the dossier.
   */
  function SelectProf(m: Slots, id: Option<int>, io: Io, dossierFound: bool): Outcome
  {
    if id.None? then Outcome(m, End)
    else
      var pid := id.value;
      var m1 := m[SelectedProfIdKey := IntSlot(pid)][SearchModeKey := StrSlot("prof")];
      var fallback := "ID " + IntToString(pid);
      var hits := GetOr(m1, ResultsKey(ProfSearch), ItemsSlot([]));
      if !hits.ItemsSlot? then Outcome(m1, End)
      else
        var name := ProfNameIn(hits.items, pid, fallback);
        var m2 := m1[SelectedProfNameKey := StrSlot(name)];
        if Succeeds(io, 0) && dossierFound && Succeeds(io, 1) && Succeeds(io, 2)
        then Outcome(m2, To(SelectingCourseForProf))
        else Outcome(m2, End)
  }

  // ---------------------------------------------------------------------------
  // A professor's courses
  // ---------------------------------------------------------------------------

  function CodesOf(courses: seq<CourseEntry>): (codes: set<string>)
    ensures forall c :: c in courses && c.courseCode.Some? ==> c.courseCode.value in codes
  {
    if courses == [] then {}
    else
      (if courses[0].courseCode.Some? then {courses[0].courseCode.value} else {}) + CodesOf(courses[1..])
  }

  /**
   * The de-duplicated course list of `view_prof_courses_callback`: one
   * entry per truthy course code, in order of first appearance.
   */
  function UniqueCourses(offerings: seq<Offering>): seq<CourseEntry>
  {
    if offerings == [] then []
    else
      var prev := UniqueCourses(offerings[..|offerings| - 1]);
      var o := offerings[|offerings| - 1];
      if Truthy(o.courseCode) && o.courseCode.value !in CodesOf(prev)
      then prev + [CourseEntry(o.courseCode, o.courseName)]
      else prev
  }

  /**
   * `view_prof_courses_callback`, given the id decoded from the payload
   * (`IntAfter(data, ViewProfCoursesPrefix)`): the id must parse; it is
   * recorded with the professor's offerings (`None` when the backend
   * failed). Call 0 sends the course list, or the "no offerings" notice.
   */
  function ViewProfCourses(m: Slots, id: Option<int>, io: Io, offerings: Option<seq<Offering>>): Outcome
  {
    if id.None? then Outcome(m, End)
    else
      var m1 := m[SelectedProfIdKey := IntSlot(id.value)]
                 [ResultsKey(ProfCourseList) := if offerings.Some? then OfferingsSlot(offerings.value) else NoneSlot];
      var next := if Succeeds(io, 0) then To(SelectingCourseForProf) else End;
      if offerings.None? || offerings.value == [] then Outcome(m1, next)
      else
        Outcome(m1[ProfCoursesKey := CoursesSlot(UniqueCourses(offerings.value))]
                  [PageKey(ProfCourseList) := IntSlot(0)], next)
  }

  // ---------------------------------------------------------------------------
  // Selecting a year and semester
  // ---------------------------------------------------------------------------

  /** The page stored for a list, `0` when none is. `None` when the stored value is no integer. */
  function StoredPage(m: Slots, t: ListType): Option<int>
  {
    match GetOr(m, PageKey(t), IntSlot(0))
    case IntSlot(p) => Some(p)
    case _ => None
  }

  /**
   * The keyboard the year/semester retry shows: the stored terms (none by
   * default), mode (`course` by default), back identifier (the course by
   * default) and page. `None` where building it raises.
   */
  function RetryKeyboard(m: Slots, course: string): Option<Keyboard>
  {
    var mode := GetOr(m, TermListModeKey, StrSlot("course"));
    var identifier := GetOr(m, TermListIdentifierKey, StrSlot(course));
    match GetOr(m, ResultsKey(YearSemesterList), OfferingsSlot([]))
    case OfferingsSlot(terms) =>
      (match StoredPage(m, YearSemesterList)
       case Some(page) => YearSemesterKeyboard(terms, SlotStr(identifier), SlotStr(mode), page)
       case None => None)
    case _ => None
  }

  /** How a missing offering record or missing grades are answered. */
  datatype RetryCall = RetryAsWritten | RetryCorrected

  /**
   * `select_year_semester_callback`. The callback's message is kept as the
   * listing to delete and the edit target; the payload must be a `ysel_`
   * one with four fields; year and semester are recorded; a course must be
   * chosen. Call 0 shows the "fetching" notice. When the offering or its
   * grades are missing the retry list is shown by call 1; otherwise the
   * plot is sent (its message id, when it went out, is kept).
   */
  function SelectYearSemester(m: Slots, data: string, msgId: Option<int>, io: Io,
                              offeringId: Option<int>, gradesFound: bool, plotSent: Option<int>,
                              retry: RetryCall): Outcome
  {
    if msgId.None? then Outcome(m, End)
    else
      var m1 := m[LastBotMessageKey := MessageSlot(msgId.value)][OriginalMessageKey := IntSlot(msgId.value)];
      match DecodeYearSemSelect(data)
      case None => Outcome(m1, End)
      case Some(parts) =>
        var m2 := m1[SelectedYearKey := StrSlot(parts[0])][SelectedSemesterKey := StrSlot(parts[1])];
        var course := Get(m2, SelectedCourseKey);
        if !SlotTruthy(course) || !Succeeds(io, 0) then Outcome(m2, End)
        else if offeringId.None? || !gradesFound then
          if retry == RetryAsWritten then Outcome(m2, End)
          else if RetryKeyboard(m2, SlotStr(course)).Some? && Succeeds(io, 1) then Outcome(m2, To(SelectingYearSemester))
          else Outcome(m2, End)
        else
          var m3 := if plotSent.Some? then m2[FinalPlotMessageKey := MessageSlot(plotSent.value)] else m2;
          Outcome(m3, To(ShowingFinalGrades))
  }

  // ---------------------------------------------------------------------------
  // Pagination
  // ---------------------------------------------------------------------------

  /** The state each list is shown in. */
  function ListStateOf(t: ListType): State
  {
    match t
    case CourseSearch => SelectingCourseResults
    case ProfSearch => SelectingProfResults
    case ProfCourseList => SelectingCourseForProf
    case YearSemesterList => SelectingYearSemester
  }

  /** `expected_cb_parts_len`. */
  function ExpectedParts(t: ListType): nat
  {
    match t
    case CourseSearch => 1
    case ProfSearch => 1
    case ProfCourseList => 2
    case YearSemesterList => 3
  }

  /** The `page_*_callback` decoder of each list. */
  function DecodePage(t: ListType, data: string): Option<seq<string>>
  {
    match t
    case CourseSearch => SearchPageParts(data, PageCourseSearchResultsPrefix)
    case ProfSearch => SearchPageParts(data, PageProfSearchResultsPrefix)
    case ProfCourseList => ProfCoursePageParts(data)
    case YearSemesterList => YearSemesterPageParts(data)
  }

  /** The list's keyboard can be built from what is stored (a list of the right kind; terms that sort). */
  predicate PageBuilds(t: ListType, forKeyboard: Slot, parts: seq<string>, page: int)
  {
    match t
    case CourseSearch => forKeyboard.ItemsSlot?
    case ProfSearch => forKeyboard.ItemsSlot?
    case ProfCourseList => forKeyboard.CoursesSlot? || forKeyboard.OfferingsSlot?
    case YearSemesterList =>
      forKeyboard.OfferingsSlot? && |parts| == 3 &&
      YearSemesterKeyboard(forKeyboard.offerings, parts[1], parts[0], page).Some?
  }

  /**
   * `_handle_pagination_callback` after a decoder accepted the payload:
   * the edit target is the callback's message; the part count and the
   * page must be right and the list must be cached; the new page is stored
   * and call 0 edits the list in.
   */
  function Paginate(m: Slots, t: ListType, parts: seq<string>, msgId: int, io: Io): Outcome
  {
    var m1 := m[OriginalMessageKey := IntSlot(msgId)];
    match PageNumber(parts, ExpectedParts(t))
    case None => Outcome(m1, End)
    case Some(page) =>
      var primary := Get(m1, ResultsKey(t));
      var forKeyboard := KeyboardSource(m1, t);
      if primary == NoneSlot || forKeyboard == NoneSlot then Outcome(m1, End)
      else
        var m2 := m1[PageKey(t) := IntSlot(page)];
        if PageBuilds(t, forKeyboard, parts, page) && Succeeds(io, 0) then Outcome(m2, To(ListStateOf(t)))
        else Outcome(m2, End)
  }

  /** What the list's keyboard is built from: the professor's de-duplicated courses when cached, else the list itself. */
  function KeyboardSource(m: Slots, t: ListType): Slot
  {
    if t == ProfCourseList then GetOr(m, ProfCoursesKey, Get(m, ResultsKey(t))) else Get(m, ResultsKey(t))
  }

  /** A `page_*_callback`: the decoder, then the shared handler. */
  function PageCallbackHandler(m: Slots, t: ListType, data: string, msgId: int, io: Io): Outcome
  {
    match DecodePage(t, data)
    case None => Outcome(m, End)
    case Some(parts) => Paginate(m, t, parts, msgId, io)
  }

  // ---------------------------------------------------------------------------
  // Going back
  // ---------------------------------------------------------------------------

  /** `back_to_main_callback`: everything is cleared and the welcome is sent (call 0). */
  function BackToMain(m: Slots, io: Io): Outcome
  {
    if Succeeds(io, 0) then Outcome(map[OriginalMessageKey := IntSlot(io.sentId)], To(SelectingAction))
    else Outcome(map[], End)
  }

  /** `back_to_typing_course_callback`: the course search and all below it go; call 0 edits in the prompt. */
  function BackToTypingCourse(m: Slots, msgId: int, io: Io): Outcome
  {
    var m1 := (m - TypingCourseKeys())[SearchModeKey := StrSlot("course")][OriginalMessageKey := IntSlot(msgId)];
    Outcome(m1, if Succeeds(io, 0) then To(TypingCourse) else End)
  }

  /** `back_to_typing_prof_callback`: the professor search and all below it go; call 0 edits in the prompt. */
  function BackToTypingProf(m: Slots, msgId: int, io: Io): Outcome
  {
    var m1 := (m - TypingProfKeys())[SearchModeKey := StrSlot("prof")][OriginalMessageKey := IntSlot(msgId)];
    Outcome(m1, if Succeeds(io, 0) then To(TypingProf) else End)
  }

  /** A search list can be shown again: it is a list of hits and its page an integer. */
  predicate SearchListShowable(m: Slots, t: ListType)
  {
    Get(m, ResultsKey(t)).ItemsSlot? && StoredPage(m, t).Some?
  }

  /** The back handlers, as the targets of the fallback chain. */
  datatype BackHandler =
    | ToMain
    | ToTypingCourse
    | ToTypingProf
    | ToProfSearchList
    | ToCourseSearchList
    | ToProfCourseList

  /** How far a handler can still delegate: the fallback chain only ever descends. */
  function Rank(h: BackHandler): nat
  {
    match h
    case ToMain => 0
    case ToTypingCourse => 0
    case ToTypingProf => 0
    case ToProfSearchList => 1
    case ToCourseSearchList => 1
    case ToProfCourseList => 2
  }

  /**
   * The handler a back handler hands the update to instead of acting, if
   * any, judged on the slots after it stored the edit target.
   */
  function Delegate(h: BackHandler, m: Slots, data: string): Option<BackHandler>
  {
    match h
    case ToProfSearchList => if MissingAt(m, ResultsKey(ProfSearch)) then Some(ToTypingProf) else None
    case ToCourseSearchList => if MissingAt(m, ResultsKey(CourseSearch)) then Some(ToTypingCourse) else None
    case ToProfCourseList =>
      (match IntAfterFirst(data, BackToProfCourseListPrefix)
       case None => Some(ToMain)
       case Some(id) =>
         if Get(m, SelectedProfIdKey) != IntSlot(id) then Some(ToTypingProf)
         else if !TruthyAt(m, ProfCoursesKey) then Some(ToProfSearchList)
         else None)
    case _ => None
  }

  /** The edit target the three list-restoring back handlers store before anything else. */
  function BackPrelude(h: BackHandler, m: Slots, msgId: int): Slots
  {
    if h == ToProfSearchList || h == ToCourseSearchList || h == ToProfCourseList
    then m[OriginalMessageKey := IntSlot(msgId)] else m
  }

  /**
   * The work of a back handler that does not delegate.
   * `back_to_prof_search_list` deletes the dossier (call 0) and sends the
   * list (call 1), which becomes the edit target; the other two edit the
   * list in (call 0).
   */
  function BackOwn(h: BackHandler, m: Slots, msgId: int, io: Io): Outcome
  {
    match h
    case ToMain => BackToMain(m, io)
    case ToTypingCourse => BackToTypingCourse(m, msgId, io)
    case ToTypingProf => BackToTypingProf(m, msgId, io)
    case ToProfSearchList =>
      var m1 := m - ProfLevelKeys();
      if SearchListShowable(m1, ProfSearch) && Succeeds(io, 0) && Succeeds(io, 1)
      then Outcome(m1[OriginalMessageKey := IntSlot(io.sentId)], To(SelectingProfResults))
      else Outcome(m1, End)
    case ToCourseSearchList =>
      var m1 := m - CourseLevelKeys();
      if SearchListShowable(m1, CourseSearch) && Succeeds(io, 0) then Outcome(m1, To(SelectingCourseResults))
      else Outcome(m1, End)
    case ToProfCourseList =>
      var m1 := m - CourseLevelKeys();
      if Get(m1, ProfCoursesKey).CoursesSlot? && StoredPage(m1, ProfCourseList).Some? && Succeeds(io, 0)
      then Outcome(m1, To(SelectingCourseForProf))
      else Outcome(m1, End)
  }

  /** Delegating always moves to a handler of lower rank. */
  lemma DelegateDescends(h: BackHandler, m: Slots, data: string)
    ensures Delegate(h, m, data).Some? ==> Rank(Delegate(h, m, data).value) < Rank(h)
  {
  }

  /**
   * A back button's effect: the handler stores its edit target, then
   * either delegates (the delegate sees the same update) or acts itself.
   */
  function Back(h: BackHandler, m: Slots, data: string, msgId: int, io: Io): Outcome
    decreases Rank(h)
  {
    var m1 := BackPrelude(h, m, msgId);
    match Delegate(h, m1, data)
    case None => BackOwn(h, m1, msgId, io)
    case Some(h2) =>
      DelegateDescends(h, m1, data);
      Back(h2, m1, data, msgId, io)
  }

  /** The handlers an update passes through, the acting one last. */
  function Chain(h: BackHandler, m: Slots, data: string, msgId: int): (c: seq<BackHandler>)
    decreases Rank(h)
  {
    var m1 := BackPrelude(h, m, msgId);
    match Delegate(h, m1, data)
    case None => [h]
    case Some(h2) =>
      DelegateDescends(h, m1, data);
      [h] + Chain(h2, m1, data, msgId)
  }

  /**
   * Every fallback chain starts at the button's handler, visits at most
   * three handlers, never the same one twice, and descends in rank, so it
   * ends.
   */
  lemma {:induction false} ChainIsShort(h: BackHandler, m: Slots, data: string, msgId: int)
    ensures var c := Chain(h, m, data, msgId);
      && c != [] && c[0] == h
      && |c| <= Rank(h) + 1 <= 3
      && (forall i, j :: 0 <= i < j < |c| ==> Rank(c[j]) < Rank(c[i]))
    decreases Rank(h)
  {
    var m1 := BackPrelude(h, m, msgId);
    match Delegate(h, m1, data)
    case None =>
    case Some(h2) =>
      DelegateDescends(h, m1, data);
      ChainIsShort(h2, m1, data, msgId);
      var rest := Chain(h2, m1, data, msgId);
      var c := [h] + rest;
      assert Chain(h, m, data, msgId) == c;
      forall i, j | 0 <= i < j < |c| ensures Rank(c[j]) < Rank(c[i]) {
        if i == 0 {
          assert c[j] == rest[j - 1];
          assert Rank(rest[j - 1]) <= Rank(rest[0]);
        } else {
          assert c[i] == rest[i - 1] && c[j] == rest[j - 1];
        }
      }
  }

  /**
   * `back_to_course_list_from_plot_callback`: the plot keyboard is
   * dropped; the payload picks the professor's course list or the course
   * results, which must still be cached, and call 0 sends it.
   */
  function BackToCourseListFromPlot(m: Slots, data: string, io: Io): Outcome
  {
    var m1 := m - {FinalPlotMessageKey};
    match DecodePlotBack(data)
    case Some(ToProfCourses(_)) =>
      if TruthyAt(m1, ProfCoursesKey) && Get(m1, ProfCoursesKey).CoursesSlot?
         && StoredPage(m1, ProfCourseList).Some? && Succeeds(io, 0)
      then Outcome(m1, To(SelectingCourseForProf))
      else Outcome(m1, End)
    case Some(ToCourseResults) =>
      if TruthyAt(m1, ResultsKey(CourseSearch)) && SearchListShowable(m1, CourseSearch) && Succeeds(io, 0)
      then Outcome(m1, To(SelectingCourseResults))
      else Outcome(m1, End)
    case _ => Outcome(m1, End)
  }

  /** The four things `back_to_year_sem_select_callback` needs: course, terms, mode and identifier. */
  predicate TermListRestorable(m: Slots)
  {
    TruthyAt(m, SelectedCourseKey) && TruthyAt(m, ResultsKey(YearSemesterList))
    && TruthyAt(m, TermListModeKey) && !MissingAt(m, TermListIdentifierKey)
  }

  /**
   * The year/semester list can be shown again from the slots alone: its
   * four pieces are stored, the terms are offerings whose start years
   * parse, and the stored page is an integer.
   */
  predicate TermListShowable(m: Slots)
  {
    && TermListRestorable(m)
    && Get(m, ResultsKey(YearSemesterList)).OfferingsSlot?
    && TermsSortable(Get(m, ResultsKey(YearSemesterList)).offerings)
    && StoredPage(m, YearSemesterList).Some?
  }

  /**
   * `back_to_year_sem_select_callback`: the plot keyboard is dropped; with
   * all four pieces stored, the list is rebuilt and sent (call 0).
   */
  function BackToYearSemSelect(m: Slots, io: Io): Outcome
  {
    var m1 := m - {FinalPlotMessageKey};
    if !TermListRestorable(m1) then Outcome(m1, End)
    else
      match (Get(m1, ResultsKey(YearSemesterList)), StoredPage(m1, YearSemesterList))
      case (OfferingsSlot(terms), Some(page)) =>
        if YearSemesterKeyboard(terms, SlotStr(Get(m1, TermListIdentifierKey)),
                                SlotStr(Get(m1, TermListModeKey)), page).Some? && Succeeds(io, 0)
        then Outcome(m1, To(SelectingYearSemester))
        else Outcome(m1, End)
      case _ => Outcome(m1, End)
  }

  /** `cancel_conversation`: everything is cleared and the conversation ends. */
  function CancelConversation(m: Slots): Outcome
  {
    Outcome(map[], End)
  }

  /** `simple_close_callback`: everything is cleared; it returns `None`, so the state stays. */
  function SimpleClose(m: Slots): Outcome
  {
    Outcome(map[], Stay)
  }

  // ---------------------------------------------------------------------------
  // Feedback
  // ---------------------------------------------------------------------------

  function FeedbackKeys(): set<Key>
  {
    {FeedbackMessageKey, FeedbackTypeKey}
  }

  /** `feedback_start_command`: both feedback slots go; it needs a user and a message. */
  function FeedbackStart(m: Slots, hasUserAndMessage: bool): Outcome
  {
    if !hasUserAndMessage then Outcome(m, End)
    else Outcome(m - FeedbackKeys(), To(AskFeedbackType))
  }

  /** `feedback_type_callback`: the pressed button's data is the type. */
  function FeedbackType(m: Slots, data: string): Outcome
  {
    if data == "" then Outcome(m, End)
    else Outcome(m[FeedbackTypeKey := StrSlot(data)], To(TypingFeedbackMessage))
  }

  /** `feedback_message_handler`: an empty message is asked for again; otherwise it is stored stripped. */
  function FeedbackMessage(m: Slots, text: string): Outcome
  {
    var t := Strip(text);
    if t == "" then Outcome(m, To(TypingFeedbackMessage))
    else Outcome(m[FeedbackMessageKey := StrSlot(t)], To(ConfirmFeedbackSubmission))
  }

  /**
   * `feedback_confirm_send_callback`: without a stored message everything
   * is cleared; otherwise both slots go, whatever the submission did.
   */
  function FeedbackConfirm(m: Slots, hasUser: bool): Outcome
  {
    if !hasUser then Outcome(m, End)
    else if !TruthyAt(m, FeedbackMessageKey) then Outcome(map[], End)
    else Outcome(m - FeedbackKeys(), End)
  }

  /** `feedback_cancel_or_edit_callback`: both slots go and the type is asked again. */
  function FeedbackCancelOrEdit(m: Slots): Outcome
  {
    Outcome(m - FeedbackKeys(), To(AskFeedbackType))
  }

  // ---------------------------------------------------------------------------
  // Properties of single handlers
  // ---------------------------------------------------------------------------

  /** Keys other than those in `touched` keep their presence and their value. */
  ghost predicate Untouched(m: Slots, r: Slots, touched: set<Key>)
  {
    forall k :: k !in touched ==> (k in r <==> k in m) && (k in m ==> r[k] == m[k])
  }

  lemma UntouchedChain(m1: Slots, m2: Slots, m3: Slots, a: set<Key>, b: set<Key>)
    requires Untouched(m1, m2, a) && Untouched(m2, m3, b)
    ensures Untouched(m1, m3, a + b)
  {
  }

  /** Keys outside what a step touches keep their presence and value. */
  lemma UntouchedKeeps(m: Slots, r: Slots, touched: set<Key>, kept: set<Key>)
    requires Untouched(m, r, touched)
    requires kept * touched == {}
    ensures forall k :: k in kept ==> (k in r <==> k in m) && (k in m ==> r[k] == m[k])
  {
    forall k | k in kept ensures (k in r <==> k in m) && (k in m ==> r[k] == m[k]) {
      assert k in touched ==> k in kept * touched;
    }
  }

  /** A step that touches no search-list key keeps every one of them. */
  lemma UntouchedKeepsSearchLists(m: Slots, r: Slots, touched: set<Key>)
    requires Untouched(m, r, touched)
    requires forall k :: k in touched ==> !IsSearchListKey(k)
    ensures forall k :: IsSearchListKey(k) ==> (k in r <==> k in m) && (k in m ==> r[k] == m[k])
  {
  }

  /** One or two updates touch only the updated keys. */
  lemma UpdatesUntouched(m: Slots, a: Key, x: Slot, b: Key, y: Slot)
    ensures Untouched(m, m[a := x], {a, b}) && Untouched(m, m[a := x][b := y], {a, b})
  {
  }

  /** Keys that are gone stay gone through a step that writes none of them. */
  lemma GoneStaysGone(m: Slots, r: Slots, gone: set<Key>, writes: set<Key>)
    requires forall k :: k in gone ==> k !in m
    requires Untouched(m, r, writes)
    requires gone * writes == {}
    ensures forall k :: k in gone ==> k !in r
  {
    forall k | k in gone ensures k !in r {
      assert k in writes ==> k in gone * writes;
    }
  }

  /** `start_command` replaces only the edit target, and reaches the menu exactly when the welcome went out. */
  lemma StartCommandReplacesEditTarget(m: Slots, io: Io)
    ensures var r := StartCommand(m, io);
      && Untouched(m, r.slots, {OriginalMessageKey})
      && (r.next == To(SelectingAction) <==> Succeeds(io, 0))
      && (Succeeds(io, 0) ==> Get(r.slots, OriginalMessageKey) == IntSlot(io.sentId))
      && (!Succeeds(io, 0) ==> r.next == End && OriginalMessageKey !in r.slots)
  {
  }

  /**
   * Choosing a mode forgets everything but the edit target and the mode,
   * and reaches a typing state exactly when there was a target, the button
   * was one of the two modes and the prompt was shown.
   */
  lemma SelectSearchModeOutcome(m: Slots, data: string, io: Io)
    ensures var r := SelectSearchMode(m, data, io);
      && r.slots.Keys <= {OriginalMessageKey, SearchModeKey}
      && (TruthyAt(m, OriginalMessageKey) ==> Get(r.slots, OriginalMessageKey) == m[OriginalMessageKey])
      && (r.next == To(TypingCourse) <==> TruthyAt(m, OriginalMessageKey) && data == CourseSearchMode && Succeeds(io, 0))
      && (r.next == To(TypingProf) <==> TruthyAt(m, OriginalMessageKey) && data == ProfSearchMode && Succeeds(io, 0))
      && (r.next == To(TypingCourse) || r.next == To(TypingProf) || r.next == End)
      && (r.next == To(TypingCourse) ==> Get(r.slots, SearchModeKey) == StrSlot("course"))
      && (r.next == To(TypingProf) ==> Get(r.slots, SearchModeKey) == StrSlot("prof"))
  {
    assert CourseSearchMode[5] != ProfSearchMode[5];
  }

  /** There is a message to put the results in: the prompt was edited, or a fresh one was sent. */
  predicate HasStatusMessage(m: Slots, io: Io)
  {
    (TruthyAt(m, OriginalMessageKey) && Succeeds(io, 0)) || io.sentId != 0
  }

  /** A query shorter than the minimum changes at most the edit target and keeps the user typing. */
  lemma ShortQueryKeepsLists(m: Slots, kind: SearchKind, text: string, io: Io, results: Option<seq<SearchItem>>)
    requires |Strip(text)| < MinQueryLength(kind)
    ensures var r := SearchInput(m, kind, text, io, results);
      r.next == To(TypingStateOf(kind)) && Untouched(m, r.slots, {OriginalMessageKey})
  {
  }

  /**
   * A search of at least the minimum length touches only its own list
   * context and the edit target. It lists its hits exactly when there are
   * some, there was a message to put them in and the edit went through;
   * then the hits, page 0 and the stripped query are stored together.
   * With no hits the user keeps typing when the notice went out.
   */
  lemma SearchInputOutcome(m: Slots, kind: SearchKind, text: string, io: Io, results: Option<seq<SearchItem>>)
    requires |Strip(text)| >= MinQueryLength(kind)
    ensures var r := SearchInput(m, kind, text, io, results);
      var lt := SearchListOf(kind);
      && Untouched(m, r.slots, ListContextKeys(lt) + {OriginalMessageKey})
      && (r.next == To(TypingStateOf(kind)) || r.next == To(ListingStateOf(kind)) || r.next == End)
      && (r.next == To(ListingStateOf(kind)) <==>
            HasStatusMessage(m, io) && results.Some? && results.value != [] && Succeeds(io, 1))
      && (r.next == To(TypingStateOf(kind)) <==>
            HasStatusMessage(m, io) && (results.None? || results.value == []) && Succeeds(io, 1))
      && (r.next == To(ListingStateOf(kind)) ==>
            && Get(r.slots, ResultsKey(lt)) == ItemsSlot(results.value)
            && Get(r.slots, PageKey(lt)) == IntSlot(0)
            && Get(r.slots, QueryKeyOf(kind)) == StrSlot(Strip(text))
            && UniqueKbKey(lt) !in r.slots)
  {
    SearchForOutcome(m, kind, Strip(text), io, results);
  }

  /** What a search does with a long enough query `q`. */
  lemma SearchForOutcome(m: Slots, kind: SearchKind, q: string, io: Io, results: Option<seq<SearchItem>>)
    requires |q| >= MinQueryLength(kind)
    ensures var r := SearchFor(m, kind, q, io, results);
      var lt := SearchListOf(kind);
      && Untouched(m, r.slots, ListContextKeys(lt) + {OriginalMessageKey})
      && (r.next == To(TypingStateOf(kind)) || r.next == To(ListingStateOf(kind)) || r.next == End)
      && (r.next == To(ListingStateOf(kind)) <==>
            HasStatusMessage(m, io) && results.Some? && results.value != [] && Succeeds(io, 1))
      && (r.next == To(TypingStateOf(kind)) <==>
            HasStatusMessage(m, io) && (results.None? || results.value == []) && Succeeds(io, 1))
      && (r.next == To(ListingStateOf(kind)) ==>
            && Get(r.slots, ResultsKey(lt)) == ItemsSlot(results.value)
            && Get(r.slots, PageKey(lt)) == IntSlot(0)
            && Get(r.slots, QueryKeyOf(kind)) == StrSlot(q)
            && UniqueKbKey(lt) !in r.slots)
  {
    ClearListContextExact(m, SearchListOf(kind));
  }

  /** The list a successful search stores can be shown by its back button straight away. */
  lemma SearchResultsShowable(m: Slots, kind: SearchKind, text: string, io: Io, results: Option<seq<SearchItem>>)
    ensures var r := SearchInput(m, kind, text, io, results);
      r.next == To(ListingStateOf(kind)) ==> SearchListShowable(r.slots, SearchListOf(kind))
  {
    var q := Strip(text);
    if |q| >= MinQueryLength(kind) {
      assert SearchInput(m, kind, text, io, results) == SearchFor(m, kind, q, io, results);
      SearchForOutcome(m, kind, q, io, results);
    }
  }

  /** The `cs_` branch writes only the chosen course and the year/semester list. */
  lemma SelectCourseWrites(m: Slots, choice: CourseChoice, io: Io, offerings: Option<seq<Offering>>)
    ensures var r := SelectCourse(m, choice, io, offerings);
      && Untouched(m, r.slots, {SelectedCourseKey, ResultsKey(YearSemesterList), PageKey(YearSemesterList),
                                TermListModeKey, TermListIdentifierKey})
      && (r.next == End || r.next == To(SelectingCourseForProf)
          || r.next == To(SelectingCourseResults) || r.next == To(SelectingYearSemester))
  {
  }

  /** The `ps_` branch writes only the professor's id and name and the search mode. */
  lemma SelectProfWrites(m: Slots, id: Option<int>, io: Io, dossierFound: bool)
    ensures var r := SelectProf(m, id, io, dossierFound);
      && Untouched(m, r.slots, {SelectedProfIdKey, SearchModeKey, SelectedProfNameKey})
      && (r.next == End || r.next == To(SelectingCourseForProf))
  {
  }

  /** Before it looks at the payload, `select_item_callback` forgets the term choice, the term list and the plot. */
  lemma SelectionForgetsTerms(m: Slots, sel: Selection, msgId: int)
    ensures var m1 := ClearForSelection(m, sel, msgId);
      && Get(m1, OriginalMessageKey) == IntSlot(msgId)
      && forall k :: k in TermChoiceKeys() + PlotKeys() + ListContextKeys(YearSemesterList) ==> k !in m1
  {
    BackLevelsNest();
  }

  /** ... and touches nothing else. */
  lemma SelectionTouchesDropped(m: Slots, sel: Selection, msgId: int)
    ensures Untouched(m, ClearForSelection(m, sel, msgId), DroppedBySelection(sel) + {OriginalMessageKey})
  {
  }

  /** Neither search's list is among what a selection drops or writes. */
  lemma SelectionKeepsSearchKeys(sel: Selection)
    ensures forall k :: k in DroppedBySelection(sel) + {OriginalMessageKey} + SelectionWrites() ==> !IsSearchListKey(k)
  {
    SelectionSparesSearches();
    SelectionWritesSpareSearches();
    forall k | k in DroppedBySelection(sel) + {OriginalMessageKey} + SelectionWrites() ensures !IsSearchListKey(k) {
      if k in DroppedBySelection(sel) {
        if sel.ProfSelection? {
          assert k in ProfSelectionKeys();
        } else {
          assert k in SelectionKeys();
        }
      }
    }
  }

  lemma SelectionWritesSpareSearches()
    ensures forall k :: k in SelectionWrites() ==> !IsSearchListKey(k)
  {
  }

  /** The term choice, the plot and the term keyboard are not among what a selection writes. */
  lemma SelectionWritesNoTermChoice()
    ensures (TermChoiceKeys() + PlotKeys() + {UniqueKbKey(YearSemesterList)}) * SelectionWrites() == {}
    ensures OriginalMessageKey !in SelectionWrites()
  {
  }

  /** The keys the two branches of `select_item_callback` may write. */
  function SelectionWrites(): set<Key>
  {
    {SelectedCourseKey, ResultsKey(YearSemesterList), PageKey(YearSemesterList), TermListModeKey,
     TermListIdentifierKey, SelectedProfIdKey, SearchModeKey, SelectedProfNameKey}
  }

  /** Either branch writes only `SelectionWrites()`, and hands back one of the four states a selection leads to. */
  lemma SelectionBranchesWrite(m: Slots, sel: Selection, msgId: int, io: Io,
                               offerings: Option<seq<Offering>>, dossierFound: bool)
    ensures var r := SelectItem(m, sel, msgId, io, offerings, dossierFound);
      && Untouched(ClearForSelection(m, sel, msgId), r.slots, SelectionWrites())
      && (r.next == End || r.next == To(SelectingCourseForProf)
          || r.next == To(SelectingCourseResults) || r.next == To(SelectingYearSemester))
  {
    var m1 := ClearForSelection(m, sel, msgId);
    match sel
    case CourseSelection(choice) => SelectCourseWrites(m1, choice, io, offerings);
    case ProfSelection(id) => SelectProfWrites(m1, id, io, dossierFound);
    case UnknownSelection =>
  }

  /** Selecting an item stores the edit target and forgets an earlier year/semester choice and plot. */
  lemma SelectItemForgetsChoice(m: Slots, sel: Selection, msgId: int, io: Io,
                                offerings: Option<seq<Offering>>, dossierFound: bool)
    ensures var r := SelectItem(m, sel, msgId, io, offerings, dossierFound);
      && Get(r.slots, OriginalMessageKey) == IntSlot(msgId)
      && (forall k :: k in TermChoiceKeys() + PlotKeys() + {UniqueKbKey(YearSemesterList)} ==> k !in r.slots)
      && (r.next == End || r.next == To(SelectingCourseForProf)
          || r.next == To(SelectingCourseResults) || r.next == To(SelectingYearSemester))
  {
    var m1 := ClearForSelection(m, sel, msgId);
    var r := SelectItem(m, sel, msgId, io, offerings, dossierFound);
    var gone := TermChoiceKeys() + PlotKeys() + {UniqueKbKey(YearSemesterList)};
    SelectionForgetsTerms(m, sel, msgId);
    SelectionBranchesWrite(m, sel, msgId, io, offerings, dossierFound);
    SelectionWritesNoTermChoice();
    GoneStaysGone(m1, r.slots, gone, SelectionWrites());
  }

  /** Selecting an item never touches either search's cached list. */
  lemma SelectItemKeepsSearchLists(m: Slots, sel: Selection, msgId: int, io: Io,
                                   offerings: Option<seq<Offering>>, dossierFound: bool)
    ensures var r := SelectItem(m, sel, msgId, io, offerings, dossierFound);
      forall k :: IsSearchListKey(k) ==>
        (k in r.slots <==> k in m) && (k in m ==> r.slots[k] == m[k])
  {
    var m1 := ClearForSelection(m, sel, msgId);
    var r := SelectItem(m, sel, msgId, io, offerings, dossierFound);
    SelectionTouchesDropped(m, sel, msgId);
    SelectionKeepsSearchKeys(sel);
    SelectionBranchesWrite(m, sel, msgId, io, offerings, dossierFound);
    UntouchedChain(m, m1, r.slots, DroppedBySelection(sel) + {OriginalMessageKey}, SelectionWrites());
    UntouchedKeepsSearchLists(m, r.slots, DroppedBySelection(sel) + {OriginalMessageKey} + SelectionWrites());
  }

  /**
   * A course selection that lists years and semesters leaves a list that
   * can be shown again: the stored terms parse, the page is 0, the current
   * search mode and the back identifier are kept beside them, and in the
   * professor flow every stored term is an offering of the chosen course.
   */
  lemma CourseSelectionStoresTermList(m: Slots, choice: CourseChoice, io: Io, offerings: Option<seq<Offering>>)
    ensures var r := SelectCourse(m, choice, io, offerings);
      r.next == To(SelectingYearSemester) ==>
        && Get(r.slots, SelectedCourseKey) == StrSlot(choice.code)
        && Get(r.slots, PageKey(YearSemesterList)) == IntSlot(0)
        && Get(r.slots, TermListModeKey) == Get(m, SearchModeKey)
        && Get(r.slots, TermListIdentifierKey).StrSlot?
        && Get(r.slots, ResultsKey(YearSemesterList)).OfferingsSlot?
        && Get(r.slots, ResultsKey(YearSemesterList)).offerings != []
        && OrderedTerms(Get(r.slots, ResultsKey(YearSemesterList)).offerings).Some?
        && (Get(m, SearchModeKey) == StrSlot("prof") ==>
              forall o :: o in Get(r.slots, ResultsKey(YearSemesterList)).offerings ==> o.courseCode == Some(choice.code))
  {
    var m1 := m[SelectedCourseKey := StrSlot(choice.code)];
    ListCourseTermsStores(m1, choice.code, io, offerings);
  }

  /** `ListCourseTerms` keeps the list it shows, with the current search mode beside it. */
  lemma ListCourseTermsStores(m: Slots, code: string, io: Io, offerings: Option<seq<Offering>>)
    ensures var r := ListCourseTerms(m, code, io, offerings);
      r.next == To(SelectingYearSemester) ==>
        && Untouched(m, r.slots, TermListSlots())
        && Get(r.slots, SelectedCourseKey) == Get(m, SelectedCourseKey)
        && Get(r.slots, PageKey(YearSemesterList)) == IntSlot(0)
        && Get(r.slots, TermListModeKey) == Get(m, SearchModeKey)
        && Get(r.slots, TermListIdentifierKey).StrSlot?
        && Get(r.slots, ResultsKey(YearSemesterList)).OfferingsSlot?
        && Get(r.slots, ResultsKey(YearSemesterList)).offerings != []
        && OrderedTerms(Get(r.slots, ResultsKey(YearSemesterList)).offerings).Some?
        && (Get(m, SearchModeKey) == StrSlot("prof") ==>
              forall o :: o in Get(r.slots, ResultsKey(YearSemesterList)).offerings ==> o.courseCode == Some(code))
  {
    var mode := Get(m, SearchModeKey);
    var profMode := mode == StrSlot("prof");
    var identifier := if profMode then SlotStr(Get(m, SelectedProfIdKey)) else code;
    var terms := CourseTerms(m, code, profMode, offerings);
    if terms.Some? && terms.value != [] {
      ShowTermListStores(m, terms.value, mode, identifier, io);
    }
  }

  /** A shown year/semester list is stored whole, on page 0, and its terms order. */
  lemma ShowTermListStores(m: Slots, terms: seq<Offering>, mode: Slot, identifier: string, io: Io)
    ensures var r := ShowTermList(m, terms, mode, identifier, io);
      r.next == To(SelectingYearSemester) ==>
        && Untouched(m, r.slots, TermListSlots())
        && Get(r.slots, SelectedCourseKey) == Get(m, SelectedCourseKey)
        && Get(r.slots, ResultsKey(YearSemesterList)) == OfferingsSlot(terms)
        && Get(r.slots, PageKey(YearSemesterList)) == IntSlot(0)
        && Get(r.slots, TermListModeKey) == mode
        && Get(r.slots, TermListIdentifierKey) == StrSlot(identifier)
        && OrderedTerms(terms).Some?
  {
    var m2 := StoreTermList(m, terms, mode, identifier);
    UntouchedGet(m, m2, TermListSlots(), SelectedCourseKey);
    KeyboardBuildsOrdered(terms, identifier, SlotStr(mode));
  }

  /** The picker builds exactly when its terms order. */
  lemma KeyboardBuildsOrdered(terms: seq<Offering>, backId: string, mode: string)
    ensures YearSemesterKeyboard(terms, backId, mode, 0).Some? <==> OrderedTerms(terms).Some?
  {
  }

  /**
   * The list a course selection shows can be brought back from the plot
   * while the search mode is set, unless the course code was empty (then
   * the stored course is falsy and the plot's back button ends instead).
   */
  lemma CourseSelectionRestorable(m: Slots, choice: CourseChoice, io: Io, offerings: Option<seq<Offering>>)
    requires TruthyAt(m, SearchModeKey)
    ensures var r := SelectCourse(m, choice, io, offerings);
      r.next == To(SelectingYearSemester) ==> (TermListShowable(r.slots) <==> choice.code != "")
  {
    CourseSelectionStoresTermList(m, choice, io, offerings);
    var r := SelectCourse(m, choice, io, offerings);
    if r.next == To(SelectingYearSemester) {
      StoredTermListShowable(r.slots, choice.code);
    }
  }

  /** A stored year/semester list on page 0 with a truthy mode can be shown exactly when its course is non-empty. */
  lemma StoredTermListShowable(s: Slots, code: string)
    requires Get(s, SelectedCourseKey) == StrSlot(code) && Get(s, PageKey(YearSemesterList)) == IntSlot(0)
    requires TruthyAt(s, TermListModeKey) && Get(s, TermListIdentifierKey).StrSlot?
    requires Get(s, ResultsKey(YearSemesterList)).OfferingsSlot? && Get(s, ResultsKey(YearSemesterList)).offerings != []
    requires OrderedTerms(Get(s, ResultsKey(YearSemesterList)).offerings).Some?
    ensures TermListShowable(s) <==> code != ""
  {
    assert TruthyAt(s, SelectedCourseKey) <==> code != "";
    assert StoredPage(s, YearSemesterList) == Some(0);
    assert TruthyAt(s, ResultsKey(YearSemesterList));
    assert !MissingAt(s, TermListIdentifierKey);
    assert TermListRestorable(s) <==> code != "";
  }

  /**
   * The course a professor's course button names is selected only when it
   * carries the professor id that is stored, printed as Python prints it.
   */
  lemma ProfCourseButtonChecksProf(m: Slots, code: string, profIdStr: string, io: Io, offerings: Option<seq<Offering>>)
    requires SlotStr(Get(m, SelectedProfIdKey)) != profIdStr
    ensures SelectItem(m, CourseSelection(CourseChoice(code, Some(profIdStr))), 0, io, offerings, true).next == End
  {
    assert SelectedProfIdKey !in SelectionKeys();
  }

  /**
   * Selecting professor `id` records the id, the professor mode and the
   * name of the first search hit with that id, and drops any chosen course
   * and the previous professor's course list.
   */
  lemma ProfSelectionRecordsProf(m: Slots, id: int, msgId: int, io: Io, offerings: Option<seq<Offering>>, dossierFound: bool)
    requires Get(m, ResultsKey(ProfSearch)).ItemsSlot?
    ensures var r := SelectItem(m, ProfSelection(Some(id)), msgId, io, offerings, dossierFound);
      && Get(r.slots, SelectedProfIdKey) == IntSlot(id)
      && Get(r.slots, SearchModeKey) == StrSlot("prof")
      && Get(r.slots, SelectedProfNameKey)
         == StrSlot(ProfNameIn(Get(m, ResultsKey(ProfSearch)).items, id, "ID " + IntToString(id)))
      && SelectedCourseKey !in r.slots && ProfCoursesKey !in r.slots
      && (r.next == To(SelectingCourseForProf) <==>
            Succeeds(io, 0) && dossierFound && Succeeds(io, 1) && Succeeds(io, 2))
  {
    assert ResultsKey(ProfSearch) !in ProfSelectionKeys();
  }

  // ---------------------------------------------------------------------------
  // A professor's de-duplicated course list
  // ---------------------------------------------------------------------------

  /** The course codes `view_prof_courses_callback` keeps: the truthy ones. */
  ghost predicate HasCourseCode(offerings: seq<Offering>, c: string)
  {
    exists i :: 0 <= i < |offerings| && offerings[i].courseCode == Some(c) && c != ""
  }

  /** `o` is the first offering with its course code. */
  predicate FirstOfCode(offerings: seq<Offering>, i: int)
  {
    0 <= i < |offerings|
    && forall j :: 0 <= j < i ==> offerings[j].courseCode != offerings[i].courseCode
  }

  lemma {:induction false} CodesOfExact(courses: seq<CourseEntry>, c: string)
    ensures c in CodesOf(courses) <==> exists i :: 0 <= i < |courses| && courses[i].courseCode == Some(c)
  {
    if courses != [] {
      CodesOfExact(courses[1..], c);
      if c !in CodesOf(courses) {
        forall i | 0 <= i < |courses| ensures courses[i].courseCode != Some(c) {
          if i > 0 { assert courses[1..][i - 1] == courses[i]; }
        }
      } else if courses[0].courseCode != Some(c) {
        var i :| 0 <= i < |courses[1..]| && courses[1..][i].courseCode == Some(c);
        assert courses[i + 1] == courses[1..][i];
      }
    }
  }

  /** Appending an entry adds its code, if any, to the codes. */
  lemma CodesOfSnoc(prev: seq<CourseEntry>, e: CourseEntry)
    ensures forall c :: c in CodesOf(prev + [e]) <==> c in CodesOf(prev) || e.courseCode == Some(c)
  {
    var u := prev + [e];
    forall c ensures c in CodesOf(u) <==> c in CodesOf(prev) || e.courseCode == Some(c) {
      CodesOfExact(u, c);
      CodesOfExact(prev, c);
      if c in CodesOf(u) {
        var i :| 0 <= i < |u| && u[i].courseCode == Some(c);
        if i < |prev| { assert u[i] == prev[i]; }
      }
      if c in CodesOf(prev) {
        var i :| 0 <= i < |prev| && prev[i].courseCode == Some(c);
        assert u[i] == prev[i];
      }
      if e.courseCode == Some(c) { assert u[|prev|] == e; }
    }
  }

  /** The truthy codes of the offerings are those of all but the last, and the last one's. */
  lemma HasCourseCodeSnoc(offerings: seq<Offering>)
    requires offerings != []
    ensures var init := offerings[..|offerings| - 1];
      var o := offerings[|offerings| - 1];
      forall c :: HasCourseCode(offerings, c) <==> HasCourseCode(init, c) || (o.courseCode == Some(c) && c != "")
  {
    var init := offerings[..|offerings| - 1];
    var o := offerings[|offerings| - 1];
    forall c ensures HasCourseCode(offerings, c) <==> HasCourseCode(init, c) || (o.courseCode == Some(c) && c != "") {
      if HasCourseCode(offerings, c) {
        var i :| 0 <= i < |offerings| && offerings[i].courseCode == Some(c) && c != "";
        if i < |init| { assert init[i] == offerings[i]; }
      }
      if HasCourseCode(init, c) {
        var i :| 0 <= i < |init| && init[i].courseCode == Some(c) && c != "";
        assert offerings[i] == init[i];
      }
    }
  }

  /**
   * The de-duplicated list has one entry per truthy course code of the
   * offerings and no other, and each of its entries has a truthy code.
   */
  lemma {:induction false} UniqueCoursesCodes(offerings: seq<Offering>)
    ensures var u := UniqueCourses(offerings);
      && (forall c :: c in CodesOf(u) <==> HasCourseCode(offerings, c))
      && (forall i :: 0 <= i < |u| ==> Truthy(u[i].courseCode))
  {
    if offerings != [] {
      var init := offerings[..|offerings| - 1];
      var o := offerings[|offerings| - 1];
      var prev := UniqueCourses(init);
      UniqueCoursesCodes(init);
      assert prev == UniqueCourses(init);
      HasCourseCodeSnoc(offerings);
      if Truthy(o.courseCode) && o.courseCode.value !in CodesOf(prev) {
        CodesOfSnoc(prev, CourseEntry(o.courseCode, o.courseName));
      } else {
        forall c | o.courseCode == Some(c) && c != "" ensures HasCourseCode(init, c) {
        }
      }
    }
  }

  /** No course code appears twice in the de-duplicated list. */
  lemma {:induction false} UniqueCoursesDistinct(offerings: seq<Offering>)
    ensures var u := UniqueCourses(offerings);
      forall i, j :: 0 <= i < j < |u| ==> u[i].courseCode != u[j].courseCode
  {
    if offerings != [] {
      var init := offerings[..|offerings| - 1];
      var o := offerings[|offerings| - 1];
      var prev := UniqueCourses(init);
      UniqueCoursesDistinct(init);
      UniqueCoursesCodes(init);
      assert prev == UniqueCourses(init);
      var u := UniqueCourses(offerings);
      if Truthy(o.courseCode) && o.courseCode.value !in CodesOf(prev) {
        assert u == prev + [CourseEntry(o.courseCode, o.courseName)];
        forall i, j | 0 <= i < j < |u| ensures u[i].courseCode != u[j].courseCode {
          if j == |prev| {
            assert u[i] == prev[i];
            assert Truthy(prev[i].courseCode);
            CodesOfExact(prev, prev[i].courseCode.value);
          } else {
            assert u[i] == prev[i] && u[j] == prev[j];
          }
        }
      } else {
        assert u == prev;
      }
    }
  }

  /** Every entry of the de-duplicated list carries the code and name of the first offering with that code. */
  lemma {:induction false} UniqueCoursesKeepFirst(offerings: seq<Offering>)
    ensures var u := UniqueCourses(offerings);
      forall i :: 0 <= i < |u| ==>
        exists n :: FirstOfCode(offerings, n)
          && offerings[n].courseCode == u[i].courseCode && offerings[n].courseName == u[i].courseName
  {
    if offerings != [] {
      var init := offerings[..|offerings| - 1];
      var o := offerings[|offerings| - 1];
      var prev := UniqueCourses(init);
      UniqueCoursesKeepFirst(init);
      assert prev == UniqueCourses(init);
      var u := UniqueCourses(offerings);
      forall n | FirstOfCode(init, n) ensures FirstOfCode(offerings, n) {
        forall j | 0 <= j < n ensures offerings[j].courseCode != offerings[n].courseCode {
          assert offerings[j] == init[j] && offerings[n] == init[n];
        }
      }
      if Truthy(o.courseCode) && o.courseCode.value !in CodesOf(prev) {
        var e := CourseEntry(o.courseCode, o.courseName);
        assert u == prev + [e];
        UniqueCoursesCodes(init);
        var c := o.courseCode.value;
        assert FirstOfCode(offerings, |offerings| - 1) by {
          forall j | 0 <= j < |offerings| - 1 ensures offerings[j].courseCode != o.courseCode {
            assert offerings[j] == init[j];
            assert offerings[j].courseCode == o.courseCode ==> HasCourseCode(init, c);
          }
        }
        forall i | 0 <= i < |u|
          ensures exists n :: (FirstOfCode(offerings, n)
            && offerings[n].courseCode == u[i].courseCode && offerings[n].courseName == u[i].courseName)
        {
          if i < |prev| {
            assert u[i] == prev[i];
          } else {
            assert u[i] == e;
            var n := |offerings| - 1;
            assert FirstOfCode(offerings, n) && offerings[n].courseCode == u[i].courseCode;
          }
        }
      } else {
        assert u == prev;
      }
    }
  }

  /**
   * Viewing professor `id`'s courses records the id and the raw offerings,
   * and, when there are offerings, their de-duplicated course list on page
   * 0; it reaches the course list exactly when the id parsed and the
   * message went out.
   */
  lemma ViewProfCoursesOutcome(m: Slots, id: int, io: Io, offerings: Option<seq<Offering>>)
    ensures var r := ViewProfCourses(m, Some(id), io, offerings);
      && Get(r.slots, SelectedProfIdKey) == IntSlot(id)
      && Get(r.slots, ResultsKey(ProfCourseList)) == (if offerings.Some? then OfferingsSlot(offerings.value) else NoneSlot)
      && (offerings.Some? && offerings.value != [] ==>
            Get(r.slots, ProfCoursesKey) == CoursesSlot(UniqueCourses(offerings.value))
            && Get(r.slots, PageKey(ProfCourseList)) == IntSlot(0))
      && Untouched(m, r.slots, {SelectedProfIdKey, ResultsKey(ProfCourseList), ProfCoursesKey, PageKey(ProfCourseList)})
      && (r.next == To(SelectingCourseForProf) <==> Succeeds(io, 0))
  {
  }

  // ---------------------------------------------------------------------------
  // Year and semester, and the retry after a missing record
  // ---------------------------------------------------------------------------

  /**
   * Picking a year and semester writes only the listing message, the edit
   * target, the choice and the plot message; it reaches the grades exactly
   * when the payload, the course, the notice, the record and its grades are
   * all there.
   */
  lemma SelectYearSemesterOutcome(m: Slots, data: string, msgId: Option<int>, io: Io,
                                  offeringId: Option<int>, gradesFound: bool, plotSent: Option<int>, retry: RetryCall)
    ensures var r := SelectYearSemester(m, data, msgId, io, offeringId, gradesFound, plotSent, retry);
      && Untouched(m, r.slots, {LastBotMessageKey, OriginalMessageKey, SelectedYearKey, SelectedSemesterKey, FinalPlotMessageKey})
      && (r.next == End || r.next == To(SelectingYearSemester) || r.next == To(ShowingFinalGrades))
      && (r.next == To(ShowingFinalGrades) <==>
            msgId.Some? && DecodeYearSemSelect(data).Some? && TruthyAt(m, SelectedCourseKey)
            && Succeeds(io, 0) && offeringId.Some? && gradesFound)
      && (r.next == To(ShowingFinalGrades) && plotSent.Some? ==>
            Get(r.slots, FinalPlotMessageKey) == MessageSlot(plotSent.value))
  {
  }

  /**
   * As written, a missing offering record or missing grades always end
   * the conversation: the retry keyboard is built with a keyword argument
   * the keyboard builder does not take.
   */
  lemma RetryAsWrittenEnds(m: Slots, data: string, msgId: Option<int>, io: Io, plotSent: Option<int>,
                           offeringId: Option<int>, gradesFound: bool)
    requires offeringId.None? || !gradesFound
    ensures SelectYearSemester(m, data, msgId, io, offeringId, gradesFound, plotSent, RetryAsWritten).next == End
  {
  }

  /**
   * With the keyword corrected, the same case keeps the user at the
   * year/semester list whenever it can still be shown and the edit goes
   * through.
   */
  lemma RetryCorrectedShowsList(m: Slots, y: string, s: string, mode: string, backId: string, msgId: int, io: Io,
                                plotSent: Option<int>, offeringId: Option<int>, gradesFound: bool)
    requires offeringId.None? || !gradesFound
    requires '|' !in y && '|' !in s && '|' !in mode && '|' !in backId
    requires TermListShowable(m) && Succeeds(io, 0) && Succeeds(io, 1)
    ensures SelectYearSemester(m, YearSemSelectPrefix + y + "|" + s + "|" + mode + "|" + backId,
                               Some(msgId), io, offeringId, gradesFound, plotSent, RetryCorrected).next
            == To(SelectingYearSemester)
  {
    YearSemSelectRoundTrip(y, s, mode, backId);
    RetryOnDecoded(m, YearSemSelectPrefix + y + "|" + s + "|" + mode + "|" + backId, [y, s, mode, backId],
                   msgId, io, plotSent, offeringId, gradesFound);
  }

  /** The corrected retry on any payload that decodes, with the list showable before the choice. */
  lemma RetryOnDecoded(m: Slots, data: string, parts: seq<string>, msgId: int, io: Io,
                       plotSent: Option<int>, offeringId: Option<int>, gradesFound: bool)
    requires DecodeYearSemSelect(data) == Some(parts) && |parts| == 4
    requires offeringId.None? || !gradesFound
    requires TermListShowable(m) && Succeeds(io, 0) && Succeeds(io, 1)
    ensures SelectYearSemester(m, data, Some(msgId), io, offeringId, gradesFound, plotSent, RetryCorrected).next
            == To(SelectingYearSemester)
  {
    var m2 := m[LastBotMessageKey := MessageSlot(msgId)][OriginalMessageKey := IntSlot(msgId)]
               [SelectedYearKey := StrSlot(parts[0])][SelectedSemesterKey := StrSlot(parts[1])];
    TermChoiceKeepsList(m, msgId, parts[0], parts[1]);
    ShowableRetryKeyboard(m2, SlotStr(Get(m2, SelectedCourseKey)));
  }

  /** Storing the message ids and the chosen term keeps the year/semester list showable. */
  lemma TermChoiceKeepsList(m: Slots, msgId: int, y: string, s: string)
    requires TermListShowable(m)
    ensures TermListShowable(m[LastBotMessageKey := MessageSlot(msgId)][OriginalMessageKey := IntSlot(msgId)]
                             [SelectedYearKey := StrSlot(y)][SelectedSemesterKey := StrSlot(s)])
  {
    var m2 := m[LastBotMessageKey := MessageSlot(msgId)][OriginalMessageKey := IntSlot(msgId)]
               [SelectedYearKey := StrSlot(y)][SelectedSemesterKey := StrSlot(s)];
    TermListShowableKept(m, m2);
  }

  /** A showable list gives the retry its keyboard. */
  lemma ShowableRetryKeyboard(m: Slots, course: string)
    requires TermListShowable(m)
    ensures RetryKeyboard(m, course).Some?
  {
  }

  /**
   * Showing the grades keeps the year/semester list restorable, so its
   * back button brings the list back whenever the message goes out.
   */
  lemma PlotKeepsTermList(m: Slots, data: string, msgId: Option<int>, io: Io, offeringId: Option<int>,
                          gradesFound: bool, plotSent: Option<int>, retry: RetryCall, io2: Io)
    requires TermListShowable(m)
    ensures var r := SelectYearSemester(m, data, msgId, io, offeringId, gradesFound, plotSent, retry);
      BackToYearSemSelect(r.slots, io2).next == (if Succeeds(io2, 0) then To(SelectingYearSemester) else End)
  {
    var r := SelectYearSemester(m, data, msgId, io, offeringId, gradesFound, plotSent, retry);
    SelectYearSemesterOutcome(m, data, msgId, io, offeringId, gradesFound, plotSent, retry);
    TermListSurvivesSelection(m, r.slots);
    TermListShownAgain(r.slots, io2);
  }

  /** Writing only the selection keys and the message ids keeps the year/semester list showable. */
  lemma TermListSurvivesSelection(m: Slots, r: Slots)
    requires TermListShowable(m)
    requires Untouched(m, r, {LastBotMessageKey, OriginalMessageKey, SelectedYearKey, SelectedSemesterKey, FinalPlotMessageKey})
    ensures TermListShowable(r - {FinalPlotMessageKey})
  {
    var touched := {LastBotMessageKey, OriginalMessageKey, SelectedYearKey, SelectedSemesterKey, FinalPlotMessageKey};
    var m1 := r - {FinalPlotMessageKey};
    SurvivesBoth(m, r, touched, SelectedCourseKey);
    SurvivesBoth(m, r, touched, ResultsKey(YearSemesterList));
    SurvivesBoth(m, r, touched, TermListModeKey);
    SurvivesBoth(m, r, touched, TermListIdentifierKey);
    SurvivesBoth(m, r, touched, PageKey(YearSemesterList));
    TermListShowableKept(m, m1);
  }

  /** A key neither the step nor the plot-keyboard pop touches reads the same after both. */
  lemma SurvivesBoth(m: Slots, r: Slots, touched: set<Key>, k: Key)
    requires Untouched(m, r, touched) && k !in touched && FinalPlotMessageKey in touched
    ensures Get(r - {FinalPlotMessageKey}, k) == Get(m, k)
    ensures GetOr(r - {FinalPlotMessageKey}, k, IntSlot(0)) == GetOr(m, k, IntSlot(0))
  {
    UntouchedGet(m, r, touched, k);
  }

  /** The slots the year/semester list is shown from. */
  function TermListShownKeys(): set<Key>
  {
    {SelectedCourseKey, ResultsKey(YearSemesterList), TermListModeKey, TermListIdentifierKey, PageKey(YearSemesterList)}
  }

  /** Slots that read the same at the list's five keys agree on whether it can be shown again. */
  lemma TermListShowableKept(m: Slots, r: Slots)
    requires TermListShowable(m)
    requires Get(r, SelectedCourseKey) == Get(m, SelectedCourseKey)
    requires Get(r, ResultsKey(YearSemesterList)) == Get(m, ResultsKey(YearSemesterList))
    requires Get(r, TermListModeKey) == Get(m, TermListModeKey)
    requires Get(r, TermListIdentifierKey) == Get(m, TermListIdentifierKey)
    requires GetOr(r, PageKey(YearSemesterList), IntSlot(0)) == GetOr(m, PageKey(YearSemesterList), IntSlot(0))
    ensures TermListShowable(r)
  {
  }

  /** A key a step does not touch reads the same after it. */
  lemma UntouchedGet(m: Slots, r: Slots, touched: set<Key>, k: Key)
    requires Untouched(m, r, touched) && k !in touched
    ensures Get(r, k) == Get(m, k) && GetOr(r, k, IntSlot(0)) == GetOr(m, k, IntSlot(0))
  {
  }

  /** With a showable list once the plot keyboard is dropped, its back button shows it whenever the message goes out. */
  lemma TermListShownAgain(m: Slots, io: Io)
    requires TermListShowable(m - {FinalPlotMessageKey})
    ensures BackToYearSemSelect(m, io).next == (if Succeeds(io, 0) then To(SelectingYearSemester) else End)
  {
  }

  // ---------------------------------------------------------------------------
  // Pagination
  // ---------------------------------------------------------------------------

  /**
   * Turning a page writes only the edit target and that list's page, and
   * either shows the list again or ends.
   */
  lemma PaginateWritesOnlyPage(m: Slots, t: ListType, parts: seq<string>, msgId: int, io: Io)
    ensures var r := Paginate(m, t, parts, msgId, io);
      && Untouched(m, r.slots, {OriginalMessageKey, PageKey(t)})
      && Get(r.slots, OriginalMessageKey) == IntSlot(msgId)
      && (r.next == To(ListStateOf(t)) || r.next == End)
  {
    var page := PageNumber(parts, ExpectedParts(t));
    var p := if page.Some? then page.value else 0;
    PaginateSlotsShape(m, t, parts, msgId, io);
    UpdatesUntouched(m, OriginalMessageKey, IntSlot(msgId), PageKey(t), IntSlot(p));
  }

  /** The slots after a page turn: the message id recorded, and possibly the page. */
  lemma PaginateSlotsShape(m: Slots, t: ListType, parts: seq<string>, msgId: int, io: Io)
    ensures var r := Paginate(m, t, parts, msgId, io);
      var page := PageNumber(parts, ExpectedParts(t));
      var m1 := m[OriginalMessageKey := IntSlot(msgId)];
      && (r.slots == m1 || (page.Some? && r.slots == m1[PageKey(t) := IntSlot(page.value)]))
      && (r.next == To(ListStateOf(t)) || r.next == End)
  {
  }

  /** A list that was turned shows the decoded page. */
  lemma PaginateStoresPage(m: Slots, t: ListType, parts: seq<string>, msgId: int, io: Io)
    ensures var r := Paginate(m, t, parts, msgId, io);
      r.next == To(ListStateOf(t)) ==> Get(r.slots, PageKey(t)) == IntSlot(PageNumber(parts, ExpectedParts(t)).value)
  {
  }

  /** Pagination turns to the decoded page exactly when the list is cached, its keyboard builds and the edit goes through. */
  lemma PaginateTurnsPage(m: Slots, t: ListType, parts: seq<string>, page: int, msgId: int, io: Io)
    requires PageNumber(parts, ExpectedParts(t)) == Some(page)
    ensures var r := Paginate(m, t, parts, msgId, io);
      r.next == To(ListStateOf(t)) <==>
        && Get(m, ResultsKey(t)) != NoneSlot && KeyboardSource(m, t) != NoneSlot
        && PageBuilds(t, KeyboardSource(m, t), parts, page) && Succeeds(io, 0)
  {
    var m1 := m[OriginalMessageKey := IntSlot(msgId)];
    assert Get(m1, ResultsKey(t)) == Get(m, ResultsKey(t));
    assert Get(m1, ProfCoursesKey) == Get(m, ProfCoursesKey);
    assert KeyboardSource(m1, t) == KeyboardSource(m, t);
  }

  /** A decoded page of a cached list whose keyboard builds is turned to and stored. */
  lemma DecodedPageTurns(m: Slots, t: ListType, data: string, parts: seq<string>, page: int, msgId: int, io: Io)
    requires DecodePage(t, data) == Some(parts) && PageNumber(parts, ExpectedParts(t)) == Some(page)
    requires Get(m, ResultsKey(t)) != NoneSlot && KeyboardSource(m, t) != NoneSlot
    requires PageBuilds(t, KeyboardSource(m, t), parts, page) && Succeeds(io, 0)
    ensures var r := PageCallbackHandler(m, t, data, msgId, io);
      r.next == To(ListStateOf(t)) && Get(r.slots, PageKey(t)) == IntSlot(page)
  {
    PaginateTurnsPage(m, t, parts, page, msgId, io);
    PaginateStoresPage(m, t, parts, msgId, io);
  }

  /** A search list's page button, `page_*_{n}`, turns to page `n` whenever the list is cached and the edit goes through. */
  lemma SearchPageButtonTurnsPage(m: Slots, t: ListType, page: int, msgId: int, io: Io)
    requires t == CourseSearch || t == ProfSearch
    requires Get(m, ResultsKey(t)).ItemsSlot? && Succeeds(io, 0)
    ensures var prefix := if t == CourseSearch then PageCourseSearchResultsPrefix else PageProfSearchResultsPrefix;
      var r := PageCallbackHandler(m, t, PageCallback(prefix, [], page), msgId, io);
      r.next == To(ListStateOf(t)) && Get(r.slots, PageKey(t)) == IntSlot(page)
  {
    var prefix := if t == CourseSearch then PageCourseSearchResultsPrefix else PageProfSearchResultsPrefix;
    SearchPageRoundTrip(prefix, page);
    DecodedPageTurns(m, t, PageCallback(prefix, [], page), [IntToString(page)], page, msgId, io);
  }

  /** A professor's course-list page button turns to its page whenever the course list is cached. */
  lemma ProfCoursePageButtonTurnsPage(m: Slots, profId: string, page: int, msgId: int, io: Io)
    requires Get(m, ResultsKey(ProfCourseList)) != NoneSlot && Get(m, ProfCoursesKey).CoursesSlot? && Succeeds(io, 0)
    ensures var r := PageCallbackHandler(m, ProfCourseList, PageCallback(PageProfCourseListPrefix, [profId], page), msgId, io);
      r.next == To(SelectingCourseForProf) && Get(r.slots, PageKey(ProfCourseList)) == IntSlot(page)
  {
    ProfCoursePageRoundTrip(profId, page);
    DecodedPageTurns(m, ProfCourseList, PageCallback(PageProfCourseListPrefix, [profId], page),
                     [profId, IntToString(page)], page, msgId, io);
  }

  /**
   * A year/semester page button turns to its page whenever the terms are
   * cached and parse, provided neither the mode nor the back identifier
   * holds an underscore (the decoder splits on underscores).
   */
  lemma TermPageButtonTurnsPage(m: Slots, mode: string, backId: string, page: int, msgId: int, io: Io)
    requires Get(m, ResultsKey(YearSemesterList)).OfferingsSlot?
    requires OrderedTerms(Get(m, ResultsKey(YearSemesterList)).offerings).Some? && Succeeds(io, 0)
    ensures var data := PageCallback(PageYearSemesterPrefix, [mode, backId], page);
      var r := PageCallbackHandler(m, YearSemesterList, data, msgId, io);
      ('_' !in mode && '_' !in backId ==>
         r.next == To(SelectingYearSemester) && Get(r.slots, PageKey(YearSemesterList)) == IntSlot(page))
      && ('_' in mode || '_' in backId ==> r.next == End && r.slots == m)
  {
    var data := PageCallback(PageYearSemesterPrefix, [mode, backId], page);
    YearSemesterPageRoundTrip(mode, backId, page);
    if '_' !in mode && '_' !in backId {
      var terms := Get(m, ResultsKey(YearSemesterList)).offerings;
      YearSemesterLayout(terms, OrderedTerms(terms).value, backId, mode, page);
      DecodedPageTurns(m, YearSemesterList, data, [mode, backId, IntToString(page)], page, msgId, io);
    }
  }

  // ---------------------------------------------------------------------------
  // Going back
  // ---------------------------------------------------------------------------

  /** `back_to_main` keeps nothing but the new welcome message. */
  lemma BackToMainResets(m: Slots, io: Io)
    ensures var r := BackToMain(m, io);
      r.slots.Keys <= {OriginalMessageKey} && (r.next == To(SelectingAction) <==> Succeeds(io, 0))
  {
  }

  /**
   * Going back to typing forgets the search and everything below it,
   * sets the mode, and keeps the other search and the feedback slots.
   */
  lemma BackToTypingForgets(m: Slots, kind: SearchKind, msgId: int, io: Io)
    ensures var r := if kind == CourseKind then BackToTypingCourse(m, msgId, io) else BackToTypingProf(m, msgId, io);
      var dropped := if kind == CourseKind then TypingCourseKeys() else TypingProfKeys();
      && (forall k :: k in dropped ==> k !in r.slots)
      && Untouched(m, r.slots, dropped + {SearchModeKey, OriginalMessageKey})
      && Get(r.slots, SearchModeKey) == StrSlot(KindName(kind))
      && Get(r.slots, OriginalMessageKey) == IntSlot(msgId)
      && (r.next == To(TypingStateOf(kind)) <==> Succeeds(io, 0))
  {
  }

  /**
   * The course search list's back button shows the cached list again,
   * dropping everything chosen below it; with no list it falls back to
   * typing a course.
   */
  lemma BackToCourseSearchListOutcome(m: Slots, data: string, msgId: int, io: Io)
    ensures var r := Back(ToCourseSearchList, m, data, msgId, io);
      && (MissingAt(m, ResultsKey(CourseSearch)) ==> r == BackToTypingCourse(m[OriginalMessageKey := IntSlot(msgId)], msgId, io))
      && (SearchListShowable(m, CourseSearch) ==>
            && (r.next == To(SelectingCourseResults) <==> Succeeds(io, 0))
            && (forall k :: k in CourseLevelKeys() ==> k !in r.slots)
            && Untouched(m, r.slots, CourseLevelKeys() + {OriginalMessageKey}))
  {
  }

  /**
   * The professor search list's back button deletes the dossier and sends
   * the cached list again, which becomes the edit target; everything
   * chosen below the list is dropped.
   */
  lemma BackToProfSearchListOutcome(m: Slots, data: string, msgId: int, io: Io)
    ensures var r := Back(ToProfSearchList, m, data, msgId, io);
      && (MissingAt(m, ResultsKey(ProfSearch)) ==> r == BackToTypingProf(m[OriginalMessageKey := IntSlot(msgId)], msgId, io))
      && (SearchListShowable(m, ProfSearch) ==>
            && (r.next == To(SelectingProfResults) <==> Succeeds(io, 0) && Succeeds(io, 1))
            && (r.next == To(SelectingProfResults) ==> Get(r.slots, OriginalMessageKey) == IntSlot(io.sentId))
            && (forall k :: k in ProfLevelKeys() ==> k !in r.slots)
            && Untouched(m, r.slots, ProfLevelKeys() + {OriginalMessageKey}))
  {
    assert ResultsKey(ProfSearch) !in ProfLevelKeys() && PageKey(ProfSearch) !in ProfLevelKeys();
  }

  /**
   * After viewing professor `id`'s courses, the course list's back button
   * for that professor shows the list again whenever it is not empty.
   */
  lemma ViewedProfCoursesCanBeRestored(m: Slots, id: int, io: Io, offerings: seq<Offering>, msgId: int, io2: Io)
    requires UniqueCourses(offerings) != [] && Succeeds(io2, 0)
    ensures var r := ViewProfCourses(m, Some(id), io, Some(offerings));
      Back(ToProfCourseList, r.slots, BackToProfCourseListPrefix + IntToString(id), msgId, io2).next == To(SelectingCourseForProf)
  {
    ViewProfCoursesOutcome(m, id, io, Some(offerings));
    var r := ViewProfCourses(m, Some(id), io, Some(offerings));
    assert offerings != [];
    assert Get(r.slots, ProfCoursesKey) == CoursesSlot(UniqueCourses(offerings));
    assert StoredPage(r.slots, ProfCourseList) == Some(0);
    IdPayloadRoundTrip(BackToProfCourseListPrefix, id);
    BackToProfCourseListRestores(r.slots, BackToProfCourseListPrefix + IntToString(id), id, msgId, io2);
  }

  /**
   * The professor's course-list back button, on the professor whose
   * courses are cached with a page, forgets the course level and shows
   * the list again when the edit succeeds.
   */
  lemma BackToProfCourseListRestores(m: Slots, data: string, id: int, msgId: int, io: Io)
    requires IntAfterFirst(data, BackToProfCourseListPrefix) == Some(id)
    requires Get(m, SelectedProfIdKey) == IntSlot(id)
    requires TruthyAt(m, ProfCoursesKey) && Get(m, ProfCoursesKey).CoursesSlot?
    requires StoredPage(m, ProfCourseList).Some?
    ensures var r := Back(ToProfCourseList, m, data, msgId, io);
      && r.slots == m[OriginalMessageKey := IntSlot(msgId)] - CourseLevelKeys()
      && (r.next == To(SelectingCourseForProf) <==> Succeeds(io, 0))
  {
    ProfCourseListActsItself(m, data, id, msgId);
    BackActsItself(ToProfCourseList, m, data, msgId, io);
    ProfCourseListOwnRestores(BackPrelude(ToProfCourseList, m, msgId), msgId, io);
  }

  /** Storing the edit target keeps the chosen professor and the cached courses, so the handler acts itself. */
  lemma ProfCourseListActsItself(m: Slots, data: string, id: int, msgId: int)
    requires IntAfterFirst(data, BackToProfCourseListPrefix) == Some(id)
    requires Get(m, SelectedProfIdKey) == IntSlot(id)
    requires TruthyAt(m, ProfCoursesKey) && Get(m, ProfCoursesKey).CoursesSlot?
    requires StoredPage(m, ProfCourseList).Some?
    ensures var m1 := BackPrelude(ToProfCourseList, m, msgId);
      && m1 == m[OriginalMessageKey := IntSlot(msgId)]
      && Delegate(ToProfCourseList, m1, data) == None
      && Get(m1, ProfCoursesKey).CoursesSlot? && StoredPage(m1, ProfCourseList).Some?
  {
    var m1 := m[OriginalMessageKey := IntSlot(msgId)];
    assert Get(m1, SelectedProfIdKey) == IntSlot(id) && TruthyAt(m1, ProfCoursesKey);
    assert Get(m1, PageKey(ProfCourseList)) == Get(m, PageKey(ProfCourseList));
  }

  /** A back handler that does not delegate does its own work on the slots its prelude leaves. */
  lemma BackActsItself(h: BackHandler, m: Slots, data: string, msgId: int, io: Io)
    requires Delegate(h, BackPrelude(h, m, msgId), data) == None
    ensures Back(h, m, data, msgId, io) == BackOwn(h, BackPrelude(h, m, msgId), msgId, io)
  {
  }

  /** A back handler that delegates hands its delegate the slots its prelude leaves and the same update. */
  lemma BackHandsOver(h: BackHandler, h2: BackHandler, m: Slots, data: string, msgId: int, io: Io)
    requires Delegate(h, BackPrelude(h, m, msgId), data) == Some(h2)
    ensures Back(h, m, data, msgId, io) == Back(h2, BackPrelude(h, m, msgId), data, msgId, io)
  {
  }

  /** The professor's course-list back handler acting itself, on a cached list with a page. */
  lemma ProfCourseListOwnRestores(m: Slots, msgId: int, io: Io)
    requires Get(m, ProfCoursesKey).CoursesSlot? && StoredPage(m, ProfCourseList).Some?
    ensures var r := BackOwn(ToProfCourseList, m, msgId, io);
      && r.slots == m - CourseLevelKeys()
      && (r.next == To(SelectingCourseForProf) <==> Succeeds(io, 0))
  {
    CourseLevelSparesProfList();
    var m1 := m - CourseLevelKeys();
    assert Get(m1, ProfCoursesKey) == Get(m, ProfCoursesKey);
    assert GetOr(m1, PageKey(ProfCourseList), IntSlot(0)) == GetOr(m, PageKey(ProfCourseList), IntSlot(0));
  }

  /**
   * A professor's course-list back button whose id differs from the stored
   * professor starts the professor search over; one whose id does not
   * parse goes to the main menu.
   */
  lemma BackToProfCourseListFallbacks(m: Slots, data: string, msgId: int, io: Io)
    ensures var r := Back(ToProfCourseList, m, data, msgId, io);
      var m1 := m[OriginalMessageKey := IntSlot(msgId)];
      && (IntAfterFirst(data, BackToProfCourseListPrefix).None? ==> r == BackToMain(m1, io))
      && (IntAfterFirst(data, BackToProfCourseListPrefix).Some?
          && Get(m, SelectedProfIdKey) != IntSlot(IntAfterFirst(data, BackToProfCourseListPrefix).value)
          ==> r == BackToTypingProf(m1, msgId, io))
  {
    var m1 := BackPrelude(ToProfCourseList, m, msgId);
    match IntAfterFirst(data, BackToProfCourseListPrefix)
    case None =>
      BackHandsOver(ToProfCourseList, ToMain, m, data, msgId, io);
    case Some(id) =>
      if Get(m1, SelectedProfIdKey) != IntSlot(id) {
        BackHandsOver(ToProfCourseList, ToTypingProf, m, data, msgId, io);
      }
  }

  /** The plot's course-results button shows the cached course results again. */
  lemma PlotBackToCourseResults(m: Slots, io: Io)
    requires TruthyAt(m, ResultsKey(CourseSearch)) && SearchListShowable(m, CourseSearch)
    ensures var r := BackToCourseListFromPlot(m, BackToCourseListFromPlotPrefix + "course", io);
      && (r.next == To(SelectingCourseResults) <==> Succeeds(io, 0))
      && r.slots == m - {FinalPlotMessageKey}
  {
    PlotBackRoundTrip(0);
  }

  /** The plot's professor button shows the professor's cached course list again. */
  lemma PlotBackToProfCourses(m: Slots, profId: int, io: Io)
    requires TruthyAt(m, ProfCoursesKey) && Get(m, ProfCoursesKey).CoursesSlot? && StoredPage(m, ProfCourseList).Some?
    ensures var r := BackToCourseListFromPlot(m, BackToCourseListFromPlotPrefix + "prof_" + IntToString(profId), io);
      && (r.next == To(SelectingCourseForProf) <==> Succeeds(io, 0))
      && r.slots == m - {FinalPlotMessageKey}
  {
    PlotBackRoundTrip(profId);
  }

  // ---------------------------------------------------------------------------
  // Feedback
  // ---------------------------------------------------------------------------

  /** An empty feedback message is asked for again and changes nothing. */
  lemma EmptyFeedbackAskedAgain(m: Slots, text: string)
    requires Strip(text) == ""
    ensures FeedbackMessage(m, text) == Outcome(m, To(TypingFeedbackMessage))
  {
  }

  /**
   * A whole feedback round, from the command through a type and a message
   * to the confirmation, leaves the slots as they were without the two
   * feedback slots, and on the way holds the stripped message.
   */
  lemma FeedbackRoundLeavesNoTrace(m: Slots, data: string, text: string)
    requires data != "" && Strip(text) != ""
    ensures var s1 := FeedbackStart(m, true);
      var s2 := FeedbackType(s1.slots, data);
      var s3 := FeedbackMessage(s2.slots, text);
      var s4 := FeedbackConfirm(s3.slots, true);
      && s1.next == To(AskFeedbackType) && s2.next == To(TypingFeedbackMessage)
      && s3.next == To(ConfirmFeedbackSubmission) && s4.next == End
      && Get(s3.slots, FeedbackTypeKey) == StrSlot(data)
      && Get(s3.slots, FeedbackMessageKey) == StrSlot(Strip(text))
      && s4.slots == m - FeedbackKeys()
  {
    var s3 := FeedbackMessage(FeedbackType(FeedbackStart(m, true).slots, data).slots, text);
    assert s3.slots - FeedbackKeys() == m - FeedbackKeys();
  }
}

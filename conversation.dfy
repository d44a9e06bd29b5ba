/**
 * The two conversation tables of `bot/main.py` and how an update is routed
 * through them: entry points, the per-state handler whitelists and the
 * fallbacks of each flow, the inactivity timeouts, re-entry, and the order
 * in which the gate, the two conversations and the plain commands see an
 * update. Also which menus of `bot/keyboards.py` each state can answer.
 */
module Conversation {
  import opened Wrappers
  import opened PyStr
  import opened Constants
  import opened Keyboards
  import Gating

  // ---------------------------------------------------------------------------
  // Events, patterns and handlers
  // ---------------------------------------------------------------------------

  /**
   * An update as the handlers see it: a command message, a text message
   * that is not a command, or a button press carrying callback data.
   */
  datatype Event = Command(name: string) | Text(text: string) | Callback(data: string)

  /** The callback words of both tables, one per constant of `bot/constants.py` plus `close_interaction`. */
  datatype Word =
    | CourseSearchModeWord | ProfSearchModeWord
    | CancelWord | CourseSelectWord | CloseInteractionWord
    | BackToMainWord | BackToTypingCourseWord | BackToTypingProfWord | BackToProfCourseListWord
    | BackToCourseSearchListWord | BackToProfSearchListWord | BackToYearSemSelectWord
    | BackToCourseListFromPlotWord
    | ViewProfCoursesWord
    | ProfSelectWord | PageCourseSearchResultsWord | PageProfSearchResultsWord
    | PageProfCourseListWord | PageYearSemesterWord
    | YearSemSelectWord
    | FeedbackTypeBugWord | FeedbackTypeSuggestionWord | FeedbackTypeGeneralWord
    | ConfirmSendFeedbackWord | CancelFeedbackWord

  const CloseInteraction := "close_interaction"

  function WordText(w: Word): string
  {
    match w
    case CourseSearchModeWord => CourseSearchMode
    case ProfSearchModeWord => ProfSearchMode
    case CancelWord => Cancel
    case CourseSelectWord => CourseSelectPrefix
    case CloseInteractionWord => CloseInteraction
    case BackToMainWord => BackToMain
    case BackToTypingCourseWord => BackToTypingCourse
    case BackToTypingProfWord => BackToTypingProf
    case BackToProfCourseListWord => BackToProfCourseListPrefix
    case BackToCourseSearchListWord => BackToCourseSearchList
    case BackToProfSearchListWord => BackToProfSearchList
    case BackToYearSemSelectWord => BackToYearSemSelectPrefix
    case BackToCourseListFromPlotWord => BackToCourseListFromPlotPrefix
    case ViewProfCoursesWord => ViewProfCoursesPrefix
    case ProfSelectWord => ProfSelectPrefix
    case PageCourseSearchResultsWord => PageCourseSearchResultsPrefix
    case PageProfSearchResultsWord => PageProfSearchResultsPrefix
    case PageProfCourseListWord => PageProfCourseListPrefix
    case PageYearSemesterWord => PageYearSemesterPrefix
    case YearSemSelectWord => YearSemSelectPrefix
    case FeedbackTypeBugWord => FeedbackTypeBug
    case FeedbackTypeSuggestionWord => FeedbackTypeSuggestion
    case FeedbackTypeGeneralWord => FeedbackTypeGeneral
    case ConfirmSendFeedbackWord => ConfirmSendFeedback
    case CancelFeedbackWord => CancelFeedback
  }

  /**
   * The word a string starts with, read off a few characters: the first,
   * then the ones where words of the same family part.
   */
  function Classify(s: string): Option<Word>
  {
    if s == [] then None
    else if s[0] == 'm' then
      if |s| > 5 && s[5] == 'c' then Some(CourseSearchModeWord) else Some(ProfSearchModeWord)
    else if s[0] == 'c' then
      if |s| < 2 then None
      else if s[1] == 'a' then Some(CancelWord)
      else if s[1] == 's' then Some(CourseSelectWord)
      else Some(CloseInteractionWord)
    else if s[0] == 'b' then
      if |s| < 11 then
        if |s| > 6 && s[5] == 'm' then Some(BackToMainWord)
        else if |s| > 6 && s[5] == 'y' then Some(BackToYearSemSelectWord)
        else Some(BackToCourseListFromPlotWord)
      else if s[5] == 'm' then Some(BackToMainWord)
      else if s[5] == 't' then (if s[10] == 'c' then Some(BackToTypingCourseWord) else Some(BackToTypingProfWord))
      else if s[5] == 'p' then (if s[10] == 'c' then Some(BackToProfCourseListWord) else Some(BackToProfSearchListWord))
      else if s[5] == 'y' then Some(BackToYearSemSelectWord)
      else if s[6] == 'r' then Some(BackToCourseSearchListWord)
      else Some(BackToCourseListFromPlotWord)
    else if s[0] == 'v' then Some(ViewProfCoursesWord)
    else if s[0] == 'p' then
      if |s| < 4 then Some(ProfSelectWord)
      else if s[1] == 's' then Some(ProfSelectWord)
      else if s[2] == 'c' then Some(PageCourseSearchResultsWord)
      else if s[2] == 'y' then Some(PageYearSemesterWord)
      else if s[3] == 's' then Some(PageProfSearchResultsWord)
      else Some(PageProfCourseListWord)
    else if s[0] == 'y' then Some(YearSemSelectWord)
    else if s[0] == 'f' then
      if |s| < 5 then None
      else if s[3] == 'b' then Some(FeedbackTypeBugWord)
      else if s[3] == 's' then Some(FeedbackTypeSuggestionWord)
      else if s[3] == 'g' then Some(FeedbackTypeGeneralWord)
      else if s[4] == 'o' then Some(ConfirmSendFeedbackWord)
      else Some(CancelFeedbackWord)
    else None
  }

  /** Any string a word starts is classified as that word. */
  lemma ClassifyFindsPrefix(w: Word, s: string)
    requires WordText(w) <= s
    ensures Classify(s) == Some(w)
  {
    if IsBackWord(w) {
      ClassifyFindsBack(w, s);
    } else if IsPageWord(w) {
      ClassifyFindsPage(w, s);
    } else if IsFeedbackWord(w) {
      ClassifyFindsFeedback(w, s);
    } else {
      var t := WordText(w);
      assert forall k :: 0 <= k < |t| ==> s[k] == t[k];
    }
  }

  /** The `back_` words, the `p_` words with `ps_`, and the `fb_` words: the families `Classify` reads further into. */
  predicate IsBackWord(w: Word)
  {
    w.BackToMainWord? || w.BackToTypingCourseWord? || w.BackToTypingProfWord? || w.BackToProfCourseListWord?
    || w.BackToCourseSearchListWord? || w.BackToProfSearchListWord? || w.BackToYearSemSelectWord?
    || w.BackToCourseListFromPlotWord?
  }

  predicate IsPageWord(w: Word)
  {
    w.ProfSelectWord? || w.PageCourseSearchResultsWord? || w.PageProfSearchResultsWord?
    || w.PageProfCourseListWord? || w.PageYearSemesterWord?
  }

  predicate IsFeedbackWord(w: Word)
  {
    w.FeedbackTypeBugWord? || w.FeedbackTypeSuggestionWord? || w.FeedbackTypeGeneralWord?
    || w.ConfirmSendFeedbackWord? || w.CancelFeedbackWord?
  }

  lemma ClassifyFindsBack(w: Word, s: string)
    requires IsBackWord(w) && WordText(w) <= s
    ensures Classify(s) == Some(w)
  {
    var t := WordText(w);
    assert forall k :: 0 <= k < |t| ==> s[k] == t[k];
  }

  lemma ClassifyFindsPage(w: Word, s: string)
    requires IsPageWord(w) && WordText(w) <= s
    ensures Classify(s) == Some(w)
  {
    var t := WordText(w);
    assert forall k :: 0 <= k < |t| ==> s[k] == t[k];
  }

  lemma ClassifyFindsFeedback(w: Word, s: string)
    requires IsFeedbackWord(w) && WordText(w) <= s
    ensures Classify(s) == Some(w)
  {
    var t := WordText(w);
    assert forall k :: 0 <= k < |t| ==> s[k] == t[k];
  }

  /**
   * No callback word starts another: a `^prefix` pattern for one constant
   * never captures another constant.
   */
  lemma WordsPrefixFree(a: Word, b: Word)
    requires a != b
    ensures !(WordText(a) <= WordText(b))
  {
    if WordText(a) <= WordText(b) {
      ClassifyFindsPrefix(a, WordText(b));
      ClassifyFindsPrefix(b, WordText(b));
    }
  }

  /**
   * A callback pattern: `^word$`, `^(w1|w2|...)$` or `^prefix`. No word
   * holds a regular-expression metacharacter. Python's `$` also matches
   * just before a final newline.
   */
  datatype Pattern = Exactly(word: Word) | OneOf(words: seq<Word>) | StartsWith(prefix: Word)

  function Words(p: Pattern): seq<Word>
  {
    match p
    case Exactly(w) => [w]
    case OneOf(ws) => ws
    case StartsWith(w) => [w]
  }

  /** `re.match(pattern, data)` for the three pattern shapes. */
  predicate PatternMatches(p: Pattern, data: string)
  {
    match p
    case Exactly(w) => data == WordText(w) || data == WordText(w) + "\n"
    case OneOf(ws) => exists k :: 0 <= k < |ws| && (data == WordText(ws[k]) || data == WordText(ws[k]) + "\n")
    case StartsWith(w) => WordText(w) <= data
  }

  /** `CommandHandler(name)`, `MessageHandler(TEXT & ~COMMAND)` and `CallbackQueryHandler(pattern=...)`. */
  datatype Trigger = OnCommand(name: string) | OnText | OnCallback(pattern: Pattern)

  predicate Fires(t: Trigger, e: Event)
  {
    match t
    case OnCommand(n) => e == Command(n)
    case OnText => e.Text?
    case OnCallback(p) => e.Callback? && PatternMatches(p, e.data)
  }

  /** The handler functions of `bot/handlers.py` a table can name. */
  datatype Action =
    | StartCommand | SelectSearchModeCallback | HandleCourseSearchInput | HandleProfSearchInput
    | SelectItemCallback | BackToTypingCourseCallback | PageCourseSearchResultsCallback
    | BackToTypingProfCallback | PageProfSearchResultsCallback | PageProfCourseListCallback
    | ViewProfCoursesCallback | SelectYearSemesterCallback | PageYearSemesterListCallback
    | BackToCourseSearchListCallback | BackToProfCoursesCallback | BackToYearSemSelectCallback
    | BackToCourseListFromPlotCallback | BackToMainCallback | CancelConversation | HelpCommand
    | BackToProfSearchListCallback | SimpleCloseCallback
    | FeedbackStartCommand | FeedbackTypeCallback | FeedbackMessageHandler
    | FeedbackConfirmSendCallback | FeedbackCancelOrEditCallback
    | SubscribeCommand | UnsubscribeCommand | MaintenanceCommand | BroadcastAdminCommand
    | BlockUserCommand | UnblockUserCommand | UserStatusCommand | AdminHelpCommand

  datatype Handler = Handler(trigger: Trigger, action: Action)

  /** A `ConversationHandler`: entry points, `states`, fallbacks, `conversation_timeout`, `allow_reentry`. */
  datatype FlowTable = FlowTable(entry: seq<Handler>, states: map<State, seq<Handler>>,
                                 fallbacks: seq<Handler>, timeout: nat, allowReentry: bool)

  function Cb(p: Pattern, a: Action): Handler { Handler(OnCallback(p), a) }

  // ---------------------------------------------------------------------------
  // The tables
  // ---------------------------------------------------------------------------

  function BrowseStates(): map<State, seq<Handler>>
  {
    map[
      SelectingAction := [Cb(OneOf([CourseSearchModeWord, ProfSearchModeWord]), SelectSearchModeCallback)],
      TypingCourse := [Handler(OnText, HandleCourseSearchInput)],
      TypingProf := [Handler(OnText, HandleProfSearchInput)],
      SelectingCourseResults := [
        Cb(StartsWith(CourseSelectWord), SelectItemCallback),
        Cb(Exactly(BackToTypingCourseWord), BackToTypingCourseCallback),
        Cb(StartsWith(PageCourseSearchResultsWord), PageCourseSearchResultsCallback)],
      SelectingProfResults := [
        Cb(StartsWith(ProfSelectWord), SelectItemCallback),
        Cb(Exactly(BackToTypingProfWord), BackToTypingProfCallback),
        Cb(StartsWith(PageProfSearchResultsWord), PageProfSearchResultsCallback)],
      SelectingCourseForProf := [
        Cb(StartsWith(CourseSelectWord), SelectItemCallback),
        Cb(StartsWith(PageProfCourseListWord), PageProfCourseListCallback),
        Cb(StartsWith(ViewProfCoursesWord), ViewProfCoursesCallback)],
      SelectingYearSemester := [
        Cb(StartsWith(YearSemSelectWord), SelectYearSemesterCallback),
        Cb(StartsWith(PageYearSemesterWord), PageYearSemesterListCallback),
        Cb(Exactly(BackToCourseSearchListWord), BackToCourseSearchListCallback),
        Cb(StartsWith(BackToProfCourseListWord), BackToProfCoursesCallback)],
      ShowingFinalGrades := [
        Cb(StartsWith(BackToYearSemSelectWord), BackToYearSemSelectCallback),
        Cb(StartsWith(BackToCourseListFromPlotWord), BackToCourseListFromPlotCallback),
        Cb(Exactly(BackToMainWord), BackToMainCallback),
        Cb(Exactly(CancelWord), CancelConversation)]
    ]
  }

  function BrowseFallbacks(): seq<Handler>
  {
    [Handler(OnCommand("start"), StartCommand),
     Handler(OnCommand("cancel"), CancelConversation),
     Handler(OnCommand("help"), HelpCommand),
     Cb(Exactly(BackToMainWord), BackToMainCallback),
     Cb(Exactly(BackToProfSearchListWord), BackToProfSearchListCallback),
     Cb(Exactly(CancelWord), CancelConversation),
     Cb(Exactly(CloseInteractionWord), SimpleCloseCallback)]
  }

  /** The search conversation. */
  function BrowseTable(): FlowTable
  {
    FlowTable([Handler(OnCommand("start"), StartCommand)], BrowseStates(), BrowseFallbacks(), 600, true)
  }

  function FeedbackStates(): map<State, seq<Handler>>
  {
    map[
      AskFeedbackType := [
        Cb(OneOf([FeedbackTypeBugWord, FeedbackTypeSuggestionWord, FeedbackTypeGeneralWord]), FeedbackTypeCallback)],
      TypingFeedbackMessage := [Handler(OnText, FeedbackMessageHandler)],
      ConfirmFeedbackSubmission := [
        Cb(Exactly(ConfirmSendFeedbackWord), FeedbackConfirmSendCallback),
        Cb(Exactly(CancelFeedbackWord), FeedbackCancelOrEditCallback)]
    ]
  }

  function FeedbackFallbacks(): seq<Handler>
  {
    [Cb(Exactly(CancelFeedbackWord), FeedbackCancelOrEditCallback),
     Cb(Exactly(CancelWord), CancelConversation),
     Handler(OnCommand("cancel"), CancelConversation),
     Handler(OnCommand("start"), StartCommand)]
  }

  /** The feedback conversation. */
  function FeedbackTable(): FlowTable
  {
    FlowTable([Handler(OnCommand("feedback"), FeedbackStartCommand)], FeedbackStates(), FeedbackFallbacks(), 300, true)
  }

  /** The plain command handlers registered after both conversations. */
  function GeneralCommands(): seq<Handler>
  {
    [Handler(OnCommand("help"), HelpCommand),
     Handler(OnCommand("subscribe"), SubscribeCommand),
     Handler(OnCommand("unsubscribe"), UnsubscribeCommand),
     Handler(OnCommand("maintenance"), MaintenanceCommand),
     Handler(OnCommand("broadcast_admin"), BroadcastAdminCommand),
     Handler(OnCommand("block"), BlockUserCommand),
     Handler(OnCommand("unblock"), UnblockUserCommand),
     Handler(OnCommand("userstatus"), UserStatusCommand),
     Handler(OnCommand("admin_commands"), AdminHelpCommand)]
  }

  datatype Flow = BrowseFlow | FeedbackFlow

  function TableOf(flow: Flow): FlowTable
  {
    if flow == BrowseFlow then BrowseTable() else FeedbackTable()
  }

  // ---------------------------------------------------------------------------
  // Routing inside one conversation
  // ---------------------------------------------------------------------------

  /** The action of the first handler of `hs` that fires on `e`. */
  function FirstMatch(hs: seq<Handler>, e: Event): (r: Option<Action>)
  {
    if hs == [] then None
    else if Fires(hs[0].trigger, e) then Some(hs[0].action)
    else FirstMatch(hs[1..], e)
  }

  /** `self.states.get(state, [])`. */
  function StateHandlers(t: FlowTable, s: State): seq<Handler>
  {
    if s in t.states then t.states[s] else []
  }

  /**
   * `ConversationHandler.check_update`: entry points first when there is no
   * conversation or re-entry is allowed; with no conversation nothing else
   * is tried; otherwise the current state's handlers, then the fallbacks.
   */
  function Route(t: FlowTable, state: Option<State>, e: Event): Option<Action>
  {
    var fromEntry := if state.None? || t.allowReentry then FirstMatch(t.entry, e) else None;
    if fromEntry.Some? then fromEntry
    else if state.None? then None
    else
      var fromState := FirstMatch(StateHandlers(t, state.value), e);
      if fromState.Some? then fromState else FirstMatch(t.fallbacks, e)
  }

  /** Whether a conversation of `flow` in state `s` handles `e`. */
  predicate Accepts(flow: Flow, s: State, e: Event)
  {
    Route(TableOf(flow), Some(s), e).Some?
  }

  /** The conversation's state after its handler returned `next`: `END` ends it, `None` keeps the state. */
  function Advance(state: Option<State>, next: Next): Option<State>
  {
    match next
    case End => None
    case Stay => state
    case To(s) => Some(s)
  }

  /** `conversation_timeout`: after that many idle seconds the conversation is over. */
  function Expire(t: FlowTable, state: Option<State>, idle: nat): Option<State>
  {
    if state.Some? && idle >= t.timeout then None else state
  }

  lemma {:induction false} FirstMatchAt(hs: seq<Handler>, e: Event, i: nat)
    requires i < |hs| && Fires(hs[i].trigger, e)
    requires forall j :: 0 <= j < i ==> !Fires(hs[j].trigger, e)
    ensures FirstMatch(hs, e) == Some(hs[i].action)
    decreases i
  {
    if i > 0 {
      assert !Fires(hs[0].trigger, e);
      forall j | 0 <= j < i - 1
        ensures !Fires(hs[1..][j].trigger, e)
      {
        assert hs[1..][j] == hs[j + 1];
      }
      FirstMatchAt(hs[1..], e, i - 1);
    }
  }

  /** The first match is the action of a handler that fires, and nothing fires when there is none. */
  lemma {:induction false} FirstMatchIndex(hs: seq<Handler>, e: Event) returns (i: nat)
    ensures FirstMatch(hs, e).Some? ==>
              i < |hs| && Fires(hs[i].trigger, e) && hs[i].action == FirstMatch(hs, e).value
    ensures FirstMatch(hs, e).None? ==> forall j :: 0 <= j < |hs| ==> !Fires(hs[j].trigger, e)
    decreases |hs|
  {
    if hs == [] {
      i := 0;
    } else if Fires(hs[0].trigger, e) {
      i := 0;
    } else {
      var k := FirstMatchIndex(hs[1..], e);
      i := k + 1;
      if FirstMatch(hs, e).None? {
        forall j | 0 <= j < |hs|
          ensures !Fires(hs[j].trigger, e)
        {
          if j > 0 {
            assert hs[j] == hs[1..][j - 1];
          }
        }
      }
    }
  }

  /** Any handler that fires makes the first match succeed. */
  lemma FirstMatchFound(hs: seq<Handler>, e: Event, i: nat)
    requires i < |hs| && Fires(hs[i].trigger, e)
    ensures FirstMatch(hs, e).Some?
  {
    var k := FirstMatchIndex(hs, e);
  }

  /** A one-handler list answers exactly what its handler fires on. */
  lemma FirstMatchSingle(h: Handler, e: Event)
    ensures FirstMatch([h], e) == if Fires(h.trigger, e) then Some(h.action) else None
  {
    assert [h][1..] == [];
  }

  /** A state accepts whatever one of its own handlers fires on. */
  lemma AcceptedByState(flow: Flow, s: State, e: Event, i: nat)
    requires s in TableOf(flow).states && i < |TableOf(flow).states[s]|
    requires Fires(TableOf(flow).states[s][i].trigger, e)
    ensures Accepts(flow, s, e)
  {
    FirstMatchFound(TableOf(flow).states[s], e, i);
  }

  /** A state accepts whatever a fallback fires on. */
  lemma AcceptedByFallback(flow: Flow, s: State, e: Event, j: nat)
    requires j < |TableOf(flow).fallbacks| && Fires(TableOf(flow).fallbacks[j].trigger, e)
    ensures Accepts(flow, s, e)
  {
    FirstMatchFound(TableOf(flow).fallbacks, e, j);
  }

  /** The entry point of either flow answers its own command and nothing else. */
  lemma EntryMatch(flow: Flow, e: Event)
    ensures FirstMatch(TableOf(flow).entry, e) ==
              if flow == BrowseFlow then (if e == Command("start") then Some(StartCommand) else None)
              else (if e == Command("feedback") then Some(FeedbackStartCommand) else None)
  {
    FirstMatchSingle(TableOf(flow).entry[0], e);
    assert TableOf(flow).entry == [TableOf(flow).entry[0]];
  }

  /** The command names a handler list answers to. */
  predicate CommandsAmong(hs: seq<Handler>, names: set<string>)
  {
    forall i :: 0 <= i < |hs| && hs[i].trigger.OnCommand? ==> hs[i].trigger.name in names
  }

  /** A command named in no handler of the list is not answered by it. */
  lemma UnknownCommandUnanswered(hs: seq<Handler>, names: set<string>, name: string)
    requires CommandsAmong(hs, names) && name !in names
    ensures FirstMatch(hs, Command(name)) == None
  {
    var i := FirstMatchIndex(hs, Command(name));
  }

  // ---------------------------------------------------------------------------
  // Exclusive patterns
  // ---------------------------------------------------------------------------

  /** Two triggers that no event can fire together, for syntactic reasons. */
  predicate Apart(a: Trigger, b: Trigger)
  {
    match (a, b)
    case (OnCommand(x), OnCommand(y)) => x != y
    case (OnText, OnText) => false
    case (OnCallback(p), OnCallback(q)) => forall w :: w in Words(p) ==> w !in Words(q)
    case _ => true
  }

  /** A matched pattern has one of its words as a prefix of the data. */
  lemma MatchedWord(p: Pattern, data: string) returns (w: Word)
    requires PatternMatches(p, data)
    ensures w in Words(p) && WordText(w) <= data
  {
    match p
    case Exactly(x) => w := x;
    case StartsWith(x) => w := x;
    case OneOf(ws) =>
      var k :| 0 <= k < |ws| && (data == WordText(ws[k]) || data == WordText(ws[k]) + "\n");
      w := ws[k];
  }

  lemma ApartNeverBothFire(a: Trigger, b: Trigger, e: Event)
    requires Apart(a, b)
    ensures !(Fires(a, e) && Fires(b, e))
  {
    if a.OnCallback? && b.OnCallback? && Fires(a, e) && Fires(b, e) {
      var x := MatchedWord(a.pattern, e.data);
      var y := MatchedWord(b.pattern, e.data);
      ClassifyFindsPrefix(x, e.data);
      ClassifyFindsPrefix(y, e.data);
      assert false;
    }
  }

  /** No two handlers of the list are ever fired by the same event. */
  predicate Exclusive(hs: seq<Handler>)
  {
    forall i, j :: 0 <= i < j < |hs| ==> Apart(hs[i].trigger, hs[j].trigger)
  }

  /** In an exclusive list the first match is the one handler that fires. */
  lemma ExclusiveFirst(hs: seq<Handler>, e: Event, i: nat)
    requires Exclusive(hs) && i < |hs| && Fires(hs[i].trigger, e)
    ensures FirstMatch(hs, e) == Some(hs[i].action)
  {
    forall j | 0 <= j < i
      ensures !Fires(hs[j].trigger, e)
    {
      ApartNeverBothFire(hs[j].trigger, hs[i].trigger, e);
    }
    FirstMatchAt(hs, e, i);
  }

  lemma BrowseStatesExclusive()
    ensures forall s :: s in BrowseStates() ==> Exclusive(BrowseStates()[s])
  {
  }

  lemma FeedbackStatesExclusive()
    ensures forall s :: s in FeedbackStates() ==> Exclusive(FeedbackStates()[s])
  {
  }

  /**
   * Within one state of either table no two handlers can match the same
   * event, so the order of a state's whitelist never decides anything.
   */
  lemma StatePatternsExclusive(flow: Flow, s: State, i: nat, j: nat, e: Event)
    requires s in TableOf(flow).states
    requires i < j < |TableOf(flow).states[s]|
    ensures !(Fires(TableOf(flow).states[s][i].trigger, e) && Fires(TableOf(flow).states[s][j].trigger, e))
  {
    BrowseStatesExclusive();
    FeedbackStatesExclusive();
    ApartNeverBothFire(TableOf(flow).states[s][i].trigger, TableOf(flow).states[s][j].trigger, e);
  }

  /** The two tables name exactly the browse and the feedback states. */
  lemma TablesPartitionStates(s: State)
    ensures s in BrowseStates() <==> IsBrowseState(s)
    ensures s in FeedbackStates() <==> !IsBrowseState(s)
  {
  }

  // ---------------------------------------------------------------------------
  // Whitelists of single states
  // ---------------------------------------------------------------------------

  /** `^(mode_course|mode_prof)$`. */
  predicate ModePayload(data: string)
  {
    data in [CourseSearchMode, ProfSearchMode, CourseSearchMode + "\n", ProfSearchMode + "\n"]
  }

  /** The start menu's state takes exactly the two mode buttons. */
  lemma SelectingActionTakesOnlyModes(e: Event)
    ensures FirstMatch(StateHandlers(BrowseTable(), SelectingAction), e) ==
              (if e.Callback? && ModePayload(e.data) then Some(SelectSearchModeCallback) else None)
  {
    var h := Cb(OneOf([CourseSearchModeWord, ProfSearchModeWord]), SelectSearchModeCallback);
    assert StateHandlers(BrowseTable(), SelectingAction) == [h];
    FirstMatchSingle(h, e);
    if e.Callback? && Fires(h.trigger, e) {
      var k :| 0 <= k < 2 && (e.data == WordText([CourseSearchModeWord, ProfSearchModeWord][k])
                              || e.data == WordText([CourseSearchModeWord, ProfSearchModeWord][k]) + "\n");
    }
    if e.Callback? && ModePayload(e.data) {
      if e.data == CourseSearchMode || e.data == CourseSearchMode + "\n" {
        assert [CourseSearchModeWord, ProfSearchModeWord][0] == CourseSearchModeWord;
      } else {
        assert [CourseSearchModeWord, ProfSearchModeWord][1] == ProfSearchModeWord;
      }
    }
  }

  /** The typing states take any non-command text and nothing else. */
  lemma TypingStatesTakeOnlyText(e: Event)
    ensures FirstMatch(StateHandlers(BrowseTable(), TypingCourse), e) ==
              (if e.Text? then Some(HandleCourseSearchInput) else None)
    ensures FirstMatch(StateHandlers(BrowseTable(), TypingProf), e) ==
              (if e.Text? then Some(HandleProfSearchInput) else None)
    ensures FirstMatch(StateHandlers(FeedbackTable(), TypingFeedbackMessage), e) ==
              (if e.Text? then Some(FeedbackMessageHandler) else None)
  {
    FirstMatchSingle(Handler(OnText, HandleCourseSearchInput), e);
    FirstMatchSingle(Handler(OnText, HandleProfSearchInput), e);
    FirstMatchSingle(Handler(OnText, FeedbackMessageHandler), e);
    assert StateHandlers(BrowseTable(), TypingCourse) == [Handler(OnText, HandleCourseSearchInput)];
    assert StateHandlers(BrowseTable(), TypingProf) == [Handler(OnText, HandleProfSearchInput)];
    assert StateHandlers(FeedbackTable(), TypingFeedbackMessage) == [Handler(OnText, FeedbackMessageHandler)];
  }

  /** Whether some callback handler of the list names word `w`. */
  predicate Hears(hs: seq<Handler>, w: Word)
  {
    exists i :: 0 <= i < |hs| && hs[i].trigger.OnCallback? && w in Words(hs[i].trigger.pattern)
  }

  /** A button whose data starts with a word no handler names is answered by none of them. */
  lemma UnheardWordUnanswered(hs: seq<Handler>, w: Word, data: string)
    requires !Hears(hs, w) && WordText(w) <= data
    ensures FirstMatch(hs, Callback(data)) == None
  {
    var i := FirstMatchIndex(hs, Callback(data));
    if FirstMatch(hs, Callback(data)).Some? {
      var x := MatchedWord(hs[i].trigger.pattern, data);
      ClassifyFindsPrefix(x, data);
      ClassifyFindsPrefix(w, data);
      assert false;
    }
  }

  // ---------------------------------------------------------------------------
  // Fallbacks
  // ---------------------------------------------------------------------------

  /** Every handler of `hs` either never meets a fallback of `fs` or does the same thing. */
  predicate AllCompatible(hs: seq<Handler>, fs: seq<Handler>)
  {
    forall i, j :: 0 <= i < |hs| && 0 <= j < |fs| ==>
      Apart(hs[i].trigger, fs[j].trigger) || hs[i].action == fs[j].action
  }

  lemma CompatibleMeans(hs: seq<Handler>, fs: seq<Handler>, i: nat, j: nat, e: Event)
    requires AllCompatible(hs, fs) && i < |hs| && j < |fs|
    requires Fires(hs[i].trigger, e) && Fires(fs[j].trigger, e)
    ensures hs[i].action == fs[j].action
  {
    if Apart(hs[i].trigger, fs[j].trigger) {
      ApartNeverBothFire(hs[i].trigger, fs[j].trigger, e);
    }
  }

  /** A table whose fallbacks are exclusive and agree with its entry points and a state's handlers. */
  predicate FallbacksDecide(t: FlowTable, s: State)
  {
    && Exclusive(t.fallbacks)
    && AllCompatible(t.entry, t.fallbacks)
    && AllCompatible(StateHandlers(t, s), t.fallbacks)
  }

  lemma FallbackRoutes(t: FlowTable, s: State, e: Event, j: nat)
    requires FallbacksDecide(t, s) && j < |t.fallbacks| && Fires(t.fallbacks[j].trigger, e)
    ensures Route(t, Some(s), e) == Some(t.fallbacks[j].action)
  {
    ExclusiveFirst(t.fallbacks, e, j);
    var k := FirstMatchIndex(t.entry, e);
    if FirstMatch(t.entry, e).Some? {
      CompatibleMeans(t.entry, t.fallbacks, k, j, e);
    }
    var hs := StateHandlers(t, s);
    var i := FirstMatchIndex(hs, e);
    if FirstMatch(hs, e).Some? {
      CompatibleMeans(hs, t.fallbacks, i, j, e);
    }
  }

  /** Every word some callback handler of the list names. */
  predicate WordsAmong(fs: seq<Handler>, ws: set<Word>)
  {
    forall j :: 0 <= j < |fs| && fs[j].trigger.OnCallback? ==> forall w :: w in Words(fs[j].trigger.pattern) ==> w in ws
  }

  /** A text handler, or a callback handler whose words are all outside `ws`. */
  predicate Avoids(h: Handler, ws: set<Word>)
  {
    h.trigger.OnText? || (h.trigger.OnCallback? && forall w :: w in Words(h.trigger.pattern) ==> w !in ws)
  }

  lemma ApartSymmetric(a: Trigger, b: Trigger)
    requires Apart(a, b)
    ensures Apart(b, a)
  {
  }

  /**
   * Handlers that either are fallbacks or avoid every fallback word are
   * compatible with exclusive fallbacks that take no text.
   */
  lemma CompatibleByWords(hs: seq<Handler>, fs: seq<Handler>, ws: set<Word>)
    requires Exclusive(fs) && WordsAmong(fs, ws)
    requires forall j :: 0 <= j < |fs| ==> !fs[j].trigger.OnText?
    requires forall i :: 0 <= i < |hs| ==> hs[i] in fs || Avoids(hs[i], ws)
    ensures AllCompatible(hs, fs)
  {
    forall i, j | 0 <= i < |hs| && 0 <= j < |fs|
      ensures Apart(hs[i].trigger, fs[j].trigger) || hs[i].action == fs[j].action
    {
      if hs[i] in fs {
        var k :| 0 <= k < |fs| && fs[k] == hs[i];
        if k < j {
          assert Apart(fs[k].trigger, fs[j].trigger);
        } else if j < k {
          ApartSymmetric(fs[j].trigger, fs[k].trigger);
        }
      } else if hs[i].trigger.OnCallback? && fs[j].trigger.OnCallback? {
        assert forall w :: w in Words(fs[j].trigger.pattern) ==> w in ws;
      }
    }
  }

  /** Command handlers with distinct names and `^word$` callbacks with distinct words never overlap. */
  lemma ExclusiveByTriggers(hs: seq<Handler>)
    requires forall i :: 0 <= i < |hs| ==> hs[i].trigger.OnCommand? || (hs[i].trigger.OnCallback? && hs[i].trigger.pattern.Exactly?)
    requires forall i, j :: 0 <= i < j < |hs| ==> hs[i].trigger != hs[j].trigger
    ensures Exclusive(hs)
  {
  }

  /** The callback words the search flow's fallbacks answer to. */
  function BrowseFallbackWords(): set<Word>
  {
    {BackToMainWord, BackToProfSearchListWord, CancelWord, CloseInteractionWord}
  }

  function FeedbackFallbackWords(): set<Word>
  {
    {CancelFeedbackWord, CancelWord}
  }

  lemma BrowseFallbacksExclusive()
    ensures Exclusive(BrowseFallbacks())
    ensures AllCompatible(BrowseTable().entry, BrowseFallbacks())
  {
    ExclusiveByTriggers(BrowseFallbacks());
    assert BrowseTable().entry[0] == BrowseFallbacks()[0];
    CompatibleByWords(BrowseTable().entry, BrowseFallbacks(), BrowseFallbackWords());
  }

  lemma BrowseStatesCompatible()
    ensures forall s :: s in BrowseStates() ==> AllCompatible(BrowseStates()[s], BrowseFallbacks())
  {
    BrowseFallbacksExclusive();
    forall s | s in BrowseStates() ensures AllCompatible(BrowseStates()[s], BrowseFallbacks()) {
      CompatibleByWords(BrowseStates()[s], BrowseFallbacks(), BrowseFallbackWords());
    }
  }

  lemma BrowseFallbacksDecide(s: State)
    ensures FallbacksDecide(BrowseTable(), s)
  {
    BrowseStatesCompatible();
    BrowseFallbacksExclusive();
  }

  lemma FeedbackFallbacksExclusive()
    ensures Exclusive(FeedbackFallbacks())
    ensures AllCompatible(FeedbackTable().entry, FeedbackFallbacks())
  {
    ExclusiveByTriggers(FeedbackFallbacks());
  }

  lemma FeedbackStatesCompatible()
    ensures forall s :: s in FeedbackStates() ==> AllCompatible(FeedbackStates()[s], FeedbackFallbacks())
  {
    FeedbackFallbacksExclusive();
    forall s | s in FeedbackStates() ensures AllCompatible(FeedbackStates()[s], FeedbackFallbacks()) {
      CompatibleByWords(FeedbackStates()[s], FeedbackFallbacks(), FeedbackFallbackWords());
    }
  }

  lemma FeedbackFallbacksDecide(s: State)
    ensures FallbacksDecide(FeedbackTable(), s)
  {
    FeedbackStatesCompatible();
    FeedbackFallbacksExclusive();
  }

  /**
   * The fallbacks work from every state: `/start`, `/cancel`, `/help`,
   * `back_main`, `back_prof_srch_list`, `cancel` and `close_interaction` in
   * the search flow, `fb_cancel`, `cancel`, `/cancel` and `/start` in the
   * feedback flow. No entry point or state handler ever takes such an event
   * to a different handler.
   */
  lemma FallbacksAlwaysAnswer(flow: Flow, s: State, e: Event, j: nat)
    requires j < |TableOf(flow).fallbacks| && Fires(TableOf(flow).fallbacks[j].trigger, e)
    ensures Route(TableOf(flow), Some(s), e) == Some(TableOf(flow).fallbacks[j].action)
  {
    if flow == BrowseFlow {
      BrowseFallbacksDecide(s);
    } else {
      FeedbackFallbacksDecide(s);
    }
    FallbackRoutes(TableOf(flow), s, e, j);
  }

  // ---------------------------------------------------------------------------
  // Timeouts, re-entry and unknown states
  // ---------------------------------------------------------------------------

  /** Ten idle minutes end a search, five a feedback round; less time keeps the state. */
  lemma TimeoutsEndConversations(s: State, idle: nat)
    ensures Expire(BrowseTable(), Some(s), idle) == (if idle >= 600 then None else Some(s))
    ensures Expire(FeedbackTable(), Some(s), idle) == (if idle >= 300 then None else Some(s))
  {
  }

  /** Whatever the state, timed out or not, the entry command starts its conversation over. */
  lemma EntryAlwaysRestarts(state: Option<State>, idle: nat)
    ensures Route(BrowseTable(), Expire(BrowseTable(), state, idle), Command("start")) == Some(StartCommand)
    ensures Route(FeedbackTable(), Expire(FeedbackTable(), state, idle), Command("feedback")) == Some(FeedbackStartCommand)
  {
    EntryMatch(BrowseFlow, Command("start"));
    EntryMatch(FeedbackFlow, Command("feedback"));
  }

  /** Without a conversation only the entry command is answered. */
  lemma IdleConversationTakesOnlyEntry(flow: Flow, e: Event)
    ensures Route(TableOf(flow), None, e).Some? <==>
              e == Command(if flow == BrowseFlow then "start" else "feedback")
  {
    EntryMatch(flow, e);
  }

  /**
   * The `/start` fallback of the feedback flow returns SELECTING_ACTION,
   * which the feedback table does not know: in that state it answers only
   * its entry command and fallbacks.
   */
  lemma FeedbackStartLeavesUnknownState(state: Option<State>, e: Event)
    ensures Advance(state, To(SelectingAction)) == Some(SelectingAction)
    ensures SelectingAction !in FeedbackTable().states
    ensures Route(FeedbackTable(), Some(SelectingAction), e) ==
              (if e == Command("feedback") then Some(FeedbackStartCommand) else FirstMatch(FeedbackFallbacks(), e))
  {
    EntryMatch(FeedbackFlow, e);
  }

  // ---------------------------------------------------------------------------
  // The whole application: the gate, then group 0
  // ---------------------------------------------------------------------------

  /** Who handles an update: a conversation of a flow, or one of the plain commands. */
  datatype Routed = InFlow(flow: Flow, action: Action) | Standalone(action: Action)

  /**
   * An update passes the gate of group -1 first; in group 0 the search
   * conversation, the feedback conversation and the plain commands are
   * tried in registration order and the first that takes the update
   * handles it alone.
   */
  function Dispatch(gate: Gating.Gate, browse: Option<State>, feedback: Option<State>, e: Event): Option<Routed>
  {
    if !Gating.LetsThrough(gate) then None
    else
      var b := Route(BrowseTable(), browse, e);
      if b.Some? then Some(InFlow(BrowseFlow, b.value))
      else
        var f := Route(FeedbackTable(), feedback, e);
        if f.Some? then Some(InFlow(FeedbackFlow, f.value))
        else
          var c := FirstMatch(GeneralCommands(), e);
          if c.Some? then Some(Standalone(c.value)) else None
  }

  /** A stopped update reaches no handler at all. */
  lemma GateRunsFirst(gate: Gating.Gate, browse: Option<State>, feedback: Option<State>, e: Event)
    requires !Gating.LetsThrough(gate)
    ensures Dispatch(gate, browse, feedback, e) == None
  {
  }

  /** `/start` always restarts the search, so the feedback flow's own `/start` fallback never runs. */
  lemma StartAlwaysGoesToSearch(gate: Gating.Gate, browse: Option<State>, feedback: Option<State>)
    requires Gating.LetsThrough(gate)
    ensures Dispatch(gate, browse, feedback, Command("start")) == Some(InFlow(BrowseFlow, StartCommand))
  {
    EntryMatch(BrowseFlow, Command("start"));
  }

  lemma BrowseCommands(s: State)
    ensures CommandsAmong(StateHandlers(BrowseTable(), s), {})
    ensures CommandsAmong(BrowseFallbacks(), {"start", "cancel", "help"})
  {
  }

  lemma FeedbackCommands(s: State)
    ensures CommandsAmong(StateHandlers(FeedbackTable(), s), {})
    ensures CommandsAmong(FeedbackFallbacks(), {"cancel", "start"})
  {
  }

  /** No search state takes a command other than its three fallbacks and the entry command. */
  lemma SearchIgnoresOtherCommands(browse: Option<State>, name: string)
    requires name != "start" && name != "cancel" && name != "help"
    ensures Route(BrowseTable(), browse, Command(name)) == None
  {
    EntryMatch(BrowseFlow, Command(name));
    if browse.Some? {
      BrowseCommands(browse.value);
      UnknownCommandUnanswered(StateHandlers(BrowseTable(), browse.value), {}, name);
      UnknownCommandUnanswered(BrowseFallbacks(), {"start", "cancel", "help"}, name);
    }
  }

  /** No feedback state takes a command other than `/cancel`, `/start` and the entry command. */
  lemma FeedbackIgnoresOtherCommands(feedback: Option<State>, name: string)
    requires name != "start" && name != "cancel" && name != "feedback"
    ensures Route(FeedbackTable(), feedback, Command(name)) == None
  {
    EntryMatch(FeedbackFlow, Command(name));
    if feedback.Some? {
      FeedbackCommands(feedback.value);
      UnknownCommandUnanswered(StateHandlers(FeedbackTable(), feedback.value), {}, name);
      UnknownCommandUnanswered(FeedbackFallbacks(), {"cancel", "start"}, name);
    }
  }

  /** `/feedback` opens the feedback flow from anywhere in the search. */
  lemma FeedbackAlwaysReachable(gate: Gating.Gate, browse: Option<State>, feedback: Option<State>)
    requires Gating.LetsThrough(gate)
    ensures Dispatch(gate, browse, feedback, Command("feedback")) == Some(InFlow(FeedbackFlow, FeedbackStartCommand))
  {
    SearchIgnoresOtherCommands(browse, "feedback");
    EntryMatch(FeedbackFlow, Command("feedback"));
  }

  /** The plain commands have distinct names, none of them a conversation's command except `help`. */
  lemma GeneralCommandNames()
    ensures Exclusive(GeneralCommands())
    ensures forall k :: 0 <= k < |GeneralCommands()| ==> GeneralCommands()[k].trigger.OnCommand?
    ensures forall k :: 1 <= k < |GeneralCommands()| ==>
              GeneralCommands()[k].trigger.name !in {"start", "cancel", "help", "feedback"}
  {
    CommandsApart(GeneralCommands());
    assert "block"[0] != "start"[0];
  }

  /** Commands whose names differ in length or in their first letter never overlap. */
  lemma CommandsApart(hs: seq<Handler>)
    requires forall i :: 0 <= i < |hs| ==> hs[i].trigger.OnCommand? && |hs[i].trigger.name| > 0
    requires forall i, j :: 0 <= i < j < |hs| ==>
               |hs[i].trigger.name| != |hs[j].trigger.name| || hs[i].trigger.name[0] != hs[j].trigger.name[0]
    ensures Exclusive(hs)
  {
  }

  /** The admin and subscription commands are answered whatever either conversation is doing. */
  lemma PlainCommandsAlwaysReachable(gate: Gating.Gate, browse: Option<State>, feedback: Option<State>, k: nat)
    requires Gating.LetsThrough(gate) && 1 <= k < |GeneralCommands()|
    ensures Dispatch(gate, browse, feedback, Command(GeneralCommands()[k].trigger.name)) ==
              Some(Standalone(GeneralCommands()[k].action))
  {
    GeneralCommandNames();
    var name := GeneralCommands()[k].trigger.name;
    SearchIgnoresOtherCommands(browse, name);
    FeedbackIgnoresOtherCommands(feedback, name);
    ExclusiveFirst(GeneralCommands(), Command(name), k);
  }

  /**
   * `/help` is the search flow's fallback while a search is open, and the
   * plain help command otherwise (the feedback flow has no `/help`).
   */
  lemma HelpAlwaysAnswered(gate: Gating.Gate, browse: Option<State>, feedback: Option<State>)
    requires Gating.LetsThrough(gate)
    ensures Dispatch(gate, browse, feedback, Command("help")) ==
              if browse.Some? then Some(InFlow(BrowseFlow, HelpCommand)) else Some(Standalone(HelpCommand))
  {
    if browse.Some? {
      FallbacksAlwaysAnswer(BrowseFlow, browse.value, Command("help"), 2);
    } else {
      EntryMatch(BrowseFlow, Command("help"));
      FeedbackIgnoresOtherCommands(feedback, "help");
      GeneralCommandNames();
      ExclusiveFirst(GeneralCommands(), Command("help"), 0);
    }
  }

  /**
   * A search prompt still waiting for text captures the text typed for an
   * open feedback round: the search conversation comes first in group 0.
   */
  lemma SearchPromptCapturesFeedbackText(gate: Gating.Gate, kind: State, text: string)
    requires Gating.LetsThrough(gate) && (kind == TypingCourse || kind == TypingProf)
    ensures Route(FeedbackTable(), Some(TypingFeedbackMessage), Text(text)) == Some(FeedbackMessageHandler)
    ensures Dispatch(gate, Some(kind), Some(TypingFeedbackMessage), Text(text)) ==
              Some(InFlow(BrowseFlow, if kind == TypingCourse then HandleCourseSearchInput else HandleProfSearchInput))
  {
    EntryMatch(BrowseFlow, Text(text));
    EntryMatch(FeedbackFlow, Text(text));
    TypingStatesTakeOnlyText(Text(text));
  }
}

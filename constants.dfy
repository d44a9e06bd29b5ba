/**
 * Conversation states and callback vocabulary of the bot
 * (`bot/constants.py`).
 */
module Constants {

  /** The eleven conversation states, numbered by `range(11)` in this order. */
  datatype State =
    | SelectingAction
    | TypingCourse
    | TypingProf
    | SelectingCourseResults
    | SelectingProfResults
    | SelectingCourseForProf
    | SelectingYearSemester
    | ShowingFinalGrades
    | AskFeedbackType
    | TypingFeedbackMessage
    | ConfirmFeedbackSubmission

  /** What a handler hands back to its conversation: a state, `END`, or `None` (state unchanged). */
  datatype Next = To(state: State) | End | Stay

  /** `ConversationHandler.END`. */
  const EndCode: int := -1

  /** The integer each state unpacks to from `range(11)`. */
  function StateCode(s: State): (c: int)
    ensures 0 <= c < 11
  {
    match s
    case SelectingAction => 0
    case TypingCourse => 1
    case TypingProf => 2
    case SelectingCourseResults => 3
    case SelectingProfResults => 4
    case SelectingCourseForProf => 5
    case SelectingYearSemester => 6
    case ShowingFinalGrades => 7
    case AskFeedbackType => 8
    case TypingFeedbackMessage => 9
    case ConfirmFeedbackSubmission => 10
  }

  /** The state a code in `range(11)` names. */
  function StateOfCode(c: int): (s: State)
    requires 0 <= c < 11
    ensures StateCode(s) == c
  {
    if c == 0 then SelectingAction
    else if c == 1 then TypingCourse
    else if c == 2 then TypingProf
    else if c == 3 then SelectingCourseResults
    else if c == 4 then SelectingProfResults
    else if c == 5 then SelectingCourseForProf
    else if c == 6 then SelectingYearSemester
    else if c == 7 then ShowingFinalGrades
    else if c == 8 then AskFeedbackType
    else if c == 9 then TypingFeedbackMessage
    else ConfirmFeedbackSubmission
  }

  /** The codes are exactly `0..10`, each state has its own, and none is `END`. */
  lemma StateCodesAreRange(s: State, t: State)
    ensures StateOfCode(StateCode(s)) == s
    ensures StateCode(s) == StateCode(t) <==> s == t
    ensures StateCode(s) != EndCode
  {
  }

  /** States of the browse conversation (codes 0..7); the rest belong to feedback. */
  predicate IsBrowseState(s: State)
  {
    StateCode(s) < 8
  }

  // Search modes
  const CourseSearchMode := "mode_course"
  const ProfSearchMode := "mode_prof"
  // Navigation and actions
  const Cancel := "cancel"
  const BackToMain := "back_main"
  const BackToTypingCourse := "back_type_crs"
  const BackToTypingProf := "back_type_prof"
  const BackToProfCourseListPrefix := "back_prof_crs_list_"
  const BackToCourseSearchList := "back_crs_srch_list"
  const BackToProfSearchList := "back_prof_srch_list"
  const BackToYearSemSelectPrefix := "back_ys_sel_"
  const BackToCourseListFromPlotPrefix := "back_clp_"
  const ViewProfCoursesPrefix := "vpc_"
  // Selection prefixes
  const CourseSelectPrefix := "cs_"
  const ProfSelectPrefix := "ps_"
  const YearSemSelectPrefix := "ysel_"
  // Pagination
  const ItemsPerPage: nat := 8
  const PageCourseSearchResultsPrefix := "p_csr_"
  const PageProfSearchResultsPrefix := "p_psr_"
  const PageProfCourseListPrefix := "p_pcl_"
  const PageYearSemesterPrefix := "p_ys_"
  // Feedback actions
  const FeedbackTypeBug := "fb_bug"
  const FeedbackTypeSuggestion := "fb_suggestion"
  const FeedbackTypeGeneral := "fb_general"
  const ConfirmSendFeedback := "fb_confirm_send"
  const CancelFeedback := "fb_cancel"

  /** The callback vocabulary of the browse conversation, grouped by first character. */
  function BrowseCallbacks(): seq<string>
  {
    ModeWords() + CWords() + BackWords() + [ViewProfCoursesPrefix] + PWords() + [YearSemSelectPrefix]
  }

  function ModeWords(): seq<string> { [CourseSearchMode, ProfSearchMode] }
  function CWords(): seq<string> { [Cancel, CourseSelectPrefix] }
  function BackWords(): seq<string>
  {
    [BackToMain, BackToTypingCourse, BackToTypingProf, BackToProfCourseListPrefix,
     BackToCourseSearchList, BackToProfSearchList, BackToYearSemSelectPrefix,
     BackToCourseListFromPlotPrefix]
  }
  function PWords(): seq<string>
  {
    [ProfSelectPrefix, PageCourseSearchResultsPrefix, PageProfSearchResultsPrefix,
     PageProfCourseListPrefix, PageYearSemesterPrefix]
  }

  /** The callback vocabulary of the feedback conversation. */
  function FeedbackCallbacks(): seq<string>
  {
    [FeedbackTypeBug, FeedbackTypeSuggestion, FeedbackTypeGeneral, ConfirmSendFeedback, CancelFeedback]
  }

  /** No word of `words` starts with a different word of `words`. */
  predicate PrefixFree(words: seq<string>)
  {
    forall p, q :: p in words && q in words && p != q ==> !(p <= q)
  }

  /** Every word is non-empty and starts with one of `initials`. */
  predicate StartsWithOneOf(words: seq<string>, initials: set<char>)
  {
    forall w :: w in words ==> |w| > 0 && w[0] in initials
  }

  /** A string starting with one word and with another forces one word to start the other. */
  lemma PrefixesOfOneString(p: string, q: string, s: string)
    requires p <= s && q <= s
    ensures p <= q || q <= p
  {
    if |p| <= |q| {
      assert p == s[..|p|] == q[..|p|];
    } else {
      assert q == s[..|q|] == p[..|q|];
    }
  }

  /** Two words differing at a position both have: neither starts the other. */
  lemma DifferAt(p: string, q: string, k: nat)
    requires k < |p| && k < |q| && p[k] != q[k]
    ensures !(p <= q) && !(q <= p)
  {
  }

  /** Two prefix-free groups with disjoint initials stay prefix-free together. */
  lemma PrefixFreeJoin(a: seq<string>, b: seq<string>, ia: set<char>, ib: set<char>)
    requires PrefixFree(a) && PrefixFree(b)
    requires StartsWithOneOf(a, ia) && StartsWithOneOf(b, ib) && ia !! ib
    ensures PrefixFree(a + b) && StartsWithOneOf(a + b, ia + ib)
  {
    forall p, q | p in a + b && q in a + b && p != q
      ensures !(p <= q)
    {
      if (p in a && q in b) || (p in b && q in a) {
        DifferAt(p, q, 0);
      }
    }
  }

  lemma BackWordsPrefixFree()
    ensures PrefixFree(BackWords()) && StartsWithOneOf(BackWords(), {'b'})
  {
    var w := BackWords();
    forall p, q | p in w && q in w && p != q
      ensures !(p <= q)
    {
      if p[5] != q[5] { DifferAt(p, q, 5); }
      else if p[6] != q[6] { DifferAt(p, q, 6); }
      else { DifferAt(p, q, 10); }
    }
  }

  lemma PWordsPrefixFree()
    ensures PrefixFree(PWords()) && StartsWithOneOf(PWords(), {'p'})
  {
    var w := PWords();
    forall p, q | p in w && q in w && p != q
      ensures !(p <= q)
    {
      if p[1] != q[1] { DifferAt(p, q, 1); }
      else if p[2] != q[2] { DifferAt(p, q, 2); }
      else { DifferAt(p, q, 3); }
    }
  }

  lemma FeedbackWordsPrefixFree()
    ensures PrefixFree(FeedbackCallbacks()) && StartsWithOneOf(FeedbackCallbacks(), {'f'})
  {
    var w := FeedbackCallbacks();
    forall p, q | p in w && q in w && p != q
      ensures !(p <= q)
    {
      if p[3] != q[3] { DifferAt(p, q, 3); }
      else { DifferAt(p, q, 4); }
    }
  }

  lemma SmallFamiliesPrefixFree()
    ensures PrefixFree(ModeWords()) && StartsWithOneOf(ModeWords(), {'m'})
    ensures PrefixFree(CWords()) && StartsWithOneOf(CWords(), {'c'})
    ensures PrefixFree([ViewProfCoursesPrefix]) && StartsWithOneOf([ViewProfCoursesPrefix], {'v'})
    ensures PrefixFree([YearSemSelectPrefix]) && StartsWithOneOf([YearSemSelectPrefix], {'y'})
  {
    DifferAt(CourseSearchMode, ProfSearchMode, 5);
    DifferAt(Cancel, CourseSelectPrefix, 1);
  }

  /** Prefix-free families with distinct initials form a prefix-free vocabulary. */
  lemma {:induction false} AssembleFamilies(m: seq<string>, c: seq<string>, b: seq<string>,
                                            v: seq<string>, p: seq<string>, y: seq<string>,
                                            f: seq<string>)
    requires PrefixFree(m) && StartsWithOneOf(m, {'m'})
    requires PrefixFree(c) && StartsWithOneOf(c, {'c'})
    requires PrefixFree(b) && StartsWithOneOf(b, {'b'})
    requires PrefixFree(v) && StartsWithOneOf(v, {'v'})
    requires PrefixFree(p) && StartsWithOneOf(p, {'p'})
    requires PrefixFree(y) && StartsWithOneOf(y, {'y'})
    requires PrefixFree(f) && StartsWithOneOf(f, {'f'})
    ensures PrefixFree(m + c + b + v + p + y)
    ensures PrefixFree(m + c + b + v + p + y + f)
  {
    var i1 := {'m'} + {'c'};
    PrefixFreeJoin(m, c, {'m'}, {'c'});
    var i2 := i1 + {'b'};
    PrefixFreeJoin(m + c, b, i1, {'b'});
    var i3 := i2 + {'v'};
    PrefixFreeJoin(m + c + b, v, i2, {'v'});
    var i4 := i3 + {'p'};
    PrefixFreeJoin(m + c + b + v, p, i3, {'p'});
    var i5 := i4 + {'y'};
    PrefixFreeJoin(m + c + b + v + p, y, i4, {'y'});
    PrefixFreeJoin(m + c + b + v + p + y, f, i5, {'f'});
  }

  /**
   * The whole callback vocabulary of both conversations is prefix-free, so a
   * `^prefix` pattern for one constant never captures another constant.
   */
  lemma {:induction false} CallbackVocabularyPrefixFree()
    ensures PrefixFree(BrowseCallbacks() + FeedbackCallbacks())
  {
    SmallFamiliesPrefixFree();
    BackWordsPrefixFree();
    PWordsPrefixFree();
    FeedbackWordsPrefixFree();
    AssembleFamilies(ModeWords(), CWords(), BackWords(), [ViewProfCoursesPrefix], PWords(), [YearSemSelectPrefix],
                     FeedbackCallbacks());
  }

  /** No feedback value starts with, or is started by, a browse value. */
  lemma {:induction false} FeedbackDisjointFromBrowse(p: string, q: string)
    requires p in BrowseCallbacks() && q in FeedbackCallbacks()
    ensures p != q && !(p <= q) && !(q <= p)
  {
    DifferAt(p, q, 0);
  }
}

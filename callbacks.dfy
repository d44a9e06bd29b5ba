/**
 * Decoding of the callback payloads the browse handlers receive, and the
 * round trips that tie each decoder to the encoder in `Keyboards` that
 * produced the payload.
 */
module Callbacks {
  import opened Wrappers
  import opened PyStr
  import opened Constants
  import opened Keyboards

  // ---------------------------------------------------------------------------
  // Pagination payloads
  // ---------------------------------------------------------------------------

  /**
   * The parts the `page_course_search_results` and `page_prof_search_results`
   * handlers pass on: `[data.split(prefix, 1)[1]]`; `None` is the
   * `IndexError` that ends the conversation.
   */
  function SearchPageParts(data: string, prefix: string): (r: Option<seq<string>>)
    requires |prefix| > 0
    ensures r.Some? ==> |r.value| == 1
    ensures prefix <= data ==> r == Some([data[|prefix|..]])
  {
    match AfterFirst(data, prefix)
    case None => None
    case Some(rest) => Some([rest])
  }

  /**
   * `page_prof_course_list`: the payload after the prefix, cut at its last
   * `_` into the professor id and the page; `None` for a missing prefix or
   * a payload without `_`.
   */
  function ProfCoursePageParts(data: string): (r: Option<seq<string>>)
    ensures r.Some? ==> |r.value| == 2 && '_' !in r.value[1]
  {
    match AfterFirst(data, PageProfCourseListPrefix)
    case None => None
    case Some(rest) =>
      match RSplitOnce(rest, '_')
      case None => None
      case Some(cut) => Some([cut.0, cut.1])
  }

  /**
   * `page_year_semester_list`: the payload after the prefix split on every
   * `_`, accepted only when it has exactly three parts.
   */
  function YearSemesterPageParts(data: string): (r: Option<seq<string>>)
    ensures r.Some? ==> |r.value| == 3
  {
    match AfterFirst(data, PageYearSemesterPrefix)
    case None => None
    case Some(rest) =>
      var parts := Split(rest, '_');
      if |parts| != 3 then None else Some(parts)
  }

  /**
   * The page `_handle_pagination_callback` reads: the part count must be
   * the expected one and the last part must parse as an integer.
   */
  function PageNumber(parts: seq<string>, expected: nat): (r: Option<int>)
    ensures r.Some? ==> |parts| == expected && parts != [] && r == ParseInt(parts[|parts| - 1])
  {
    if |parts| != expected || parts == [] then None else ParseInt(parts[|parts| - 1])
  }

  /** A search-list page control decodes to its own page number, for every page. */
  lemma SearchPageRoundTrip(prefix: string, page: int)
    requires prefix == PageCourseSearchResultsPrefix || prefix == PageProfSearchResultsPrefix
    ensures SearchPageParts(PageCallback(prefix, [], page), prefix) == Some([IntToString(page)])
    ensures PageNumber([IntToString(page)], 1) == Some(page)
  {
    PlainPageRoundTrip(prefix, page);
  }

  /** The same for any non-empty prefix: the payload after it is the page's digits. */
  lemma PlainPageRoundTrip(prefix: string, page: int)
    requires |prefix| > 0
    ensures SearchPageParts(PageCallback(prefix, [], page), prefix) == Some([IntToString(page)])
    ensures PageNumber([IntToString(page)], 1) == Some(page)
  {
    PlainPageCallback(prefix, page);
    PrefixedPart(prefix, IntToString(page));
    SinglePartPage(IntToString(page));
    ParseIntToString(page);
  }

  /** A control of a list without parts is the prefix followed by the page. */
  lemma PlainPageCallback(prefix: string, page: int)
    ensures PageCallback(prefix, [], page) == prefix + IntToString(page)
  {
    assert PayloadPart([]) == "";
  }

  /** A single part is read as the page when one part is expected. */
  lemma SinglePartPage(s: string)
    ensures PageNumber([s], 1) == ParseInt(s)
  {
  }

  /** Whatever follows the prefix is the one part a search-list control carries. */
  lemma PrefixedPart(prefix: string, rest: string)
    requires |prefix| > 0
    ensures SearchPageParts(prefix + rest, prefix) == Some([rest])
  {
    assert prefix <= prefix + rest;
    assert (prefix + rest)[|prefix|..] == rest;
  }

  /**
   * A professor-course page control `p_pcl_{id}_{n}` decodes to `(id, n)`
   * whatever the id holds, because `rsplit` cuts at the last `_` and `str(n)`
   * has none.
   */
  lemma ProfCoursePageRoundTrip(profId: string, page: int)
    ensures ProfCoursePageParts(PageCallback(PageProfCourseListPrefix, [profId], page))
            == Some([profId, IntToString(page)])
    ensures PageNumber([profId, IntToString(page)], 2) == Some(page)
  {
    var n := IntToString(page);
    var data := PageCallback(PageProfCourseListPrefix, [profId], page);
    ProfCoursePagePayload(profId, page);
    IntToStringHasNoSeparator(page, '_');
    RSplitOnceAround(profId, n, '_');
    assert RSplitOnce(profId + ['_'] + n, '_') == Some((profId, n));
    assert ProfCoursePageParts(data) == Some([profId, n]);
    ParseIntToString(page);
  }

  lemma ProfCoursePagePayload(profId: string, page: int)
    ensures AfterFirst(PageCallback(PageProfCourseListPrefix, [profId], page), PageProfCourseListPrefix)
            == Some(profId + ['_'] + IntToString(page))
  {
    var n := IntToString(page);
    assert PayloadPart([profId]) == profId + "_";
    var data := PageProfCourseListPrefix + (profId + ['_'] + n);
    assert PageCallback(PageProfCourseListPrefix, [profId], page) == data;
    assert data[|PageProfCourseListPrefix|..] == profId + ['_'] + n;
  }

  /**
   * A year/semester page control `p_ys_{mode}_{id}_{n}` decodes to
   * `[mode, id, n]` exactly when neither the mode nor the id holds `_`;
   * otherwise the part count is wrong and the control is refused.
   */
  lemma YearSemesterPageRoundTrip(mode: string, backId: string, page: int)
    ensures YearSemesterPageParts(PageCallback(PageYearSemesterPrefix, [mode, backId], page))
            == if '_' !in mode && '_' !in backId then Some([mode, backId, IntToString(page)]) else None
    ensures PageNumber([mode, backId, IntToString(page)], 3) == Some(page)
  {
    var n := IntToString(page);
    assert Join([mode, backId], '_') == mode + ['_'] + backId;
    var rest := mode + ['_'] + backId + ['_'] + n;
    var data := PageYearSemesterPrefix + rest;
    assert PageCallback(PageYearSemesterPrefix, [mode, backId], page) == data;
    assert data[|PageYearSemesterPrefix|..] == rest;
    IntToStringHasNoSeparator(page, '_');
    SplitFields3(mode, backId, n, '_');
    ParseIntToString(page);
  }

  // ---------------------------------------------------------------------------
  // Selection payloads
  // ---------------------------------------------------------------------------

  /** A decoded `cs_` payload: the stripped course code and, in the professor flow, the id part. */
  datatype CourseChoice = CourseChoice(code: string, profIdPart: Option<string>)

  /**
   * `select_item_callback` on `cs_...`: the rest is split on `|`; the flow is
   * the professor's when there are more than two parts and the second is
   * `prof`.
   */
  function DecodeCourseSelect(data: string): (r: Option<CourseChoice>)
    ensures r.Some? <==> CourseSelectPrefix <= data
  {
    if !(CourseSelectPrefix <= data) then None
    else Some(ChoiceOfFields(Split(data[|CourseSelectPrefix|..], '|')))
  }

  /** The choice the `|`-separated fields of a `cs_` payload name: a third field after `prof` is the professor's id. */
  function ChoiceOfFields(parts: seq<string>): CourseChoice
    requires |parts| >= 1
  {
    var profFlow := |parts| > 2 && parts[1] == "prof";
    CourseChoice(Strip(parts[0]), if profFlow then Some(parts[2]) else None)
  }

  /** What `select_item_callback` makes of its payload. */
  datatype Selection = CourseSelection(choice: CourseChoice) | ProfSelection(id: Option<int>) | UnknownSelection

  /**
   * `cs_` is tried first, then `ps_` (whose id is `int(data[3:])`, `None`
   * when that raises); anything else is unknown.
   */
  function DecodeSelection(data: string): (r: Selection)
    ensures r.CourseSelection? <==> CourseSelectPrefix <= data
    ensures r.ProfSelection? <==> ProfSelectPrefix <= data
  {
    if CourseSelectPrefix <= data then
      assert data[0] != ProfSelectPrefix[0];
      CourseSelection(DecodeCourseSelect(data).value)
    else if ProfSelectPrefix <= data then ProfSelection(IntAfter(data, ProfSelectPrefix))
    else UnknownSelection
  }

  /** A course button decodes as a selection of that course, outside the professor flow. */
  lemma CourseButtonSelects(code: string)
    requires '|' !in code && Strip(code) == code
    ensures DecodeSelection(CourseSelectPrefix + code) == CourseSelection(CourseChoice(code, None))
  {
    CourseSelectRoundTrip(code);
    assert CourseSelectPrefix <= CourseSelectPrefix + code;
  }

  /** A professor's course button decodes as a selection of that course carrying the professor id. */
  lemma ProfCourseButtonSelects(code: string, profIdStr: string)
    requires '|' !in code && Strip(code) == code && '|' !in profIdStr
    ensures DecodeSelection(CourseSelectPrefix + code + "|prof|" + profIdStr)
            == CourseSelection(CourseChoice(code, Some(profIdStr)))
  {
    ProfCourseSelectRoundTrip(code, profIdStr);
    assert CourseSelectPrefix <= CourseSelectPrefix + code + "|prof|" + profIdStr;
  }

  /** A professor button `ps_{id}` decodes as a selection of that professor. */
  lemma ProfButtonSelects(id: int)
    ensures DecodeSelection(ProfSelectPrefix + IntToString(id)) == ProfSelection(Some(id))
  {
    var data := ProfSelectPrefix + IntToString(id);
    IdPayloadRoundTrip(ProfSelectPrefix, id);
    assert ProfSelectPrefix <= data;
    assert data[0] != CourseSelectPrefix[0];
  }

  /** A course-search button `cs_{code}` selects that course outside the professor flow. */
  lemma CourseSelectRoundTrip(code: string)
    requires '|' !in code && Strip(code) == code
    ensures DecodeCourseSelect(CourseSelectPrefix + code) == Some(CourseChoice(code, None))
  {
    var data := CourseSelectPrefix + code;
    assert data[|CourseSelectPrefix|..] == code;
    SplitNoSeparator(code, '|');
    assert DecodeCourseSelect(data) == Some(ChoiceOfFields(Split(code, '|')));
    PlainChoiceOfFields(code);
  }

  lemma PlainChoiceOfFields(code: string)
    requires Strip(code) == code
    ensures ChoiceOfFields([code]) == CourseChoice(code, None)
  {
  }

  /** A professor's course button `cs_{code}|prof|{id}` gives back the code and the id. */
  lemma ProfCourseSelectRoundTrip(code: string, profIdStr: string)
    requires '|' !in code && Strip(code) == code && '|' !in profIdStr
    ensures DecodeCourseSelect(CourseSelectPrefix + code + "|prof|" + profIdStr)
            == Some(CourseChoice(code, Some(profIdStr)))
  {
    ProfCourseSelectFields(code, profIdStr);
    ProfCourseChoice(CourseSelectPrefix + code + "|prof|" + profIdStr, code, profIdStr);
  }

  /** A `cs_` payload whose fields are a stripped code, `prof` and an id decodes to that choice. */
  lemma ProfCourseChoice(data: string, code: string, profIdStr: string)
    requires CourseSelectPrefix <= data && Split(data[|CourseSelectPrefix|..], '|') == [code, "prof", profIdStr]
    requires Strip(code) == code
    ensures DecodeCourseSelect(data) == Some(CourseChoice(code, Some(profIdStr)))
  {
    var parts: seq<string> := [code, "prof", profIdStr];
    ProfChoiceOfFields(code, profIdStr);
    assert DecodeCourseSelect(data) == Some(ChoiceOfFields(Split(data[|CourseSelectPrefix|..], '|')));
  }

  lemma ProfChoiceOfFields(code: string, profIdStr: string)
    requires Strip(code) == code
    ensures ChoiceOfFields([code, "prof", profIdStr]) == CourseChoice(code, Some(profIdStr))
  {
  }

  lemma ProfCourseSelectFields(code: string, profIdStr: string)
    requires '|' !in code && '|' !in profIdStr
    ensures var data := CourseSelectPrefix + code + "|prof|" + profIdStr;
      CourseSelectPrefix <= data && Split(data[|CourseSelectPrefix|..], '|') == [code, "prof", profIdStr]
  {
    var rest := code + ['|'] + "prof" + ['|'] + profIdStr;
    var data := CourseSelectPrefix + rest;
    assert CourseSelectPrefix + code + "|prof|" + profIdStr == data;
    assert data[|CourseSelectPrefix|..] == rest;
    SplitFields3(code, "prof", profIdStr, '|');
  }

  /**
   * `select_year_semester_callback`: the four `|`-separated fields after
   * `ysel_`; `None` for another prefix or another field count.
   */
  function DecodeYearSemSelect(data: string): (r: Option<seq<string>>)
    ensures r.Some? ==> YearSemSelectPrefix <= data && |r.value| == 4
  {
    if !(YearSemSelectPrefix <= data) then None
    else
      var parts := Split(data[|YearSemSelectPrefix|..], '|');
      if |parts| != 4 then None else Some(parts)
  }

  /**
   * A term button `ysel_{y}|{s}|{mode}|{back}` decodes to its four fields
   * exactly when none of them holds `|`.
   */
  lemma YearSemSelectRoundTrip(y: string, s: string, mode: string, backId: string)
    ensures DecodeYearSemSelect(YearSemSelectPrefix + y + "|" + s + "|" + mode + "|" + backId)
            == if '|' !in y && '|' !in s && '|' !in mode && '|' !in backId
               then Some([y, s, mode, backId]) else None
  {
    var rest := y + ['|'] + s + ['|'] + mode + ['|'] + backId;
    var data := YearSemSelectPrefix + rest;
    assert YearSemSelectPrefix + y + "|" + s + "|" + mode + "|" + backId == data;
    assert data[|YearSemSelectPrefix|..] == rest;
    SplitFields4(y, s, mode, backId, '|');
  }

  /**
   * `int(data[len(prefix):])`, as `ps_` and `view_prof_crs_` are read: the
   * slice is taken without checking the prefix, and past the end it is empty.
   */
  function IntAfter(data: string, prefix: string): (r: Option<int>)
    ensures |data| <= |prefix| ==> r == None
  {
    if |data| <= |prefix| then None else ParseInt(data[|prefix|..])
  }

  /** A payload no longer than its prefix leaves `int("")`, which raises. */
  lemma IntAfterShortPayload(data: string, prefix: string)
    requires |data| <= |prefix|
    ensures IntAfter(data, prefix) == ParseInt(data[|data|..])
  {
    assert data[|data|..] == [];
    assert Strip([]) == [];
  }

  /**
   * `int(data.split(prefix, 1)[1])`, as `back_prof_crs_list_` is read; `None`
   * stands for the `IndexError` or `ValueError`.
   */
  function IntAfterFirst(data: string, prefix: string): (r: Option<int>)
    requires |prefix| > 0
  {
    match AfterFirst(data, prefix)
    case None => None
    case Some(rest) => ParseInt(rest)
  }

  /** Every id payload built from `str(id)` decodes to that id. */
  lemma IdPayloadRoundTrip(prefix: string, id: int)
    requires |prefix| > 0
    ensures IntAfter(prefix + IntToString(id), prefix) == Some(id)
    ensures IntAfterFirst(prefix + IntToString(id), prefix) == Some(id)
  {
    assert (prefix + IntToString(id))[|prefix|..] == IntToString(id);
    ParseIntToString(id);
  }

  /** Where `back_to_course_list_from_plot` sends the user back to. */
  datatype PlotBack = ToProfCourses(profIdStr: string) | ToCourseResults | UnknownTarget

  /**
   * `back_to_course_list_from_plot_callback`'s reading of its payload;
   * `None` is the `IndexError` of a missing prefix.
   */
  function DecodePlotBack(data: string): (r: Option<PlotBack>)
    ensures r.None? <==> AfterFirst(data, BackToCourseListFromPlotPrefix).None?
  {
    match AfterFirst(data, BackToCourseListFromPlotPrefix)
    case None => None
    case Some(payload) =>
      if "prof_" <= payload then
        match SecondField(payload, "prof_")
        case Some(idStr) => Some(ToProfCourses(idStr))
        case None => assert false; None
      else if payload == "course" then Some(ToCourseResults)
      else Some(UnknownTarget)
  }

  /**
   * The two "Select Diff. Course" payloads of the final-options keyboard
   * decode to their targets; the professor one keeps `str(prof_id)`.
   */
  lemma PlotBackRoundTrip(profId: int)
    ensures DecodePlotBack(BackToCourseListFromPlotPrefix + "course") == Some(ToCourseResults)
    ensures DecodePlotBack(BackToCourseListFromPlotPrefix + "prof_" + IntToString(profId))
            == Some(ToProfCourses(IntToString(profId)))
  {
    var c := BackToCourseListFromPlotPrefix + "course";
    assert c[|BackToCourseListFromPlotPrefix|..] == "course";
    var p := BackToCourseListFromPlotPrefix + "prof_" + IntToString(profId);
    assert p[|BackToCourseListFromPlotPrefix|..] == "prof_" + IntToString(profId);
    IntToStringHasNoSeparator(profId, 'p');
    SecondFieldAfterPrefix("prof_", IntToString(profId));
  }
}

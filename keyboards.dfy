/**
 * Inline keyboards of the bot (`bot/keyboards.py`): paginated item lists
 * with Previous/Next controls and a fixed footer, the year/semester picker
 * with its de-duplication and ordering, and the static menus.
 */
module Keyboards {
  import opened Wrappers
  import opened PyStr
  import opened Constants
  import opened StableSort

  datatype Button = Button(text: string, data: string)
  type Row = seq<Button>
  type Keyboard = seq<Row>

  /** A course or professor search hit; `None` is a key the record lacks. */
  datatype SearchItem = SearchItem(code: Option<string>, id: Option<int>, name: Option<string>)

  /** One entry `{course_code, course_name}` of a professor's course list. */
  datatype CourseEntry = CourseEntry(courseCode: Option<string>, courseName: Option<string>)

  /** A course offering as the backend returns it. */
  datatype Offering = Offering(courseCode: Option<string>, courseName: Option<string>,
                               year: Option<string>, semester: Option<string>)

  /** Python truthiness of an optional string. */
  predicate Truthy(o: Option<string>)
  {
    o.Some? && o.value != ""
  }

  /** `True` when some button of `kb` carries callback data `d`. */
  predicate Emits(kb: Keyboard, d: string)
  {
    exists i, j :: 0 <= i < |kb| && 0 <= j < |kb[i]| && kb[i][j].data == d
  }

  const LabelLimit: nat := 60
  const PreviousLabel := "\U{2B05}\U{FE0F} Previous"
  const NextLabel := "Next \U{27A1}\U{FE0F}"
  const CancelLabel := "\U{274C} Cancel"

  // ---------------------------------------------------------------------------
  // Python slicing and the page window
  // ---------------------------------------------------------------------------

  /** Where a slice bound lands in a sequence of length `n` (negative bounds count from the end). */
  function SliceBound(i: int, n: nat): (b: nat)
    ensures b <= n
    ensures 0 <= i <= n ==> b == i
    ensures i > n ==> b == n
  {
    if i < 0 then (if i + n < 0 then 0 else i + n) else if i > n then n else i
  }

  /** `s[start:end]`. */
  function PySlice<T>(s: seq<T>, start: int, end: int): (r: seq<T>)
    ensures |r| <= |s|
  {
    var a := SliceBound(start, |s|);
    var b := SliceBound(end, |s|);
    if a < b then s[a..b] else []
  }

  /** `all_results[page * ITEMS_PER_PAGE : page * ITEMS_PER_PAGE + ITEMS_PER_PAGE]`. */
  function PageItems<T>(s: seq<T>, page: int): (r: seq<T>)
    ensures |r| <= ItemsPerPage
  {
    PySlice(s, page * ItemsPerPage, page * ItemsPerPage + ItemsPerPage)
  }

  /**
   * A non-negative page shows exactly the items at indices
   * `[8p, 8p+8)` that exist, in list order; a page past the end shows none.
   */
  lemma PageItemsWindow<T>(s: seq<T>, page: int)
    requires page >= 0
    ensures var r := PageItems(s, page);
      && |r| == (if |s| <= page * ItemsPerPage then 0
                 else if |s| < page * ItemsPerPage + ItemsPerPage then |s| - page * ItemsPerPage
                 else ItemsPerPage)
      && (forall k :: 0 <= k < |r| ==> r[k] == s[page * ItemsPerPage + k])
  {
  }

  /**
   * The page index is not clamped: page -1 shows nothing, and page -2 of a
   * list of at least 16 items shows the 8 items that end 8 before the end.
   */
  lemma NegativePagesAreNotClamped<T>(s: seq<T>)
    ensures PageItems(s, -1) == []
    ensures |s| >= 16 ==> PageItems(s, -2) == s[|s| - 16..|s| - 8]
  {
  }

  // ---------------------------------------------------------------------------
  // Item rows: one single-button row per item that renders
  // ---------------------------------------------------------------------------

  /** The rows the builders' `for item in page_items` loops append. */
  function ItemRows<T>(items: seq<T>, render: T -> Option<Button>): Keyboard
  {
    if items == [] then []
    else
      ItemRows(items[..|items| - 1], render)
      + (match render(items[|items| - 1]) case Some(b) => [[b]] case None => [])
  }

  /** Item rows compose over concatenation: each item contributes its own row, or none. */
  lemma {:induction false} ItemRowsAppend<T>(a: seq<T>, b: seq<T>, render: T -> Option<Button>)
    ensures ItemRows(a + b, render) == ItemRows(a, render) + ItemRows(b, render)
    decreases |b|
  {
    if b == [] {
      assert a + b == a;
    } else {
      var b' := b[..|b| - 1];
      assert (a + b)[..|a + b| - 1] == a + b';
      ItemRowsAppend(a, b', render);
    }
  }

  /** Every item row is a single button that some item of the list rendered to. */
  lemma {:induction false} ItemRowsFromItems<T>(items: seq<T>, render: T -> Option<Button>, i: nat)
    requires i < |ItemRows(items, render)|
    ensures |ItemRows(items, render)[i]| == 1
    ensures exists k :: 0 <= k < |items| && render(items[k]) == Some(ItemRows(items, render)[i][0])
    decreases |items|
  {
    var prefix := items[..|items| - 1];
    var rows := ItemRows(prefix, render);
    if i < |rows| {
      ItemRowsFromItems(prefix, render, i);
      var k :| 0 <= k < |prefix| && render(prefix[k]) == Some(rows[i][0]);
      assert items[k] == prefix[k];
    } else {
      assert render(items[|items| - 1]) == Some(ItemRows(items, render)[i][0]);
    }
  }

  /** When every item renders, there is exactly one row per item, in order. */
  lemma {:induction false} ItemRowsTotal<T>(items: seq<T>, render: T -> Option<Button>)
    requires forall k :: 0 <= k < |items| ==> render(items[k]).Some?
    ensures |ItemRows(items, render)| == |items|
    ensures forall k :: 0 <= k < |items| ==> ItemRows(items, render)[k] == [render(items[k]).value]
    decreases |items|
  {
    if items != [] {
      var prefix := items[..|items| - 1];
      ItemRowsTotal(prefix, render);
    }
  }

  /** When no item renders (no id or code anywhere), there are no item rows. */
  lemma {:induction false} ItemRowsNone<T>(items: seq<T>, render: T -> Option<Button>)
    requires forall k :: 0 <= k < |items| ==> render(items[k]).None?
    ensures ItemRows(items, render) == []
    decreases |items|
  {
    if items != [] {
      ItemRowsNone(items[..|items| - 1], render);
    }
  }

  // ---------------------------------------------------------------------------
  // Pagination controls
  // ---------------------------------------------------------------------------

  /** `ceil(total / ITEMS_PER_PAGE)` as the source computes it. */
  function TotalPages(total: int): int
  {
    (total + ItemsPerPage - 1) / ItemsPerPage
  }

  /** The `payload_str` part: the parts joined by `_` plus a trailing `_`, or nothing. */
  function PayloadPart(parts: seq<string>): string
  {
    if parts == [] then "" else Join(parts, '_') + "_"
  }

  /** Callback data of a page control. */
  function PageCallback(prefix: string, parts: seq<string>, page: int): string
  {
    prefix + PayloadPart(parts) + IntToString(page)
  }

  /** The rows `_add_pagination_buttons` appends: none, or one row of controls. */
  function PaginationRows(page: int, total: int, prefix: string, parts: seq<string>): Keyboard
  {
    if total <= ItemsPerPage then []
    else
      var prev := if page > 0 then [Button(PreviousLabel, PageCallback(prefix, parts, page - 1))] else [];
      var next := if page < TotalPages(total) - 1 then [Button(NextLabel, PageCallback(prefix, parts, page + 1))] else [];
      if prev + next == [] then [] else [prev + next]
  }

  /** A keyboard being assembled; the builders append rows to it in place. */
  class KeyboardBuilder {
    var rows: Keyboard

    constructor()
      ensures rows == []
    {
      rows := [];
    }

    method AppendRow(row: Row)
      modifies this
      ensures rows == old(rows) + [row]
    {
      rows := rows + [row];
    }

    /** `_add_pagination_buttons(keyboard, current_page, total_items, prefix, payload_parts)`. */
    method AddPaginationButtons(page: int, total: int, prefix: string, parts: seq<string>)
      modifies this
      ensures rows == old(rows) + PaginationRows(page, total, prefix, parts)
    {
      if total <= ItemsPerPage {
        return;
      }
      var totalPages := (total + ItemsPerPage - 1) / ItemsPerPage;
      var row: Row := [];
      var payload := if parts != [] then Join(parts, '_') + "_" else "";
      if page > 0 {
        row := row + [Button(PreviousLabel, prefix + payload + IntToString(page - 1))];
      }
      if page < totalPages - 1 {
        row := row + [Button(NextLabel, prefix + payload + IntToString(page + 1))];
      }
      assert row == (if page > 0 then [Button(PreviousLabel, PageCallback(prefix, parts, page - 1))] else [])
        + (if page < TotalPages(total) - 1 then [Button(NextLabel, PageCallback(prefix, parts, page + 1))] else []);
      if row != [] {
        rows := rows + [row];
      }
    }
  }

  /** With at most `ITEMS_PER_PAGE` items (an empty list included) there are no controls. */
  lemma NoControlsForShortLists(page: int, total: int, prefix: string, parts: seq<string>)
    requires total <= ItemsPerPage
    ensures PaginationRows(page, total, prefix, parts) == []
  {
  }

  /** "Next" is offered exactly when items remain after page `p`: `p < ceil(n/8) - 1` iff `8(p+1) < n`. */
  lemma {:induction false} NextMeansMoreItems(page: int, total: int)
    ensures page < TotalPages(total) - 1 <==> (page + 1) * ItemsPerPage < total
  {
    var q := TotalPages(total);
    assert q * 8 <= total + 7 < q * 8 + 8;
    if page < q - 1 {
      assert (page + 1) * 8 <= (q - 1) * 8;
    } else {
      assert (page + 1) * 8 >= q * 8;
    }
  }

  /**
   * For more than `ITEMS_PER_PAGE` items: "Previous" (target `p-1`) is present
   * iff `p > 0`, "Next" (target `p+1`) iff `p < ceil(n/8) - 1`, Previous
   * comes first, and an empty row is never appended.
   */
  lemma PaginationControls(page: int, total: int, prefix: string, parts: seq<string>)
    requires total > ItemsPerPage
    ensures var rows := PaginationRows(page, total, prefix, parts);
      var hasPrev := page > 0;
      var hasNext := page < TotalPages(total) - 1;
      && (|rows| == 1 <==> hasPrev || hasNext)
      && (rows == [] <==> !hasPrev && !hasNext)
      && (|rows| == 1 ==> |rows[0]| == (if hasPrev then 1 else 0) + (if hasNext then 1 else 0))
      && (hasPrev ==> rows[0][0] == Button(PreviousLabel, PageCallback(prefix, parts, page - 1)))
      && (hasNext ==> rows[0][|rows[0]| - 1] == Button(NextLabel, PageCallback(prefix, parts, page + 1)))
  {
  }

  /** Every page control's data starts with the list's prefix. */
  lemma PaginationDataPrefixed(page: int, total: int, prefix: string, parts: seq<string>)
    ensures var kb := PaginationRows(page, total, prefix, parts);
      forall i, j :: 0 <= i < |kb| && 0 <= j < |kb[i]| ==> prefix <= kb[i][j].data
  {
    var kb: Keyboard := PaginationRows(page, total, prefix, parts);
    forall i, j | 0 <= i < |kb| && 0 <= j < |kb[i]|
      ensures prefix <= kb[i][j].data
    {
      var d := kb[i][j].data;
      assert d == PageCallback(prefix, parts, page - 1) || d == PageCallback(prefix, parts, page + 1);
    }
  }

  // ---------------------------------------------------------------------------
  // Search results keyboard
  // ---------------------------------------------------------------------------

  /** The `item_id` of a search hit, as `str(item_id)`, when it is truthy. */
  function SearchItemId(item: SearchItem, searchType: string): Option<string>
  {
    if searchType == "course" then (if Truthy(item.code) then item.code else None)
    else if item.id.Some? && item.id.value != 0 then Some(IntToString(item.id.value))
    else None
  }

  /** The button text of a search hit before truncation. */
  function SearchItemText(item: SearchItem, searchType: string): string
    requires SearchItemId(item, searchType).Some?
  {
    if searchType == "course" then
      var code := item.code.value;
      var title := if item.name.Some? then item.name else item.code;
      if Truthy(title) && title.value != code then code + " - " + title.value else code
    else
      if item.name.Some? then item.name.value else "Prof ID " + IntToString(item.id.value)
  }

  function SelectPrefix(searchType: string): string
  {
    if searchType == "course" then CourseSelectPrefix else ProfSelectPrefix
  }

  function PagePrefix(searchType: string): string
  {
    if searchType == "course" then PageCourseSearchResultsPrefix else PageProfSearchResultsPrefix
  }

  /** The row for one search hit, or none when it has no id. */
  function SearchItemButton(item: SearchItem, searchType: string): Option<Button>
  {
    match SearchItemId(item, searchType)
    case None => None
    case Some(id) => Some(Button(Take(SearchItemText(item, searchType), LabelLimit), SelectPrefix(searchType) + id))
  }

  function SearchRender(searchType: string): SearchItem -> Option<Button>
  {
    item => SearchItemButton(item, searchType)
  }

  function SearchResultsFooter(searchType: string): Row
  {
    [Button("\U{2B05}\U{FE0F} Re-enter Search",
            if searchType == "course" then BackToTypingCourse else BackToTypingProf),
     Button(CancelLabel, Cancel)]
  }

  /** `create_search_results_keyboard(all_results, search_type, current_page)`. */
  function SearchResultsKeyboard(all: seq<SearchItem>, searchType: string, page: int): Keyboard
  {
    ItemRows(PageItems(all, page), SearchRender(searchType))
    + PaginationRows(page, |all|, PagePrefix(searchType), [])
    + [SearchResultsFooter(searchType)]
  }

  method CreateSearchResultsKeyboard(all: seq<SearchItem>, searchType: string, page: int) returns (kb: Keyboard)
    ensures kb == SearchResultsKeyboard(all, searchType, page)
  {
    var builder := new KeyboardBuilder();
    var prefix := if searchType == "course" then CourseSelectPrefix else ProfSelectPrefix;
    var pageItems := PySlice(all, page * ItemsPerPage, page * ItemsPerPage + ItemsPerPage);
    for i := 0 to |pageItems|
      invariant builder.rows == ItemRows(pageItems[..i], SearchRender(searchType))
    {
      assert pageItems[..i + 1][..i] == pageItems[..i];
      var item := pageItems[i];
      var itemId := SearchItemId(item, searchType);
      if itemId.Some? {
        builder.AppendRow([Button(Take(SearchItemText(item, searchType), LabelLimit), prefix + itemId.value)]);
      }
    }
    assert pageItems[..|pageItems|] == pageItems;
    var pagePrefix := if searchType == "course" then PageCourseSearchResultsPrefix else PageProfSearchResultsPrefix;
    builder.AddPaginationButtons(page, |all|, pagePrefix, []);
    var back := if searchType == "course" then BackToTypingCourse else BackToTypingProf;
    builder.AppendRow([Button("\U{2B05}\U{FE0F} Re-enter Search", back), Button(CancelLabel, Cancel)]);
    kb := builder.rows;
  }

  // ---------------------------------------------------------------------------
  // A professor's course list
  // ---------------------------------------------------------------------------

  /** The row for one course of a professor, or none when it has no code. */
  function CourseEntryButton(item: CourseEntry, profIdStr: string): Option<Button>
  {
    if !Truthy(item.courseCode) then None
    else
      var code := item.courseCode.value;
      var text := if Truthy(item.courseName) && item.courseName.value != code
                  then code + " - " + item.courseName.value else code;
      Some(Button(Take(text, LabelLimit), CourseSelectPrefix + code + "|prof|" + profIdStr))
  }

  function CourseRender(profIdStr: string): CourseEntry -> Option<Button>
  {
    item => CourseEntryButton(item, profIdStr)
  }

  function ProfCourseFooter(): Row
  {
    [Button("\U{2B05}\U{FE0F} Different Professor", BackToProfSearchList), Button(CancelLabel, Cancel)]
  }

  /** `create_prof_course_selection_keyboard(courses, prof_id_str, current_page)`. */
  function ProfCourseSelectionKeyboard(courses: seq<CourseEntry>, profIdStr: string, page: int): Keyboard
  {
    ItemRows(PageItems(courses, page), CourseRender(profIdStr))
    + PaginationRows(page, |courses|, PageProfCourseListPrefix, [profIdStr])
    + [ProfCourseFooter()]
  }

  /** The loop adding one row per course of the page that has a code. */
  method AppendCourseRows(builder: KeyboardBuilder, pageItems: seq<CourseEntry>, profIdStr: string)
    modifies builder
    ensures builder.rows == old(builder.rows) + ItemRows(pageItems, CourseRender(profIdStr))
  {
    for i := 0 to |pageItems|
      invariant builder.rows == old(builder.rows) + ItemRows(pageItems[..i], CourseRender(profIdStr))
    {
      assert pageItems[..i + 1][..i] == pageItems[..i];
      var item := pageItems[i];
      var code := item.courseCode;
      var title := item.courseName;
      if !Truthy(code) {
        continue;
      }
      var text := if Truthy(title) && title.value != code.value then code.value + " - " + title.value else code.value;
      builder.AppendRow([Button(Take(text, LabelLimit), CourseSelectPrefix + code.value + "|prof|" + profIdStr)]);
    }
    assert pageItems[..|pageItems|] == pageItems;
  }

  method CreateProfCourseSelectionKeyboard(courses: seq<CourseEntry>, profIdStr: string, page: int)
    returns (kb: Keyboard)
    ensures kb == ProfCourseSelectionKeyboard(courses, profIdStr, page)
  {
    var builder := new KeyboardBuilder();
    var pageItems := PySlice(courses, page * ItemsPerPage, page * ItemsPerPage + ItemsPerPage);
    ghost var items := ItemRows(pageItems, CourseRender(profIdStr));
    AppendCourseRows(builder, pageItems, profIdStr);
    assert builder.rows == items;
    ghost var nav := PaginationRows(page, |courses|, PageProfCourseListPrefix, [profIdStr]);
    builder.AddPaginationButtons(page, |courses|, PageProfCourseListPrefix, [profIdStr]);
    assert builder.rows == items + nav;
    builder.AppendRow(ProfCourseFooter());
    assert pageItems == PageItems(courses, page);
    kb := builder.rows;
  }

  // ---------------------------------------------------------------------------
  // Year/semester picker: de-duplication
  // ---------------------------------------------------------------------------

  type TermKey = (string, string)
  type TermDict = seq<(TermKey, Offering)>

  /** `(academic_year, semester)` when both are truthy (`all(key)`). */
  function KeyOfTerm(t: Offering): Option<TermKey>
  {
    if Truthy(t.year) && Truthy(t.semester) then Some((t.year.value, t.semester.value)) else None
  }

  function Keys(d: TermDict): (ks: seq<TermKey>)
    ensures |ks| == |d|
    ensures forall i :: 0 <= i < |d| ==> ks[i] == d[i].0
  {
    if d == [] then [] else [d[0].0] + Keys(d[1..])
  }

  predicate Distinct(ks: seq<TermKey>)
  {
    forall i, j :: 0 <= i < j < |ks| ==> ks[i] != ks[j]
  }

  /** `d[k] = v` on an insertion-ordered dict: an existing key keeps its place, a new one goes last. */
  function DictPut(d: TermDict, k: TermKey, v: Offering): (r: TermDict)
    ensures Keys(r) == if k in Keys(d) then Keys(d) else Keys(d) + [k]
    ensures forall e :: e in r ==> e == (k, v) || e in d
  {
    if d == [] then [(k, v)]
    else if d[0].0 == k then [(k, v)] + d[1..]
    else
      assert k in Keys(d) <==> k in Keys(d[1..]);
      [d[0]] + DictPut(d[1..], k, v)
  }

  function DictGet(d: TermDict, k: TermKey): Option<Offering>
  {
    if d == [] then None else if d[0].0 == k then Some(d[0].1) else DictGet(d[1..], k)
  }

  function DictValues(d: TermDict): (vs: seq<Offering>)
    ensures |vs| == |d|
    ensures forall i :: 0 <= i < |d| ==> vs[i] == d[i].1
  {
    if d == [] then [] else [d[0].1] + DictValues(d[1..])
  }

  /** `unique_terms` after the de-duplication loop over `terms`. */
  function UniqueTerms(terms: seq<Offering>): TermDict
  {
    if terms == [] then []
    else
      var d := UniqueTerms(terms[..|terms| - 1]);
      match KeyOfTerm(terms[|terms| - 1])
      case None => d
      case Some(k) => DictPut(d, k, terms[|terms| - 1])
  }

  /** The last term of `terms` whose year and semester are the key `k`. */
  function LastWithKey(terms: seq<Offering>, k: TermKey): Option<Offering>
  {
    if terms == [] then None
    else if KeyOfTerm(terms[|terms| - 1]) == Some(k) then Some(terms[|terms| - 1])
    else LastWithKey(terms[..|terms| - 1], k)
  }

  lemma {:induction false} DictPutGet(d: TermDict, k: TermKey, v: Offering, k': TermKey)
    ensures DictGet(DictPut(d, k, v), k') == if k' == k then Some(v) else DictGet(d, k')
    decreases |d|
  {
    if d != [] && d[0].0 != k {
      DictPutGet(d[1..], k, v, k');
    }
  }

  /** In a dict without repeated keys, each entry is what looking up its key finds. */
  lemma {:induction false} DictGetEntry(d: TermDict, i: nat)
    requires Distinct(Keys(d)) && i < |d|
    ensures DictGet(d, d[i].0) == Some(d[i].1)
    decreases |d|
  {
    if i > 0 {
      assert Keys(d)[0] != Keys(d)[i];
      assert Keys(d[1..]) == Keys(d)[1..];
      DictGetEntry(d[1..], i - 1);
    }
  }

  lemma {:induction false} DictGetValue(d: TermDict, k: TermKey)
    ensures DictGet(d, k).Some? ==> DictGet(d, k).value in DictValues(d)
    decreases |d|
  {
    if d != [] && d[0].0 != k {
      DictGetValue(d[1..], k);
    }
  }

  /**
   * De-duplication keeps, for every `(academic_year, semester)` key that
   * occurs with both parts truthy, the LAST term with that key, in the
   * position of the key's first occurrence; no key appears twice; every kept
   * term carries its own key; terms lacking a part are dropped.
   */
  lemma {:induction false} UniqueTermsSpec(terms: seq<Offering>)
    ensures var d := UniqueTerms(terms);
      && Distinct(Keys(d))
      && (forall e :: e in d ==> KeyOfTerm(e.1) == Some(e.0))
      && (forall k :: DictGet(d, k) == LastWithKey(terms, k))
    decreases |terms|
  {
    if terms != [] {
      var prefix := terms[..|terms| - 1];
      UniqueTermsSpec(prefix);
      var last := terms[|terms| - 1];
      match KeyOfTerm(last)
      case None =>
      case Some(k) =>
        forall k' ensures DictGet(UniqueTerms(terms), k') == LastWithKey(terms, k') {
          DictPutGet(UniqueTerms(prefix), k, last, k');
        }
    }
  }

  /**
   * Each value of the de-duplicated dict carries a truthy key and is the last
   * term with that key; the last term with any key is among the values.
   */
  lemma UniqueTermsValues(terms: seq<Offering>)
    ensures forall t :: t in DictValues(UniqueTerms(terms)) ==>
      KeyOfTerm(t).Some? && LastWithKey(terms, KeyOfTerm(t).value) == Some(t)
    ensures forall t, k :: LastWithKey(terms, k) == Some(t) ==> t in DictValues(UniqueTerms(terms))
  {
    var d := UniqueTerms(terms);
    UniqueTermsSpec(terms);
    forall t | t in DictValues(d) ensures KeyOfTerm(t).Some? && LastWithKey(terms, KeyOfTerm(t).value) == Some(t) {
      var i :| 0 <= i < |d| && DictValues(d)[i] == t;
      assert d[i] in d;
      DictGetEntry(d, i);
      assert DictGet(d, d[i].0) == LastWithKey(terms, d[i].0);
    }
    forall t, k | LastWithKey(terms, k) == Some(t) ensures t in DictValues(d) {
      assert DictGet(d, k) == LastWithKey(terms, k);
      DictGetValue(d, k);
    }
  }

  // ---------------------------------------------------------------------------
  // Year/semester picker: ordering (newest first)
  // ---------------------------------------------------------------------------

  /** `sem_map.get(semester, 99)`. */
  function SemesterRank(semester: string): int
  {
    if semester == "Odd" then 1 else if semester == "Even" then 2 else if semester == "Summer" then 3 else 99
  }

  /** The sort key `(-int(year.split('-')[0]), rank)`; `None` is the `ValueError` of `int()`. */
  function TermSortKey(t: Offering): Option<SortKey>
  {
    if t.year.None? || t.semester.None? then None
    else
      match ParseInt(Split(t.year.value, '-')[0])
      case None => None
      case Some(y) => Some((-y, SemesterRank(t.semester.value)))
  }

  /** The order key of a term whose sort key exists. */
  function OrderKey(t: Offering): SortKey
  {
    TermSortKey(t).GetOr((0, 0))
  }

  function OrderKeyFn(): Offering -> SortKey
  {
    t => OrderKey(t)
  }

  function HasKey(k: TermKey): Offering -> bool
  {
    t => KeyOfTerm(t) == Some(k)
  }

  lemma {:induction false} CountKeyValues(d: TermDict, k: TermKey)
    requires Distinct(Keys(d))
    requires forall e :: e in d ==> KeyOfTerm(e.1) == Some(e.0)
    ensures CountWhere(DictValues(d), HasKey(k)) == if k in Keys(d) then 1 else 0
    decreases |d|
  {
    if d != [] {
      var rest := d[1..];
      var ks := Keys(d);
      assert Keys(rest) == ks[1..];
      assert Distinct(Keys(rest));
      assert forall e :: e in rest ==> e in d;
      CountKeyValues(rest, k);
      var vs := DictValues(d);
      assert vs[1..] == DictValues(rest);
      assert d[0] in d;
      assert HasKey(k)(vs[0]) <==> d[0].0 == k;
      assert k in ks <==> d[0].0 == k || k in Keys(rest);
      if d[0].0 == k {
        assert k !in Keys(rest);
      }
    }
  }

  /** The terms `create_year_semester_keyboard` lists, newest first, or `None` on a `ValueError`. */
  function OrderedTerms(terms: seq<Offering>): Option<seq<Offering>>
  {
    if TermsSortable(terms) then Some(Sorted(DictValues(UniqueTerms(terms)), OrderKeyFn())) else None
  }

  /** Every kept term has a sort key: the sort raises no `ValueError`. */
  predicate TermsSortable(terms: seq<Offering>)
  {
    var vs := DictValues(UniqueTerms(terms));
    forall i :: 0 <= i < |vs| ==> TermSortKey(vs[i]).Some?
  }

  /** The picker fails exactly when the start year of a kept term does not parse. */
  lemma OrderedTermsFails(terms: seq<Offering>)
    ensures OrderedTerms(terms).None? <==>
      exists k :: LastWithKey(terms, k).Some? && TermSortKey(LastWithKey(terms, k).value).None?
  {
    var vs := DictValues(UniqueTerms(terms));
    UniqueTermsValues(terms);
    if OrderedTerms(terms).None? {
      var i :| 0 <= i < |vs| && TermSortKey(vs[i]).None?;
      assert vs[i] in vs;
      var k := KeyOfTerm(vs[i]).value;
      assert LastWithKey(terms, k) == Some(vs[i]);
    } else {
      forall k | LastWithKey(terms, k).Some? ensures TermSortKey(LastWithKey(terms, k).value).Some? {
        var t := LastWithKey(terms, k).value;
        assert t in vs;
        var i :| 0 <= i < |vs| && vs[i] == t;
      }
    }
  }

  /**
   * Otherwise it lists exactly the last occurrence of every distinct truthy
   * year/semester, each key once, and every listed term has a sort key.
   */
  lemma OrderedTermsContents(terms: seq<Offering>)
    requires OrderedTerms(terms).Some?
    ensures var ts := OrderedTerms(terms).value;
      && (forall t :: t in ts ==> KeyOfTerm(t).Some? && LastWithKey(terms, KeyOfTerm(t).value) == Some(t))
      && (forall t, k :: LastWithKey(terms, k) == Some(t) ==> t in ts)
      && (forall k :: CountWhere(ts, HasKey(k)) <= 1)
      && (forall t :: t in ts ==> TermSortKey(t).Some?)
  {
    var d := UniqueTerms(terms);
    var vs := DictValues(d);
    UniqueTermsSpec(terms);
    UniqueTermsValues(terms);
    var ts := Sorted(vs, OrderKeyFn());
    assert OrderedTerms(terms).value == ts;
    forall t | t in ts ensures t in vs {
      assert t in multiset(ts);
    }
    forall t | t in vs ensures t in ts {
      assert t in multiset(vs);
    }
    forall t | t in ts ensures TermSortKey(t).Some? {
      var i :| 0 <= i < |vs| && vs[i] == t;
    }
    forall k ensures CountWhere(ts, HasKey(k)) <= 1 {
      CountWhereSorted(vs, OrderKeyFn(), HasKey(k));
      CountKeyValues(d, k);
    }
  }

  /**
   * The listed terms are sorted newest start year first and Odd, Even,
   * Summer, then anything else within a year; terms with equal keys keep the
   * order in which their year/semester first appeared.
   */
  lemma OrderedTermsOrder(terms: seq<Offering>)
    requires OrderedTerms(terms).Some?
    ensures var ts := OrderedTerms(terms).value;
      && SortedBy(ts, OrderKeyFn())
      && (forall k :: TiesOf(ts, OrderKeyFn(), k) == TiesOf(DictValues(UniqueTerms(terms)), OrderKeyFn(), k))
  {
    SortedSpec(DictValues(UniqueTerms(terms)), OrderKeyFn());
  }

  // ---------------------------------------------------------------------------
  // Year/semester picker: the keyboard
  // ---------------------------------------------------------------------------

  /** One term's row: `"{y} ({s})"` selecting `ysel_{y}|{s}|{mode}|{back_id}`. */
  function TermButton(t: Offering, mode: string, backId: string): Option<Button>
  {
    var y := t.year.GetOr("");
    var s := t.semester.GetOr("");
    Some(Button(y + " (" + s + ")", YearSemSelectPrefix + y + "|" + s + "|" + mode + "|" + backId))
  }

  function TermRender(mode: string, backId: string): Offering -> Option<Button>
  {
    t => TermButton(t, mode, backId)
  }

  function YearSemesterFooter(mode: string, backId: string): Row
  {
    [Button("\U{2B05}\U{FE0F} Back",
            if mode == "course" then BackToCourseSearchList else BackToProfCourseListPrefix + backId),
     Button(CancelLabel, Cancel)]
  }

  /** `create_year_semester_keyboard(terms, back_id, mode, current_page)`; `None` is the `ValueError`. */
  function YearSemesterKeyboard(terms: seq<Offering>, backId: string, mode: string, page: int): Option<Keyboard>
  {
    match OrderedTerms(terms)
    case None => None
    case Some(ts) =>
      Some(ItemRows(PageItems(ts, page), TermRender(mode, backId))
           + PaginationRows(page, |ts|, PageYearSemesterPrefix, [mode, backId])
           + [YearSemesterFooter(mode, backId)])
  }

  /** The loop filling `unique_terms`: one entry per truthy `(year, semester)`, the last term winning. */
  method CollectTerms(terms: seq<Offering>) returns (unique: TermDict)
    ensures unique == UniqueTerms(terms)
  {
    unique := [];
    for i := 0 to |terms|
      invariant unique == UniqueTerms(terms[..i])
    {
      assert terms[..i + 1][..i] == terms[..i];
      var t := terms[i];
      if Truthy(t.year) && Truthy(t.semester) {
        unique := DictPut(unique, (t.year.value, t.semester.value), t);
      }
    }
    assert terms[..|terms|] == terms;
  }

  /** The loop adding one `ysel_` row per term of the page. */
  method AppendTermRows(builder: KeyboardBuilder, pageItems: seq<Offering>, mode: string, backId: string)
    modifies builder
    ensures builder.rows == old(builder.rows) + ItemRows(pageItems, TermRender(mode, backId))
  {
    for i := 0 to |pageItems|
      invariant builder.rows == old(builder.rows) + ItemRows(pageItems[..i], TermRender(mode, backId))
    {
      assert pageItems[..i + 1][..i] == pageItems[..i];
      var y, s := pageItems[i].year.GetOr(""), pageItems[i].semester.GetOr("");
      builder.AppendRow([Button(y + " (" + s + ")", YearSemSelectPrefix + y + "|" + s + "|" + mode + "|" + backId)]);
    }
    assert pageItems[..|pageItems|] == pageItems;
  }

  method CreateYearSemesterKeyboard(terms: seq<Offering>, backId: string, mode: string, page: int)
    returns (kb: Option<Keyboard>)
    ensures kb == YearSemesterKeyboard(terms, backId, mode, page)
  {
    var unique := CollectTerms(terms);
    var values := DictValues(unique);
    if exists i :: 0 <= i < |values| && TermSortKey(values[i]).None? {
      assert OrderedTerms(terms).None?;
      return None;
    }
    var sorted := Sorted(values, OrderKeyFn());
    var builder := new KeyboardBuilder();
    var pageItems := PySlice(sorted, page * ItemsPerPage, page * ItemsPerPage + ItemsPerPage);
    ghost var items := ItemRows(pageItems, TermRender(mode, backId));
    AppendTermRows(builder, pageItems, mode, backId);
    assert builder.rows == items;
    ghost var nav := PaginationRows(page, |sorted|, PageYearSemesterPrefix, [mode, backId]);
    builder.AddPaginationButtons(page, |sorted|, PageYearSemesterPrefix, [mode, backId]);
    assert builder.rows == items + nav;
    builder.AppendRow(YearSemesterFooter(mode, backId));
    assert pageItems == PageItems(sorted, page);
    kb := Some(builder.rows);
    YearSemesterKeyboardOf(terms, backId, mode, page, sorted);
  }

  lemma YearSemesterKeyboardOf(terms: seq<Offering>, backId: string, mode: string, page: int, sorted: seq<Offering>)
    requires forall i :: 0 <= i < |DictValues(UniqueTerms(terms))| ==> TermSortKey(DictValues(UniqueTerms(terms))[i]).Some?
    requires sorted == Sorted(DictValues(UniqueTerms(terms)), OrderKeyFn())
    ensures YearSemesterKeyboard(terms, backId, mode, page)
         == Some(ItemRows(PageItems(sorted, page), TermRender(mode, backId))
                 + PaginationRows(page, |sorted|, PageYearSemesterPrefix, [mode, backId])
                 + [YearSemesterFooter(mode, backId)])
  {
    assert OrderedTerms(terms) == Some(sorted);
  }

  /** Every rendered item of a list selects with the list's prefix. */
  lemma RenderedDataPrefixed(searchType: string, profIdStr: string, mode: string, backId: string)
    ensures forall x :: SearchRender(searchType)(x).Some? ==>
              SelectPrefix(searchType) <= SearchRender(searchType)(x).value.data
    ensures forall x :: CourseRender(profIdStr)(x).Some? ==>
              CourseSelectPrefix <= CourseRender(profIdStr)(x).value.data
    ensures forall x :: TermRender(mode, backId)(x).Some? ==>
              YearSemSelectPrefix <= TermRender(mode, backId)(x).value.data
  {
    forall x | SearchRender(searchType)(x).Some?
      ensures SelectPrefix(searchType) <= SearchRender(searchType)(x).value.data
    {
      var id := SearchItemId(x, searchType).value;
      assert SearchRender(searchType)(x).value.data == SelectPrefix(searchType) + id;
    }
    forall x | CourseRender(profIdStr)(x).Some?
      ensures CourseSelectPrefix <= CourseRender(profIdStr)(x).value.data
    {
      var code := x.courseCode.value;
      assert CourseRender(profIdStr)(x).value.data == CourseSelectPrefix + (code + "|prof|" + profIdStr);
    }
    forall x | TermRender(mode, backId)(x).Some?
      ensures YearSemSelectPrefix <= TermRender(mode, backId)(x).value.data
    {
      var y, sem := x.year.GetOr(""), x.semester.GetOr("");
      assert TermRender(mode, backId)(x).value.data == YearSemSelectPrefix + (y + "|" + sem + "|" + mode + "|" + backId);
    }
  }

  // ---------------------------------------------------------------------------
  // Layout facts about the list keyboards
  // ---------------------------------------------------------------------------

  /**
   * A search results page: one row per hit on the page that has an id, each
   * labelled with at most 60 characters of its text and selecting
   * `cs_<code>` or `ps_<id>`; then the page controls; the last row is
   * always "Re-enter Search" and "Cancel".
   */
  lemma SearchResultsLayout(all: seq<SearchItem>, searchType: string, page: int)
    ensures var kb := SearchResultsKeyboard(all, searchType, page);
      var items := ItemRows(PageItems(all, page), SearchRender(searchType));
      && kb[|kb| - 1] == SearchResultsFooter(searchType)
      && |kb| == |items| + |PaginationRows(page, |all|, PagePrefix(searchType), [])| + 1
      && |items| <= ItemsPerPage
      && forall i :: 0 <= i < |items| ==>
           |kb[i]| == 1 && |kb[i][0].text| <= LabelLimit
           && exists item :: item in PageItems(all, page) && SearchItemId(item, searchType).Some?
                && kb[i][0].data == SelectPrefix(searchType) + SearchItemId(item, searchType).value
  {
    var kb: Keyboard := SearchResultsKeyboard(all, searchType, page);
    var pageItems := PageItems(all, page);
    var items := ItemRows(pageItems, SearchRender(searchType));
    ItemRowsCount(pageItems, SearchRender(searchType));
    forall i | 0 <= i < |items|
      ensures |kb[i]| == 1 && |kb[i][0].text| <= LabelLimit
      ensures exists item :: item in pageItems && SearchItemId(item, searchType).Some?
                && kb[i][0].data == SelectPrefix(searchType) + SearchItemId(item, searchType).value
    {
      ItemRowsFromItems(pageItems, SearchRender(searchType), i);
      var k :| 0 <= k < |pageItems| && SearchRender(searchType)(pageItems[k]) == Some(items[i][0]);
      assert kb[i] == items[i];
      assert pageItems[k] in pageItems;
    }
  }

  /** There are never more item rows than items. */
  lemma {:induction false} ItemRowsCount<T>(items: seq<T>, render: T -> Option<Button>)
    ensures |ItemRows(items, render)| <= |items|
    decreases |items|
  {
    if items != [] {
      ItemRowsCount(items[..|items| - 1], render);
    }
  }

  /**
   * A professor's course page: one row per course on the page with a code,
   * labelled with at most 60 characters and selecting
   * `cs_<code>|prof|<prof id>`; the last row is "Different Professor" and
   * "Cancel".
   */
  lemma ProfCourseSelectionLayout(courses: seq<CourseEntry>, profIdStr: string, page: int)
    ensures var kb := ProfCourseSelectionKeyboard(courses, profIdStr, page);
      var items := ItemRows(PageItems(courses, page), CourseRender(profIdStr));
      && kb[|kb| - 1] == ProfCourseFooter()
      && |items| <= ItemsPerPage
      && forall i :: 0 <= i < |items| ==>
           |kb[i]| == 1 && |kb[i][0].text| <= LabelLimit
           && exists c :: c in PageItems(courses, page) && Truthy(c.courseCode)
                && kb[i][0].data == CourseSelectPrefix + c.courseCode.value + "|prof|" + profIdStr
  {
    var kb: Keyboard := ProfCourseSelectionKeyboard(courses, profIdStr, page);
    var pageItems := PageItems(courses, page);
    var items := ItemRows(pageItems, CourseRender(profIdStr));
    ItemRowsCount(pageItems, CourseRender(profIdStr));
    forall i | 0 <= i < |items|
      ensures |kb[i]| == 1 && |kb[i][0].text| <= LabelLimit
      ensures exists c :: c in pageItems && Truthy(c.courseCode)
                && kb[i][0].data == CourseSelectPrefix + c.courseCode.value + "|prof|" + profIdStr
    {
      ItemRowsFromItems(pageItems, CourseRender(profIdStr), i);
      var k :| 0 <= k < |pageItems| && CourseRender(profIdStr)(pageItems[k]) == Some(items[i][0]);
      assert kb[i] == items[i];
      assert pageItems[k] in pageItems;
    }
  }

  /**
   * The picker shows one row per listed term of the page, in order, each
   * selecting `ysel_<year>|<semester>|<mode>|<back id>`; its last row goes
   * back to the course search list in course mode and to
   * `back_prof_crs_list_<back id>` otherwise.
   */
  lemma YearSemesterLayout(terms: seq<Offering>, all: seq<Offering>, backId: string, mode: string, page: int)
    requires OrderedTerms(terms) == Some(all)
    ensures forall t :: t in all ==> t.year.Some? && t.semester.Some?
    ensures YearSemesterKeyboard(terms, backId, mode, page).Some?
    ensures var ts := PageItems(all, page);
      var kb := YearSemesterKeyboard(terms, backId, mode, page).value;
      && |kb| > |ts|
      && kb[|kb| - 1] == YearSemesterFooter(mode, backId)
      && forall i :: 0 <= i < |ts| ==> kb[i] == [TermButton(ts[i], mode, backId).value]
  {
    var ts := PageItems(all, page);
    var items := ItemRows(ts, TermRender(mode, backId));
    var kb := items + PaginationRows(page, |all|, PageYearSemesterPrefix, [mode, backId]) + [YearSemesterFooter(mode, backId)];
    assert YearSemesterKeyboard(terms, backId, mode, page) == Some(kb);
    OrderedTermsKeyed(terms);
    ItemRowsTotal(ts, TermRender(mode, backId));
  }

  lemma OrderedTermsKeyed(terms: seq<Offering>)
    requires OrderedTerms(terms).Some?
    ensures forall t :: t in OrderedTerms(terms).value ==> t.year.Some? && t.semester.Some?
  {
    OrderedTermsContents(terms);
  }

  lemma PageItemsIn<T>(s: seq<T>, page: int)
    ensures forall x :: x in PageItems(s, page) ==> x in s
  {
  }

  // ---------------------------------------------------------------------------
  // Menus
  // ---------------------------------------------------------------------------

  /** `get_start_keyboard()`. */
  function StartKeyboard(): Keyboard
  {
    [[Button("\U{1F4DA} Search by Course (Code/Title)", CourseSearchMode)],
     [Button("\U{1F9D1}\U{200D}\U{1F3EB} Search by Professor", ProfSearchMode)]]
  }

  /** `get_cancel_keyboard()`. */
  function CancelKeyboard(): Keyboard
  {
    [[Button(CancelLabel, Cancel)]]
  }

  /** `get_restart_keyboard()`: the one button offered after an error. */
  function RestartKeyboard(): Keyboard
  {
    [[Button("\U{1F504} Restart Search", BackToMain)]]
  }

  /** `get_final_options_keyboard(course_code, search_mode, prof_id)`. */
  function FinalOptionsKeyboard(courseCode: string, searchMode: Option<string>, profId: Option<int>): Keyboard
  {
    [[Button("\U{2B05}\U{FE0F} Select Diff. Year/Sem", BackToYearSemSelectPrefix + courseCode)]]
    + (if searchMode == Some("course") then
         [[Button("\U{2B05}\U{FE0F} Select Diff. Course", BackToCourseListFromPlotPrefix + "course")]]
       else if searchMode == Some("prof") && profId.Some? && profId.value != 0 then
         [[Button("\U{2B05}\U{FE0F} Select Diff. Course", BackToCourseListFromPlotPrefix + "prof_" + IntToString(profId.value))]]
       else [])
    + [[Button("\U{1F504} New Search", BackToMain)]]
  }

  /**
   * After a plot the user can always change the term and start over; the
   * "Select Diff. Course" row appears exactly in course mode, or in
   * professor mode with a truthy professor id, and targets that list.
   */
  lemma FinalOptionsLayout(courseCode: string, searchMode: Option<string>, profId: Option<int>)
    ensures var kb := FinalOptionsKeyboard(courseCode, searchMode, profId);
      var middle := searchMode == Some("course") || (searchMode == Some("prof") && profId.Some? && profId.value != 0);
      && |kb| == (if middle then 3 else 2)
      && kb[0][0].data == BackToYearSemSelectPrefix + courseCode
      && kb[|kb| - 1][0].data == BackToMain
      && (searchMode == Some("course") ==> kb[1][0].data == "back_clp_course")
      && (searchMode == Some("prof") && profId.Some? && profId.value != 0 ==>
            kb[1][0].data == "back_clp_prof_" + IntToString(profId.value))
  {
  }

  /** `get_dossier_keyboard(prof_id)`. */
  function DossierKeyboard(profId: int): Keyboard
  {
    [[Button("\U{1F4DA} View All Courses Taught", ViewProfCoursesPrefix + IntToString(profId))],
     [Button("\U{2B05}\U{FE0F} Select Different Professor", BackToProfSearchList)],
     [Button("\U{1F504} New Search", BackToMain)]]
  }

  /** `get_feedback_type_keyboard()`; its cancel button sends the browsing flow's `cancel`. */
  function FeedbackTypeKeyboard(): Keyboard
  {
    [[Button("\U{1F41B} Bug Report", FeedbackTypeBug)],
     [Button("\U{1F4A1} Suggestion", FeedbackTypeSuggestion)],
     [Button("\U{1F5E3}\U{FE0F} General Feedback", FeedbackTypeGeneral)],
     [Button("\U{274C} Cancel Feedback", Cancel)]]
  }

  /** `get_feedback_entry_cancel_keyboard()`. */
  function FeedbackEntryCancelKeyboard(): Keyboard
  {
    [[Button("\U{21A9}\U{FE0F} Cancel & Change Type", CancelFeedback)]]
  }

  /** `get_feedback_confirmation_keyboard()`. */
  function FeedbackConfirmationKeyboard(): Keyboard
  {
    [[Button("\U{2705} Yes, send it", ConfirmSendFeedback)],
     [Button("\U{270F}\U{FE0F} Edit / Re-type", CancelFeedback)],
     [Button("\U{1F5D1}\U{FE0F} Discard", Cancel)]]
  }
}

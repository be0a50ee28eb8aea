/** Following `next_cursor` to the end: the export's drain over a fixed table, and drains
    during which the table grows, as it does when every page view writes its own audit row. */
module TimelineDrain {
  import opened Options
  import opened TimelineRows
  import opened TimelinePaging

  /** After a page that ends at position `k`, exactly the rows beyond `k` remain. */
  lemma RestAfterCut(table: seq<Row>, q: Query, sources: set<Source>, c: Option<Key>, k: nat)
    requires DistinctKeys(table)
    requires 0 < k <= |Rest(table, q, sources, c)|
    ensures Rest(table, q, sources, Some(KeyOf(Rest(table, q, sources, c)[k - 1]))) == Rest(table, q, sources, c)[k..]
  {
    var rest := Rest(table, q, sources, c);
    var next := Some(KeyOf(rest[k - 1]));
    RestCharacterised(table, q, sources, c);
    RestCharacterised(table, q, sources, next);
    SplitSorted(rest, k);
    forall x
      ensures x in Rest(table, q, sources, next) <==> x in rest[k..]
    {
      if x in rest[k..] {
        assert rest[k - 1] in rest[..k];
        AfterTransitive(c, rest[k - 1], x);
      }
      if x in Rest(table, q, sources, next) {
        AfterTransitive(c, rest[k - 1], x);
        assert x in rest;
        assert x !in rest[..k] by { NotAmongFirst(rest, k, x); }
      }
    }
    SortedUnique(Rest(table, q, sources, next), rest[k..]);
  }

  lemma AfterTransitive(c: Option<Key>, r: Row, x: Row)
    requires After(c, r)
    requires Less(KeyOf(r), KeyOf(x))
    ensures After(c, x)
  {
  }

  lemma NotAmongFirst(s: seq<Row>, k: nat, x: Row)
    requires StrictlySorted(s)
    requires 0 < k <= |s|
    requires Less(KeyOf(s[k - 1]), KeyOf(x))
    ensures x !in s[..k]
  {
    forall i | 0 <= i < k
      ensures s[i] != x
    {
      if i < k - 1 {
        assert Less(KeyOf(s[i]), KeyOf(s[k - 1]));
      }
    }
  }

  // ---- The export drain: nothing is written while it runs ----

  /** ceil(n / limit), with one page for an empty timeline. */
  function PageCount(n: nat, limit: nat): nat
    requires limit > 0
  {
    if n <= limit then 1 else 1 + PageCount(n - limit, limit)
  }

  /** `p` full-but-for-the-last pages is the ceiling, and the ceiling is that many pages. */
  lemma {:induction false} PageCountIsCeiling(n: nat, limit: nat, p: nat)
    requires limit > 0 && p > 0
    ensures PageCount(n, limit) == p <==> (p - 1) * limit < n <= p * limit || (n == 0 && p == 1)
  {
    if n > limit {
      if p > 1 {
        PageCountIsCeiling(n - limit, limit, p - 1);
        assert p * limit == (p - 1) * limit + limit;
        assert (p - 1) * limit == (p - 2) * limit + limit;
      }
    } else if p > 1 {
      AtLeastOne(p - 1, limit);
    }
  }

  lemma AtLeastOne(k: nat, limit: nat)
    requires k > 0
    ensures k * limit >= limit
  {
    assert k * limit == (k - 1) * limit + limit;
    assert (k - 1) * limit >= 0;
  }

  /** The cursor `c` stands at position `done` of the full timeline. */
  ghost predicate AtPosition(table: seq<Row>, q: Query, sources: set<Source>, c: Option<Key>, full: seq<Row>, done: nat) {
    done <= |full| && Rest(table, q, sources, c) == full[done..]
  }

  /** One page moves the position in the full timeline forward by the rows it shows. */
  lemma DrainStep(table: seq<Row>, q: Query, sources: set<Source>, c: Option<Key>, full: seq<Row>, done: nat,
                  page: Page, limit: nat)
    requires DistinctKeys(table)
    requires limit > 0
    requires AtPosition(table, q, sources, c, full, done)
    requires IsPage(page, table, q, sources, c, limit)
    ensures done + |page.entries| <= |full|
    ensures full[..done] + page.entries == full[..done + |page.entries|]
    ensures page.next.None? ==> done + |page.entries| == |full| <= done + limit
    ensures page.next.Some? ==>
              && |page.entries| == limit < |full| - done
              && Usable(page.next.value)
              && AtPosition(table, q, sources, CursorKey(page.next.value), full, done + limit)
  {
    var rest := full[done..];
    if page.next.Some? {
      RestAfterCut(table, q, sources, c, limit);
      assert page.entries[|page.entries| - 1] == rest[limit - 1];
      assert rest[limit..] == full[done + limit..];
    }
  }

  /** One turn of the drain: a request with a valid limit, valid sources and a returned cursor. */
  method NextPage(table: seq<Row>, q: Query, names: Option<set<string>>, cursor: Option<Token>, limit: int,
                  ghost full: seq<Row>, entries: seq<Row>)
    returns (next: Option<Token>, entries': seq<Row>)
    requires DistinctKeys(table)
    requires 0 < limit <= MAX_LIMIT && !UnknownNames(names)
    requires cursor.Some? ==> Usable(cursor.value)
    requires entries <= full && AtPosition(table, q, RequestedSources(names), StartKey(cursor), full, |entries|)
    ensures next.None? ==> entries' == full && |full| <= |entries| + limit
    ensures next.Some? ==>
              && entries' <= full && |entries'| == |entries| + limit < |full|
              && Usable(next.value)
              && AtPosition(table, q, RequestedSources(names), StartKey(next), full, |entries'|)
  {
    var result := Reconstruct(table, q, names, cursor, limit);
    DrainStep(table, q, RequestedSources(names), StartKey(cursor), full, |entries|, result.value, limit);
    next, entries' := result.value.next, entries + result.value.entries;
    assert full[..|entries|] == entries && full[..|full|] == full;
  }

  /** The drain so far: `entries` are the first of the full timeline, the cursor stands right behind
      them, and `pages` more than those still due make the count for the whole. */
  ghost predicate Draining(table: seq<Row>, q: Query, sources: set<Source>, limit: nat, full: seq<Row>,
                           cursor: Option<Token>, entries: seq<Row>, pages: nat)
    requires limit > 0
  {
    && (cursor.Some? ==> Usable(cursor.value))
    && AtPosition(table, q, sources, StartKey(cursor), full, |entries|)
    && entries <= full
    && PagesDone(|full|, |entries|, limit, pages)
  }

  ghost predicate PagesDone(total: nat, done: nat, limit: nat, pages: nat)
    requires limit > 0
  {
    done <= total && pages + PageCount(total - done, limit) == PageCount(total, limit)
  }

  lemma OnePageMore(total: nat, done: nat, limit: nat, pages: nat)
    requires limit > 0 && PagesDone(total, done, limit, pages)
    ensures total <= done + limit ==> pages + 1 == PageCount(total, limit)
    ensures total > done + limit ==> PagesDone(total, done + limit, limit, pages + 1)
  {
  }

  method DrainTurn(table: seq<Row>, q: Query, names: Option<set<string>>, cursor: Option<Token>, limit: int,
                   ghost full: seq<Row>, entries: seq<Row>, pages: nat)
    returns (next: Option<Token>, entries': seq<Row>, pages': nat)
    requires DistinctKeys(table)
    requires 0 < limit <= MAX_LIMIT && !UnknownNames(names)
    requires Draining(table, q, RequestedSources(names), limit, full, cursor, entries, pages)
    ensures next.None? ==> entries' == full && pages' == PageCount(|full|, limit)
    ensures next.Some? ==>
              && Draining(table, q, RequestedSources(names), limit, full, next, entries', pages')
              && |entries| < |entries'| <= |full|
  {
    OnePageMore(|full|, |entries|, limit, pages);
    next, entries' := NextPage(table, q, names, cursor, limit, full, entries);
    pages' := pages + 1;
  }

  method Drain(table: seq<Row>, q: Query, names: Option<set<string>>, limit: int)
    returns (entries: seq<Row>, pages: nat)
    requires DistinctKeys(table)
    requires 0 < limit <= MAX_LIMIT && !UnknownNames(names)
    ensures entries == Timeline(table, q, RequestedSources(names))
    ensures forall x :: x in entries <==> x in table && Listed(q, names, x)
    ensures forall i, j :: 0 <= i < j < |entries| ==> InOrder(entries[i], entries[j])
    ensures pages == PageCount(|entries|, limit)
  {
    ghost var full := Timeline(table, q, RequestedSources(names));
    entries, pages := [], 0;
    var cursor: Option<Token> := None;
    while true
      invariant |entries| <= |full|
      invariant Draining(table, q, RequestedSources(names), limit, full, cursor, entries, pages)
      decreases |full| - |entries|
    {
      cursor, entries, pages := DrainTurn(table, q, names, cursor, limit, full, entries, pages);
      if cursor.None? {
        break;
      }
    }
    TimelineAsPromised(table, q, names);
  }

  // ---- Draining while the table grows ----

  /** A client following cursors while other requests insert rows: `tables[i]` is what the
      i-th request sees, and rows are only ever inserted. */
  datatype Run = Run(q: Query, sources: set<Source>, limit: nat, tables: seq<seq<Row>>, pages: seq<Page>)

  ghost predicate Grows(a: seq<Row>, b: seq<Row>) {
    forall x :: x in a ==> x in b
  }

  /** The cursor sent with the i-th request. */
  function CursorAt(run: Run, i: nat): Option<Key>
    requires i <= |run.pages|
  {
    if i == 0 then None
    else StartKey(run.pages[i - 1].next)
  }

  function RestAt(run: Run, i: nat): seq<Row>
    requires i < |run.tables| && i <= |run.pages|
  {
    Rest(run.tables[i], run.q, run.sources, CursorAt(run, i))
  }

  /** The i-th request: its table holds every row its predecessor's did, its page is the one
      due from where the previous cursor left off, and every page but the last has a cursor. */
  ghost predicate RequestOk(run: Run, i: nat)
    requires i < |run.tables| == |run.pages|
  {
    && DistinctKeys(run.tables[i])
    && (i > 0 ==> Grows(run.tables[i - 1], run.tables[i]) && run.pages[i - 1].next.Some?)
    && IsPageOf(run.pages[i], RestAt(run, i), run.limit)
  }

  ghost predicate IsRun(run: Run) {
    && run.limit > 0
    && |run.tables| == |run.pages| > 0
    && forall i :: 0 <= i < |run.tables| ==> RequestOk(run, i)
  }

  /** The drain is over: its last page carries no cursor. */
  ghost predicate Finished(run: Run) {
    run.pages != [] && run.pages[|run.pages| - 1].next.None?
  }

  /** Everything shown on the first `n` pages, in the order shown. */
  function Shown(pages: seq<Page>, n: nat): seq<Row>
    requires n <= |pages|
  {
    if n == 0 then [] else Shown(pages, n - 1) + pages[n - 1].entries
  }

  lemma PageFacts(run: Run, i: nat)
    requires IsRun(run)
    requires i < |run.pages|
    ensures i > 0 ==> run.pages[i - 1].next.Some?
    ensures StrictlySorted(run.pages[i].entries)
    ensures forall x :: x in run.pages[i].entries ==> After(CursorAt(run, i), x)
    ensures forall x :: x in run.pages[i].entries ==> x in run.tables[i] && Selected(run.q, run.sources, x)
    ensures run.pages[i].next.Some? ==>
              run.pages[i].entries != [] && CursorAt(run, i + 1) == Some(LastKey(run.pages[i].entries))
  {
    var rest := RestAt(run, i);
    assert RequestOk(run, i);
    RestCharacterised(run.tables[i], run.q, run.sources, CursorAt(run, i));
    assert forall x :: x in Take(run.limit, rest) ==> x in rest;
  }

  /** Whatever is inserted meanwhile, the pages list strictly increasing keys: no row is repeated. */
  lemma {:induction false} NeverRepeats(run: Run, n: nat)
    requires IsRun(run)
    requires n <= |run.pages|
    ensures StrictlySorted(Shown(run.pages, n))
    ensures 0 < n && run.pages[n - 1].next.Some? ==>
              forall x :: x in Shown(run.pages, n) ==> !After(CursorAt(run, n), x)
  {
    if n > 0 {
      NeverRepeats(run, n - 1);
      PageFacts(run, n - 1);
      var before, page := Shown(run.pages, n - 1), run.pages[n - 1].entries;
      forall x, y | x in before && y in page
        ensures Less(KeyOf(x), KeyOf(y))
      {
        LessTotal(CursorAt(run, n - 1).value, x, y);
      }
      SortedConcat(before, page);
      if run.pages[n - 1].next.Some? {
        forall x | x in before + page
          ensures !After(CursorAt(run, n), x)
        {
          var last := page[|page| - 1];
          assert last in page;
          LastIsGreatest(before + page, x);
        }
      }
    }
  }

  lemma LessTotal(c: Key, x: Row, y: Row)
    requires !Less(c, KeyOf(x))
    requires Less(c, KeyOf(y))
    ensures Less(KeyOf(x), KeyOf(y))
  {
  }

  lemma LastIsGreatest(s: seq<Row>, x: Row)
    requires StrictlySorted(s)
    requires x in s
    ensures s != [] && !Less(LastKey(s), KeyOf(x))
  {
  }

  /** A selected row present at the start is either already shown or still ahead of the cursor. */
  lemma {:induction false} ShownOrAhead(run: Run, n: nat, r: Row)
    requires IsRun(run)
    requires n <= |run.pages|
    requires r in run.tables[0] && Selected(run.q, run.sources, r)
    ensures r in Shown(run.pages, n) || (After(CursorAt(run, n), r) && (n == 0 || run.pages[n - 1].next.Some?))
  {
    if n > 0 {
      ShownOrAhead(run, n - 1, r);
      if r !in Shown(run.pages, n - 1) {
        PresentLater(run, n - 1, r);
        assert RequestOk(run, n - 1);
        RestCharacterised(run.tables[n - 1], run.q, run.sources, CursorAt(run, n - 1));
        var rest := RestAt(run, n - 1);
        assert r in rest;
        if r !in run.pages[n - 1].entries {
          PageFacts(run, n - 1);
          SplitSorted(rest, run.limit);
          assert rest[run.limit - 1] in rest[..run.limit];
        }
      }
    }
  }

  lemma {:induction false} PresentLater(run: Run, i: nat, r: Row)
    requires IsRun(run)
    requires i < |run.tables|
    requires r in run.tables[0]
    ensures r in run.tables[i]
  {
    if i > 0 {
      PresentLater(run, i - 1, r);
      assert RequestOk(run, i);
    }
  }

  /** A finished drain has shown every row that was selected when it began, each once. */
  lemma FinishedDrainIsComplete(run: Run, r: Row)
    requires IsRun(run) && Finished(run)
    requires r in Timeline(run.tables[0], run.q, run.sources)
    ensures r in Shown(run.pages, |run.pages|)
    ensures StrictlySorted(Shown(run.pages, |run.pages|))
  {
    assert RequestOk(run, 0);
    RestCharacterised(run.tables[0], run.q, run.sources, None);
    ShownOrAhead(run, |run.pages|, r);
    NeverRepeats(run, |run.pages|);
  }

  // ---- When each view itself appends a row ----

  /** Every request appends exactly one row, the way viewing the timeline logs the view. */
  ghost predicate AppendsOne(run: Run) {
    forall i :: 0 < i < |run.tables| ==> AppendedAt(run, i)
  }

  ghost predicate AppendedAt(run: Run, i: nat)
    requires 0 < i < |run.tables|
  {
    run.tables[i] != [] && run.tables[i][..|run.tables[i]| - 1] == run.tables[i - 1]
  }

  function AddedAt(run: Run, i: nat): Row
    requires i < |run.tables| && run.tables[i] != []
  {
    run.tables[i][|run.tables[i]| - 1]
  }

  predicate Remains(q: Query, sources: set<Source>, c: Option<Key>, r: Row) {
    Selected(q, sources, r) && After(c, r)
  }

  lemma {:induction false} RestAfterAppend(table: seq<Row>, r: Row, q: Query, sources: set<Source>, c: Option<Key>)
    ensures |Rest(table + [r], q, sources, c)| ==
            |Rest(table, q, sources, c)| + (if Remains(q, sources, c, r) then 1 else 0)
  {
    FilterConcat(table, [r], x => Selected(q, sources, x) && After(c, x));
  }

  /** The row that request `i - 1` logged lies ahead of the cursor it returned. */
  ghost predicate LogRemains(run: Run, i: nat)
    requires 0 < i < |run.tables| == |run.pages|
  {
    run.tables[i] != [] && Remains(run.q, run.sources, CursorAt(run, i), AddedAt(run, i))
  }

  /** One page shows `limit` rows and its own log row adds at most one to what remains. */
  lemma RemainingAfterPage(run: Run, i: nat)
    requires IsRun(run) && AppendsOne(run)
    requires 0 < i < |run.tables|
    ensures |RestAt(run, i)| == |RestAt(run, i - 1)| - run.limit + (if LogRemains(run, i) then 1 else 0)
    ensures |RestAt(run, i - 1)| > run.limit
  {
    assert AppendedAt(run, i);
    var before, added := run.tables[i - 1], AddedAt(run, i);
    assert run.tables[i] == before + [added];
    RestAfterPage(run, i);
    RestAfterAppend(before, added, run.q, run.sources, CursorAt(run, i));
  }

  lemma CursorAfterPage(run: Run, i: nat)
    requires IsRun(run)
    requires 0 < i < |run.tables|
    ensures |RestAt(run, i - 1)| > run.limit > 0
    ensures CursorAt(run, i) == Some(KeyOf(RestAt(run, i - 1)[run.limit - 1]))
  {
    assert RequestOk(run, i - 1) && RequestOk(run, i);
  }

  /** On the table the page was read from, the next cursor leaves out just the rows shown. */
  lemma RestAfterPage(run: Run, i: nat)
    requires IsRun(run)
    requires 0 < i < |run.tables|
    ensures |RestAt(run, i - 1)| > run.limit
    ensures |Rest(run.tables[i - 1], run.q, run.sources, CursorAt(run, i))| == |RestAt(run, i - 1)| - run.limit
  {
    CursorAfterPage(run, i);
    assert RequestOk(run, i - 1);
    RestAfterCut(run.tables[i - 1], run.q, run.sources, CursorAt(run, i - 1), run.limit);
  }

  /** A drain in numbers: the rows that remain before each request, and whether the row logged just
      before it lies ahead of the cursor. */
  datatype Course = Course(limit: nat, remaining: seq<nat>, ahead: seq<bool>)

  ghost predicate CourseAt(c: Course, i: nat)
    requires 0 < i < |c.remaining| == |c.ahead|
  {
    && c.remaining[i - 1] > c.limit
    && c.remaining[i] == c.remaining[i - 1] - c.limit + (if c.ahead[i] then 1 else 0)
  }

  ghost predicate IsCourse(c: Course) {
    && c.limit > 0 && 0 < |c.remaining| == |c.ahead|
    && forall i :: 0 < i < |c.remaining| ==> CourseAt(c, i)
  }

  /** How many of the first `i` log rows did not land ahead of the cursor. */
  function Behind(c: Course, i: nat): nat
    requires i < |c.ahead|
  {
    if i == 0 then 0 else Behind(c, i - 1) + (if c.ahead[i] then 0 else 1)
  }

  /** The balance of a viewing drain: every request takes `limit - 1` rows off what remains, and one
      more whenever its own log row is not ahead. */
  lemma {:induction false} CourseBalance(c: Course, i: nat)
    requires IsCourse(c)
    requires i < |c.remaining|
    ensures c.remaining[i] + i * (c.limit - 1) + Behind(c, i) == c.remaining[0]
  {
    if i > 0 {
      CourseBalance(c, i - 1);
      assert CourseAt(c, i);
      assert i * (c.limit - 1) == (i - 1) * (c.limit - 1) + (c.limit - 1);
    }
  }

  lemma CourseLength(c: Course)
    requires IsCourse(c)
    ensures c.limit >= 2 ==> |c.remaining| <= c.remaining[0] + 1
    ensures Behind(c, |c.remaining| - 1) <= c.remaining[0]
  {
    var n := |c.remaining| - 1;
    CourseBalance(c, n);
    assert n * (c.limit - 1) >= 0;
    if c.limit >= 2 {
      TimesAtLeastOne(n, c.limit - 1);
    }
  }

  lemma {:induction false} TimesAtLeastOne(n: nat, k: nat)
    requires k >= 1
    ensures n <= n * k
  {
    if n > 0 {
      TimesAtLeastOne(n - 1, k);
      assert n * k == (n - 1) * k + k;
    }
  }

  /** While no log row lands ahead, each request is one of the pages the fixed table has. */
  lemma {:induction false} CoursePagesLeft(c: Course, i: nat)
    requires IsCourse(c)
    requires forall j :: 0 < j < |c.ahead| ==> !c.ahead[j]
    requires i < |c.remaining|
    ensures i + PageCount(c.remaining[i], c.limit) == PageCount(c.remaining[0], c.limit)
  {
    if i > 0 {
      CoursePagesLeft(c, i - 1);
      assert CourseAt(c, i);
    }
  }

  lemma {:induction false} BehindFrom(c: Course, k: nat, i: nat)
    requires i < |c.ahead|
    requires forall j :: k < j < |c.ahead| ==> !c.ahead[j]
    ensures Behind(c, i) >= i - k
  {
    if i > 0 {
      BehindFrom(c, k, i - 1);
    }
  }

  lemma {:induction false} NoneBehind(c: Course, i: nat)
    requires i < |c.ahead|
    requires forall j :: 0 < j < |c.ahead| ==> c.ahead[j]
    ensures Behind(c, i) == 0
  {
    if i > 0 {
      NoneBehind(c, i - 1);
    }
  }

  ghost function CourseOf(run: Run): (c: Course)
    requires |run.tables| == |run.pages|
    ensures |c.remaining| == |c.ahead| == |run.pages|
  {
    Course(run.limit,
           seq(|run.tables|, i requires 0 <= i < |run.tables| => |RestAt(run, i)|),
           seq(|run.tables|, i requires 0 <= i < |run.tables| => i > 0 && LogRemains(run, i)))
  }

  lemma RunIsCourseAt(run: Run, i: nat)
    requires IsRun(run) && AppendsOne(run)
    requires 0 < i < |run.tables|
    ensures CourseAt(CourseOf(run), i)
  {
    RemainingAfterPage(run, i);
  }

  lemma RunIsCourse(run: Run)
    requires IsRun(run) && AppendsOne(run)
    ensures IsCourse(CourseOf(run))
    ensures CourseOf(run).remaining[0] == |Timeline(run.tables[0], run.q, run.sources)|
  {
    forall i | 0 < i < |run.tables|
      ensures CourseAt(CourseOf(run), i)
    {
      RunIsCourseAt(run, i);
    }
  }

  /** The balance, on the rows themselves. */
  lemma DrainBalance(run: Run, i: nat)
    requires IsRun(run) && AppendsOne(run)
    requires i < |run.tables|
    ensures |RestAt(run, i)| + i * (run.limit - 1) + Behind(CourseOf(run), i) ==
            |Timeline(run.tables[0], run.q, run.sources)|
  {
    RunIsCourse(run);
    CourseBalance(CourseOf(run), i);
  }

  /** With two or more rows per page, a viewing client gets to the end: the number of pages is
      bounded by what was there when it started, whatever timestamps the log rows carry. */
  lemma ViewingDrainEnds(run: Run)
    requires IsRun(run) && AppendsOne(run)
    requires run.limit >= 2
    ensures |run.pages| <= |Timeline(run.tables[0], run.q, run.sources)| + 1
  {
    RunIsCourse(run);
    CourseLength(CourseOf(run));
  }

  /** Log rows that never land ahead might as well not be written: the drain has the pages it has
      over the fixed table. */
  lemma UnselectedViewsDrainEnds(run: Run)
    requires IsRun(run) && AppendsOne(run)
    requires forall j :: 0 < j < |run.tables| ==> !LogRemains(run, j)
    ensures |run.pages| <= PageCount(|Timeline(run.tables[0], run.q, run.sources)|, run.limit)
    ensures Finished(run) ==> |run.pages| == PageCount(|Timeline(run.tables[0], run.q, run.sources)|, run.limit)
  {
    var n := |run.pages| - 1;
    RunIsCourse(run);
    CoursePagesLeft(CourseOf(run), n);
    assert RequestOk(run, n);
    assert CourseOf(run).remaining[n] == |RestAt(run, n)|;
  }

  lemma BehindBoundsPages(run: Run, k: nat)
    requires IsRun(run) && AppendsOne(run)
    requires forall j :: k < j < |run.tables| ==> !LogRemains(run, j)
    ensures |run.pages| <= |Timeline(run.tables[0], run.q, run.sources)| + k + 1
  {
    RunIsCourse(run);
    CourseLength(CourseOf(run));
    BehindFrom(CourseOf(run), k, |run.pages| - 1);
  }

  /** A timeline of at most one row is over after the first page, whatever the limit. */
  lemma ShortTimelineEndsAtOnce(run: Run)
    requires IsRun(run)
    requires |Timeline(run.tables[0], run.q, run.sources)| <= 1
    ensures Finished(run) && |run.pages| == 1
  {
    assert RequestOk(run, 0);
    assert |run.pages| > 1 ==> RequestOk(run, 1);
  }

  // ---- Which viewing drains end ----

  /** The row a timeline view logs about itself: an audit row carrying no invocation id. */
  function ViewRow(matter: nat, at: int, id: nat): Row {
    AuditRow(id, at, Some(matter), VIEWED_ACTION, None)
  }

  /** A client that views a matter page by page, starting from `table`: its `i`-th view is logged at
      `clock(i)` under the new id `ids(i)`. */
  datatype Viewing = Viewing(table: seq<Row>, q: Query, sources: set<Source>, limit: nat, matter: nat,
                             clock: nat -> int, ids: nat -> nat)

  function LogAt(v: Viewing, i: nat): Row {
    ViewRow(v.matter, v.clock(i), v.ids(i))
  }

  /** The table after `i` views. */
  function TableAt(v: Viewing, i: nat): seq<Row> {
    if i == 0 then v.table else TableAt(v, i - 1) + [LogAt(v, i - 1)]
  }

  function StartTimeline(v: Viewing): seq<Row> {
    Timeline(v.table, v.q, v.sources)
  }

  /** Row ids are random UUIDs, never reused. */
  ghost predicate FreshIds(v: Viewing) {
    && DistinctKeys(v.table)
    && (forall i: nat, j: nat :: i != j ==> v.ids(i) != v.ids(j))
    && (forall x, i: nat :: x in v.table && x.AuditRow? ==> x.id != v.ids(i))
  }

  /** Every view is logged later than all there is. */
  ghost predicate LogsLater(v: Viewing) {
    && (forall x, i: nat :: x in v.table ==> Less(KeyOf(x), KeyOf(LogAt(v, i))))
    && (forall i: nat, j: nat :: i < j ==> Less(KeyOf(LogAt(v, i)), KeyOf(LogAt(v, j))))
  }

  /** `run` is this client's drain, or the beginning of it. */
  ghost predicate DrainOf(v: Viewing, run: Run) {
    && IsRun(run) && run.q == v.q && run.sources == v.sources && run.limit == v.limit
    && forall i :: 0 <= i < |run.tables| ==> run.tables[i] == TableAt(v, i)
  }

  ghost predicate AllViewsListed(v: Viewing) {
    forall k: nat :: Selected(v.q, v.sources, LogAt(v, k))
  }

  ghost predicate BoundedBy(v: Viewing, n: nat) {
    forall run :: DrainOf(v, run) ==> |run.pages| <= n
  }

  ghost predicate EveryDrainEnds(v: Viewing) {
    exists n: nat :: BoundedBy(v, n)
  }

  lemma {:induction false} TableAtMembers(v: Viewing, i: nat, x: Row)
    requires x in TableAt(v, i)
    ensures x in v.table || exists k: nat :: k < i && x == LogAt(v, k)
  {
    if i > 0 && x != LogAt(v, i - 1) {
      TableAtMembers(v, i - 1, x);
    }
  }

  lemma {:induction false} TableAtDistinct(v: Viewing, i: nat)
    requires FreshIds(v)
    ensures DistinctKeys(TableAt(v, i))
  {
    if i > 0 {
      TableAtDistinct(v, i - 1);
      forall x | x in TableAt(v, i - 1)
        ensures KeyOf(x) != KeyOf(LogAt(v, i - 1))
      {
        TableAtMembers(v, i - 1, x);
      }
      assert DistinctKeys([LogAt(v, i - 1)]);
      DistinctConcat(TableAt(v, i - 1), [LogAt(v, i - 1)]);
    }
  }

  lemma DrainAppends(v: Viewing, run: Run)
    requires DrainOf(v, run)
    ensures AppendsOne(run)
    ensures forall i :: 0 < i < |run.tables| ==> run.tables[i] != [] && AddedAt(run, i) == LogAt(v, i - 1)
  {
    forall i | 0 < i < |run.tables|
      ensures AppendedAt(run, i) && AddedAt(run, i) == LogAt(v, i - 1)
    {
      assert run.tables[i] == run.tables[i - 1] + [LogAt(v, i - 1)];
    }
  }

  /** A log row later than all rows shown lies ahead exactly when the query selects it. */
  lemma LogRemainsIff(v: Viewing, run: Run, i: nat)
    requires DrainOf(v, run) && LogsLater(v)
    requires 0 < i < |run.tables|
    ensures LogRemains(run, i) <==> Selected(v.q, v.sources, LogAt(v, i - 1))
  {
    DrainAppends(v, run);
    assert RequestOk(run, i);
    PageFacts(run, i - 1);
    var shown := run.pages[i - 1].entries;
    assert shown[|shown| - 1] in shown;
    TableAtMembers(v, i - 1, shown[|shown| - 1]);
  }

  /** With one row per page and every view listed, each page is followed by another. */
  lemma SingleRowPagesNeverEnd(v: Viewing, run: Run, i: nat)
    requires DrainOf(v, run) && LogsLater(v)
    requires v.limit == 1 && |StartTimeline(v)| >= 2
    requires AllViewsListed(v)
    requires i < |run.pages|
    ensures |RestAt(run, i)| == |StartTimeline(v)|
    ensures run.pages[i].next.Some?
  {
    DrainAppends(v, run);
    forall j | 0 < j < |run.tables|
      ensures LogRemains(run, j)
    {
      LogRemainsIff(v, run, j);
    }
    NoneBehind(CourseOf(run), i);
    DrainBalance(run, i);
    assert RequestOk(run, i);
  }

  /** One more request on a run whose last page carried a cursor. */
  ghost function ExtendRun(run: Run, table: seq<Row>, page: Page): Run {
    run.(tables := run.tables + [table], pages := run.pages + [page])
  }

  /** A drain that has not ended, possibly not yet begun. */
  ghost predicate InProgress(v: Viewing, run: Run) {
    && v.limit > 0
    && run.q == v.q && run.sources == v.sources && run.limit == v.limit
    && |run.tables| == |run.pages|
    && (run.pages != [] ==> DrainOf(v, run) && run.pages[|run.pages| - 1].next.Some?)
  }

  ghost function NoRequests(v: Viewing): Run {
    Run(v.q, v.sources, v.limit, [], [])
  }

  lemma ExtendedIsRun(run: Run, table: seq<Row>, page: Page)
    requires run.limit > 0 && |run.tables| == |run.pages|
    requires run.pages != [] ==> IsRun(run) && run.pages[|run.pages| - 1].next.Some? &&
                                 Grows(run.tables[|run.tables| - 1], table)
    requires DistinctKeys(table)
    requires IsPage(page, table, run.q, run.sources, CursorAt(run, |run.pages|), run.limit)
    ensures IsRun(ExtendRun(run, table, page))
  {
    var r := ExtendRun(run, table, page);
    forall i | 0 <= i <= |run.pages|
      ensures RequestOk(r, i)
    {
      assert CursorAt(r, i) == CursorAt(run, i);
      if i < |run.pages| {
        assert RequestOk(run, i);
      }
    }
  }

  lemma ExtendedShows(run: Run, table: seq<Row>, page: Page)
    ensures var r := ExtendRun(run, table, page);
            Shown(r.pages, |r.pages|) == Shown(run.pages, |run.pages|) + page.entries
  {
    var r := ExtendRun(run, table, page);
    ShownPrefix(r.pages, |run.pages|, |run.pages|);
    assert r.pages[..|run.pages|] == run.pages;
  }

  lemma ExtendedDrain(v: Viewing, run: Run, page: Page)
    requires FreshIds(v) && InProgress(v, run)
    requires IsPage(page, TableAt(v, |run.pages|), v.q, v.sources, CursorAt(run, |run.pages|), v.limit)
    ensures var r := ExtendRun(run, TableAt(v, |run.pages|), page);
            && DrainOf(v, r)
            && Shown(r.pages, |r.pages|) == Shown(run.pages, |run.pages|) + page.entries
            && (page.next.Some? ==> InProgress(v, r))
  {
    TableAtDistinct(v, |run.pages|);
    ExtendedIsRun(run, TableAt(v, |run.pages|), page);
    ExtendedShows(run, TableAt(v, |run.pages|), page);
  }

  lemma {:induction false} ShownPrefix(pages: seq<Page>, k: nat, n: nat)
    requires k <= n <= |pages|
    ensures Shown(pages[..n], k) == Shown(pages, k)
  {
    if k > 0 {
      ShownPrefix(pages, k - 1, n);
    }
  }

  /** The next page of a drain in progress, as it is cut from the timeline. */
  lemma NextRequest(v: Viewing, run: Run) returns (longer: Run)
    requires FreshIds(v) && InProgress(v, run)
    ensures DrainOf(v, longer) && |longer.pages| == |run.pages| + 1
  {
    var n := |run.pages|;
    var rest := Rest(TableAt(v, n), v.q, v.sources, CursorAt(run, n));
    var page := Cut(rest, v.limit);
    TableAtDistinct(v, n);
    RestCharacterised(TableAt(v, n), v.q, v.sources, CursorAt(run, n));
    CutExact(rest, rest, v.limit);
    ExtendedDrain(v, run, page);
    longer := ExtendRun(run, TableAt(v, n), page);
  }

  /** Such drains exist, unfinished, in every length. */
  lemma {:induction false} UnfinishedDrain(v: Viewing, n: nat) returns (run: Run)
    requires FreshIds(v) && LogsLater(v)
    requires v.limit == 1 && |StartTimeline(v)| >= 2
    requires AllViewsListed(v)
    ensures InProgress(v, run) && |run.pages| == n
  {
    if n == 0 {
      run := NoRequests(v);
    } else {
      var shorter := UnfinishedDrain(v, n - 1);
      run := NextRequest(v, shorter);
      SingleRowPagesNeverEnd(v, run, n - 1);
    }
  }

  /** The window's end is the only thing that can start to exclude later views, and it does so for good. */
  lemma UnselectedStays(v: Viewing, i: nat, j: nat)
    requires FreshIds(v) && LogsLater(v) && StartTimeline(v) != []
    requires i <= j && !Selected(v.q, v.sources, LogAt(v, i))
    ensures !Selected(v.q, v.sources, LogAt(v, j))
  {
    RestCharacterised(v.table, v.q, v.sources, None);
    var x := StartTimeline(v)[0];
    assert x in StartTimeline(v);
    assert Less(KeyOf(x), KeyOf(LogAt(v, i)));
    assert i < j ==> Less(KeyOf(LogAt(v, i)), KeyOf(LogAt(v, j)));
  }

  /** One view the query does not select is enough: from then on pages only use rows up. */
  lemma UnselectedViewEndsDrains(v: Viewing, k: nat)
    requires FreshIds(v) && LogsLater(v) && StartTimeline(v) != []
    requires !Selected(v.q, v.sources, LogAt(v, k))
    ensures BoundedBy(v, |StartTimeline(v)| + k + 1)
  {
    forall run | DrainOf(v, run)
      ensures |run.pages| <= |StartTimeline(v)| + k + 1
    {
      DrainAppends(v, run);
      forall j | k < j < |run.tables|
        ensures !LogRemains(run, j)
      {
        UnselectedStays(v, k, j - 1);
        LogRemainsIff(v, run, j);
      }
      BehindBoundsPages(run, k);
    }
  }

  lemma ShortOrWideDrainsEnd(v: Viewing)
    requires v.limit >= 2 || |StartTimeline(v)| <= 1
    ensures BoundedBy(v, |StartTimeline(v)| + 1)
  {
    forall run | DrainOf(v, run)
      ensures |run.pages| <= |StartTimeline(v)| + 1
    {
      DrainAppends(v, run);
      if v.limit >= 2 {
        ViewingDrainEnds(run);
      } else {
        ShortTimelineEndsAtOnce(run);
      }
    }
  }

  /** When each view is logged later than all there is, every drain ends exactly when pages hold two
      rows or more, or there is at most one row to show, or some view escapes the query. */
  lemma ViewingEndsIff(v: Viewing)
    requires FreshIds(v) && LogsLater(v) && v.limit > 0
    ensures EveryDrainEnds(v) <==>
            v.limit >= 2 || |StartTimeline(v)| <= 1 || !AllViewsListed(v)
  {
    if v.limit >= 2 || |StartTimeline(v)| <= 1 {
      ShortOrWideDrainsEnd(v);
    } else if !AllViewsListed(v) {
      var k: nat :| !Selected(v.q, v.sources, LogAt(v, k));
      UnselectedViewEndsDrains(v, k);
    } else {
      forall n: nat
        ensures !BoundedBy(v, n)
      {
        var run := UnfinishedDrain(v, n + 1);
        assert DrainOf(v, run) && |run.pages| > n;
      }
    }
  }

  /** The query lists views of this matter at all, its time window aside. */
  predicate ListsViews(v: Viewing) {
    && Audit in v.sources && v.q.matter == Some(v.matter)
    && (v.q.action.Some? ==> v.q.action.value == VIEWED_ACTION)
    && v.q.invocation.None?
  }

  ghost predicate PassedAt(v: Viewing, t: int) {
    exists k: nat :: v.clock(k) > t
  }

  /** What a caller can check before the first request: with a clock that passes every moment, a drain
      can go on for ever exactly when pages hold a single row, two rows or more are there, the query
      lists views, and its window has no end. */
  lemma ViewingEndsUnlessViewsAreListed(v: Viewing)
    requires FreshIds(v) && LogsLater(v) && v.limit > 0
    requires forall t :: PassedAt(v, t)
    ensures EveryDrainEnds(v) <==>
            v.limit >= 2 || |StartTimeline(v)| <= 1 || v.q.until.Some? || !ListsViews(v)
  {
    ViewingEndsIff(v);
    if v.q.until.Some? {
      assert PassedAt(v, v.q.until.value);
      var k: nat :| v.clock(k) > v.q.until.value;
      assert !Selected(v.q, v.sources, LogAt(v, k));
    } else if !ListsViews(v) {
      assert !Selected(v.q, v.sources, LogAt(v, 0));
    } else if |StartTimeline(v)| >= 2 {
      forall k: nat
        ensures Selected(v.q, v.sources, LogAt(v, k))
      {
        ListedViewIsSelected(v, k);
      }
    }
  }

  lemma ListedViewIsSelected(v: Viewing, k: nat)
    requires FreshIds(v) && LogsLater(v) && StartTimeline(v) != []
    requires ListsViews(v) && v.q.until.None?
    ensures Selected(v.q, v.sources, LogAt(v, k))
  {
    RestCharacterised(v.table, v.q, v.sources, None);
    var x := StartTimeline(v)[0];
    assert x in StartTimeline(v);
    assert Less(KeyOf(x), KeyOf(LogAt(v, k)));
  }

  // ---- The endpoint ----

  /** `NotFound` covers a matter that is missing, archived or not the caller's. */
  datatype Refusal = NotFound | InvalidInvocation | Refused(error: Error)

  /** An empty list of sources asks for all of them. */
  function Included(wanted: Option<set<string>>): Option<set<string>> {
    if wanted == Some({}) then None else wanted
  }

  /** The tables behind `GET /{slug}/audit/reconstruction`. */
  class AuditLog {
    var table: seq<Row>

    ghost predicate Valid()
      reads this
    {
      DistinctKeys(table)
    }

    constructor (rows: seq<Row>)
      requires DistinctKeys(rows)
      ensures Valid() && table == rows
    {
      table := rows;
    }

    /** The request's own checks come first: the limit, the matter, the sources, the invocation id. */
    method GetReconstruction(matter: nat, readable: bool, q: Query, isUuid: string -> bool, wanted: Option<set<string>>,
                             cursor: Option<Token>, limit: int, now: int, freshId: nat)
      returns (result: Result<Page, Refusal>)
      requires Valid()
      requires q.matter == Some(matter)
      requires forall x :: x in table && x.AuditRow? ==> x.id != freshId
      modifies this
      ensures Valid()
      ensures result == Err(NotFound) <==> 0 < limit <= 500 && !readable
      ensures result == Err(InvalidInvocation) <==>
              0 < limit <= 500 && readable && KnownNames(wanted) &&
              q.invocation.Some? && !isUuid(q.invocation.value)
      ensures result.Ok? <==>
              readable && (q.invocation.Some? ==> isUuid(q.invocation.value)) &&
              Accepts(old(table), q, Included(wanted), cursor, limit)
      ensures result.Ok? ==> table == old(table) + [AuditRow(freshId, now, Some(matter), "audit.reconstruction.viewed", None)]
      ensures result.Ok? && cursor.None? && result.value.next.None? ==>
                forall x :: x in result.value.entries <==>
                            x in old(table) && Listed(q, if wanted == Some({}) then None else wanted, x)
      ensures result.Ok? && (cursor.Some? ==> Usable(cursor.value)) ==>
                IsPage(result.value, old(table), q, RequestedSources(Included(wanted)), StartKey(cursor), limit)
      ensures result.Err? ==> table == old(table)
    {
      if limit <= 0 || limit > MAX_LIMIT {
        return Err(Refused(LimitOutOfRange));
      }
      if !readable {
        return Err(NotFound);
      }
      if wanted.Some? && exists n :: n in wanted.value && SourceNamed(n).None? {
        return Err(Refused(UnknownSource));
      }
      RequestedExactly(wanted);
      if q.invocation.Some? && !isUuid(q.invocation.value) {
        return Err(InvalidInvocation);
      }
      var page := ReadAndLog(matter, q, Included(wanted), cursor, limit, now, freshId);
      result := if page.Ok? then Ok(page.value) else Err(Refused(page.error));
    }

    /** Read one page, then record that it was read; a rejected request records nothing. */
    method ReadAndLog(matter: nat, q: Query, names: Option<set<string>>, cursor: Option<Token>, limit: int,
                      now: int, freshId: nat)
      returns (result: Result<Page, Error>)
      requires Valid()
      requires forall x :: x in table && x.AuditRow? ==> x.id != freshId
      modifies this
      ensures Valid()
      ensures result.Ok? <==> Accepts(old(table), q, names, cursor, limit)
      ensures 0 < limit <= MAX_LIMIT && !UnknownNames(names) && (cursor.Some? ==> Usable(cursor.value)) ==> result.Ok?
      ensures result.Ok? ==> table == old(table) + [ViewRow(matter, now, freshId)]
      ensures result.Ok? && cursor.None? && result.value.next.None? ==>
                forall x :: x in result.value.entries <==> x in old(table) && Listed(q, names, x)
      ensures result.Ok? && (cursor.Some? ==> Usable(cursor.value)) ==>
                IsPage(result.value, old(table), q, RequestedSources(names), StartKey(cursor), limit)
      ensures result.Err? ==> table == old(table)
    {
      result := Reconstruct(table, q, names, cursor, limit);
      if result.Ok? {
        var row := ViewRow(matter, now, freshId);
        assert DistinctKeys([row]);
        DistinctConcat(table, [row]);
        table := table + [row];
      }
    }

    /** Views page after page until no cursor comes back or `most` pages have been read. */
    method ViewUpTo(matter: nat, q: Query, names: Option<set<string>>, limit: int, clock: nat -> int, ids: nat -> nat,
                    most: nat)
      returns (entries: seq<Row>, ghost run: Run)
      requires 0 < limit <= MAX_LIMIT && !UnknownNames(names)
      requires FreshIds(Viewing(table, q, RequestedSources(names), limit, matter, clock, ids))
      requires most > 0
      modifies this
      ensures var v := Viewing(old(table), q, RequestedSources(names), limit, matter, clock, ids);
              && DrainOf(v, run) && entries == Shown(run.pages, |run.pages|)
              && (Finished(run) || |run.pages| == most)
              && (limit >= 2 && most > |StartTimeline(v)| + 1 ==> Finished(run))
              && (limit == 1 && LogsLater(v) && |StartTimeline(v)| >= 2 && AllViewsListed(v) ==> !Finished(run))
    {
      ghost var v := Viewing(table, q, RequestedSources(names), limit, matter, clock, ids);
      entries, run := [], NoRequests(v);
      var cursor: Option<Token> := None;
      var n := 0;
      while n < most
        invariant n == |run.pages| <= most
        invariant table == TableAt(v, n)
        invariant InProgress(v, run)
        invariant StartKey(cursor) == CursorAt(run, n)
        invariant cursor.Some? ==> Usable(cursor.value)
        invariant entries == Shown(run.pages, n)
      {
        TableAtDistinct(v, n);
        FreshAt(v, n);
        var result := ReadAndLog(matter, q, names, cursor, limit, clock(n), ids(n));
        var page := result.value;
        ExtendedDrain(v, run, page);
        run := ExtendRun(run, TableAt(v, n), page);
        entries := entries + page.entries;
        n := n + 1;
        if page.next.None? {
          break;
        }
        cursor := page.next;
      }
      HowDrainsEnd(v, run);
    }
  }

  lemma FreshAt(v: Viewing, i: nat)
    requires FreshIds(v)
    ensures forall x :: x in TableAt(v, i) && x.AuditRow? ==> x.id != v.ids(i)
  {
    forall x | x in TableAt(v, i) && x.AuditRow?
      ensures x.id != v.ids(i)
    {
      TableAtMembers(v, i, x);
    }
  }

  lemma HowDrainsEnd(v: Viewing, run: Run)
    requires DrainOf(v, run)
    ensures v.limit >= 2 ==> |run.pages| <= |StartTimeline(v)| + 1
    ensures v.limit == 1 && LogsLater(v) && |StartTimeline(v)| >= 2 && AllViewsListed(v) ==> !Finished(run)
  {
    if v.limit >= 2 {
      ShortOrWideDrainsEnd(v);
      assert BoundedBy(v, |StartTimeline(v)| + 1);
    } else if LogsLater(v) && |StartTimeline(v)| >= 2 && AllViewsListed(v) {
      SingleRowPagesNeverEnd(v, run, |run.pages| - 1);
    }
  }
}

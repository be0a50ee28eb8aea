/** One page of the reconstructed timeline: the per-source queries, the cursor, and
    `reconstruct`, against the simple specification "sort everything, then cut". */
module TimelinePaging {
  import opened Options
  import opened TimelineRows
  import Sets

  const MAX_LIMIT := 500

  const TRANSITION_PREFIX := "state_machine.transition."
  const DECISION_PREFIX := "advice_boundary.decision."
  const VIEWED_ACTION := "audit.reconstruction.viewed"

  /** What a caller asks for. `matter` of `None` is the workspace scope. */
  datatype Query = Query(matter: Option<nat>, since: Option<int>, until: Option<int>,
                         invocation: Option<string>, action: Option<string>)

  // ---- What a query selects, stated on the source-agnostic entry ----

  /** The action a row shows on the timeline. */
  function ActionOf(r: Row): string {
    match r
    case AuditRow(_, _, _, action, _) => action
    case TransitionRow(_, _, _, status) => TRANSITION_PREFIX + status
    case DecisionRow(_, _, _, status, _) => DECISION_PREFIX + status
  }

  function InvocationOf(r: Row): Option<string> {
    match r
    case AuditRow(_, _, _, _, invocation) => invocation
    case TransitionRow(_, _, _, _) => None
    case DecisionRow(_, _, _, _, outputId) => Some(outputId)
  }

  function MatterOf(r: Row): Option<nat> {
    match r
    case AuditRow(_, _, matter, _, _) => matter
    case TransitionRow(_, _, owner, _) => owner
    case DecisionRow(_, _, gateMatter, _, _) => gateMatter
  }

  predicate InWindow(q: Query, at: int) {
    && (q.since.Some? ==> q.since.value <= at)
    && (q.until.Some? ==> at <= q.until.value)
  }

  predicate Selected(q: Query, sources: set<Source>, r: Row) {
    && SourceOf(r) in sources
    && MatterOf(r) == q.matter
    && (q.matter.None? ==> r.AuditRow?)
    && InWindow(q, r.at)
    && (q.action.Some? ==> ActionOf(r) == q.action.value)
    && (q.invocation.Some? ==> InvocationOf(r) == q.invocation)
  }

  predicate After(c: Option<Key>, r: Row) {
    c.Some? ==> Less(c.value, KeyOf(r))
  }

  // ---- The per-source SQL ----

  predicate StartsWith(s: string, prefix: string) {
    |prefix| <= |s| && s[..|prefix|] == prefix
  }

  /** The status filter pushed into SQL: the action filter with the source's prefix removed. */
  predicate StatusMatches(action: Option<string>, prefix: string, status: string) {
    action.Some? ==> StartsWith(action.value, prefix) && status == action.value[|prefix|..]
  }

  /** The WHERE clause each `_query_*` function builds, before the cursor. */
  predicate Where(q: Query, r: Row) {
    match r
    case AuditRow(_, at, matter, action, invocation) =>
      && matter == q.matter
      && InWindow(q, at)
      && (q.action.Some? ==> action == q.action.value)
      && (q.invocation.Some? ==> invocation == q.invocation)
    case TransitionRow(_, at, owner, status) =>
      && q.matter.Some? && q.invocation.None?
      && owner == q.matter
      && InWindow(q, at)
      && StatusMatches(q.action, TRANSITION_PREFIX, status)
    case DecisionRow(_, at, gateMatter, status, outputId) =>
      && q.matter.Some?
      && gateMatter == q.matter
      && InWindow(q, at)
      && StatusMatches(q.action, DECISION_PREFIX, status)
      && (q.invocation.Some? ==> outputId == q.invocation.value)
  }

  /** The three-case strict-after predicate added to each source's WHERE clause. */
  predicate CursorPredicate(c: Option<Key>, self: Source, at: int, id: nat) {
    match c
    case None => true
    case Some(key) =>
      if SourceOrder(self) > key.order then at >= key.at
      else if SourceOrder(self) < key.order then at > key.at
      else at > key.at || (at == key.at && id > key.id)
  }

  function IsFrom(src: Source): Row -> bool {
    r => SourceOf(r) == src
  }

  function OfSource(s: seq<Row>, src: Source): seq<Row> {
    Filter(s, IsFrom(src))
  }

  function SourceRows(table: seq<Row>, q: Query, src: Source, c: Option<Key>): seq<Row> {
    Filter(table, r => SourceOf(r) == src && Where(q, r) && CursorPredicate(c, src, r.at, r.id))
  }

  /** One `_query_*` call. */
  function QuerySource(table: seq<Row>, q: Query, src: Source, c: Option<Key>, limit: nat): seq<Row> {
    Take(limit, Sort(SourceRows(table, q, src, c)))
  }

  // ---- The simple specification ----

  function RestRows(table: seq<Row>, q: Query, sources: set<Source>, c: Option<Key>): seq<Row> {
    Filter(table, r => Selected(q, sources, r) && After(c, r))
  }

  /** Everything the query selects after the cursor, in timeline order. */
  function Rest(table: seq<Row>, q: Query, sources: set<Source>, c: Option<Key>): seq<Row> {
    Sort(RestRows(table, q, sources, c))
  }

  function Timeline(table: seq<Row>, q: Query, sources: set<Source>): seq<Row> {
    Rest(table, q, sources, None)
  }

  lemma RestCharacterised(table: seq<Row>, q: Query, sources: set<Source>, c: Option<Key>)
    requires DistinctKeys(table)
    ensures StrictlySorted(Rest(table, q, sources, c))
    ensures forall x :: x in Rest(table, q, sources, c) <==>
                        x in table && Selected(q, sources, x) && After(c, x)
  {
    FilterDistinct(table, r => Selected(q, sources, r) && After(c, r));
    SortSorted(RestRows(table, q, sources, c));
  }

  // ---- The pushed-down SQL is exact ----

  /** Stripping the prefix and comparing the status is comparing the synthesised action. */
  lemma StatusPushdownExact(action: string, prefix: string, status: string)
    ensures StatusMatches(Some(action), prefix, status) <==> prefix + status == action
  {
    if StatusMatches(Some(action), prefix, status) {
      assert action == action[..|prefix|] + action[|prefix|..];
    }
    if prefix + status == action {
      assert (prefix + status)[..|prefix|] == prefix;
      assert (prefix + status)[|prefix|..] == status;
    }
  }

  lemma WhereExact(q: Query, sources: set<Source>, r: Row)
    requires SourceOf(r) in sources
    ensures Where(q, r) <==> Selected(q, sources, r)
  {
    if q.action.Some? {
      match r
      case AuditRow(_, _, _, _, _) =>
      case TransitionRow(_, _, _, status) => StatusPushdownExact(q.action.value, TRANSITION_PREFIX, status);
      case DecisionRow(_, _, _, status, _) => StatusPushdownExact(q.action.value, DECISION_PREFIX, status);
    }
  }

  /** The three cases together select exactly the rows whose global key exceeds the cursor. */
  lemma CursorPredicateExact(c: Option<Key>, r: Row)
    ensures CursorPredicate(c, SourceOf(r), r.at, r.id) <==> After(c, r)
  {
  }

  /** A source's query is the timeline restricted to that source, cut at the limit. */
  lemma QuerySourceExact(table: seq<Row>, q: Query, sources: set<Source>, src: Source, c: Option<Key>, limit: nat)
    requires DistinctKeys(table)
    requires src in sources
    ensures QuerySource(table, q, src, c, limit) ==
            Take(limit, OfSource(Rest(table, q, sources, c), src))
  {
    var full := Rest(table, q, sources, c);
    RestCharacterised(table, q, sources, c);
    var mine := OfSource(full, src);
    FilterSorted(full, IsFrom(src));
    var rows := SourceRows(table, q, src, c);
    FilterDistinct(table, r => SourceOf(r) == src && Where(q, r) && CursorPredicate(c, src, r.at, r.id));
    SortSorted(rows);
    forall x
      ensures x in Sort(rows) <==> x in mine
    {
      if SourceOf(x) == src {
        WhereExact(q, sources, x);
        CursorPredicateExact(c, x);
      }
    }
    SortedUnique(Sort(rows), mine);
  }

  // ---- limit + 1 rows per source suffice ----

  /** `pulls` holds, for every source in `done`, the first `n` timeline rows of that source. */
  ghost predicate Pulled(pulls: seq<Row>, full: seq<Row>, done: set<Source>, n: nat) {
    forall x :: x in pulls <==>
                SourceOf(x) in done && x in Take(n, OfSource(full, SourceOf(x)))
  }

  /** Each of the first `n` rows overall is among the first `n` rows of its own source. */
  lemma PrefixIsPulled(full: seq<Row>, n: nat, x: Row)
    requires n <= |full|
    requires x in full[..n]
    ensures x in Take(n, OfSource(full, SourceOf(x)))
  {
    var p := IsFrom(SourceOf(x));
    assert full == full[..n] + full[n..];
    FilterConcat(full[..n], full[n..], p);
    var front := Filter(full[..n], p);
    var all := Filter(full, p);
    assert x in front;
    assert all == front + Filter(full[n..], p);
    var i :| 0 <= i < |front| && front[i] == x;
    assert all[i] == x;
    assert Take(n, all)[i] == x;
  }

  lemma TakeGrows(s: seq<Row>, m: nat, n: nat, x: Row)
    requires m <= n
    requires x in Take(m, s)
    ensures x in Take(n, s)
  {
    var i :| 0 <= i < |Take(m, s)| && Take(m, s)[i] == x;
    assert Take(n, s)[i] == x;
  }

  lemma FrontIsPulled(pulls: seq<Row>, full: seq<Row>, sources: set<Source>, n: nat, k: nat)
    requires forall x :: x in full ==> SourceOf(x) in sources
    requires Pulled(pulls, full, sources, n)
    requires k <= n && k <= |full|
    ensures forall x :: x in full[..k] ==> x in pulls
  {
    forall x | x in full[..k]
      ensures x in pulls
    {
      PrefixIsPulled(full, k, x);
      TakeGrows(OfSource(full, SourceOf(x)), k, n, x);
    }
  }

  lemma PulledFromFull(pulls: seq<Row>, full: seq<Row>, sources: set<Source>, n: nat)
    requires Pulled(pulls, full, sources, n)
    ensures forall x :: x in pulls ==> x in full
  {
  }

  /** Sorting the pulled rows reproduces the timeline's first `n` rows, and all of it
      when it has no more than `n`. */
  lemma MergeExact(pulls: seq<Row>, full: seq<Row>, sources: set<Source>, n: nat)
    requires StrictlySorted(full)
    requires forall x :: x in full ==> SourceOf(x) in sources
    requires DistinctKeys(pulls)
    requires Pulled(pulls, full, sources, n)
    ensures StrictlySorted(Sort(pulls))
    ensures forall x :: x in Sort(pulls) ==> x in full
    ensures Take(n, Sort(pulls)) == Take(n, full)
    ensures |full| <= n ==> Sort(pulls) == full
  {
    var k := if |full| <= n then |full| else n;
    FrontIsPulled(pulls, full, sources, n, k);
    PulledFromFull(pulls, full, sources, n);
    SortSorted(pulls);
    PrefixKept(Sort(pulls), full, k);
  }

  /** A sorted part of a sorted sequence that keeps its first `k` rows starts with them. */
  lemma PrefixKept(part: seq<Row>, full: seq<Row>, k: nat)
    requires StrictlySorted(part) && StrictlySorted(full)
    requires k <= |full|
    requires forall x :: x in part ==> x in full
    requires forall x :: x in full[..k] ==> x in part
    ensures |part| >= k && part[..k] == full[..k]
    ensures k == |full| ==> part == full
  {
    var front, back := full[..k], full[k..];
    SplitSorted(full, k);
    var isKept := (r: Row) => r in part;
    var kept := Filter(back, isKept);
    FilterSorted(back, isKept);
    SortedConcat(front, kept);
    SortedUnique(part, front + kept);
    assert (front + kept)[..k] == front;
  }

  // ---- Cursors ----

  /** A cursor as `reconstruct` sees it after decoding; `Garbled` is any text that is not the
      encoding of a source, a timestamp and a row id. `at` is the instant the database takes the
      timestamp for, and `zoned` says whether it names its zone. One id has several spellings that
      parse; the re-check compares them as text, so `firstAbove` is the smallest id whose own text
      sorts after the spelling given. The canonical spelling of `id` has `id + 1` there, a braced
      one none at all. */
  datatype Token = Garbled | Token(source: string, at: int, zoned: bool, id: nat, firstAbove: Option<nat>)

  function SourceName(s: Source): string {
    match s
    case Audit => "audit"
    case StateMachine => "state_machine"
    case AdviceBoundary => "advice_boundary"
  }

  function SourceNamed(name: string): Option<Source> {
    if name == "audit" then Some(Audit)
    else if name == "state_machine" then Some(StateMachine)
    else if name == "advice_boundary" then Some(AdviceBoundary)
    else None
  }

  function EncodeCursor(r: Row): Token {
    Token(SourceName(SourceOf(r)), r.at, true, r.id, Some(r.id + 1))
  }

  function CursorKey(t: Token): Option<Key> {
    if t.Garbled? || SourceNamed(t.source).None? then None
    else Some(Key(t.at, SourceOrder(SourceNamed(t.source).value), t.id))
  }

  /** A cursor that decodes, names its zone, and whose spelling sorts no later than the next id. */
  predicate Usable(t: Token) {
    CursorKey(t).Some? && t.zoned && TextSafe(t)
  }

  predicate TextSafe(t: Token)
    requires t.Token?
  {
    t.firstAbove.Some? && t.firstAbove.value <= t.id + 1
  }

  lemma CursorRoundTrip(r: Row)
    ensures CursorKey(EncodeCursor(r)) == Some(KeyOf(r))
    ensures Usable(EncodeCursor(r))
  {
  }

  /** The in-memory comparison with the cursor: timestamp, source order, then the ids as text. */
  predicate Kept(t: Token, r: Row) {
    && CursorKey(t).Some?
    && var order := CursorKey(t).value.order;
       || r.at > t.at
       || (r.at == t.at && SourceOrder(SourceOf(r)) > order)
       || (r.at == t.at && SourceOrder(SourceOf(r)) == order && t.firstAbove.Some? && r.id >= t.firstAbove.value)
  }

  /** A row after the cursor that the comparison as text drops all the same. */
  predicate Skipped(t: Token, r: Row) {
    CursorKey(t).Some? && After(CursorKey(t), r) && !Kept(t, r)
  }

  /** A spelling can cost rows exactly when it sorts after the id that follows its own. */
  lemma SkipsNothingIff(t: Token)
    requires CursorKey(t).Some?
    ensures TextSafe(t) <==> forall r :: !Skipped(t, r)
  {
    if !TextSafe(t) {
      var r := match SourceNamed(t.source).value
               case Audit => AuditRow(t.id + 1, t.at, None, "", None)
               case StateMachine => TransitionRow(t.id + 1, t.at, None, "")
               case AdviceBoundary => DecisionRow(t.id + 1, t.at, None, "", "");
      assert Skipped(t, r);
    }
  }

  /** Skipped rows tie with the cursor, so if any row is skipped the first one is. */
  lemma FirstIsSkipped(rest: seq<Row>, t: Token, x: Row)
    requires StrictlySorted(rest)
    requires x in rest && Skipped(t, x)
    requires forall r :: r in rest ==> After(CursorKey(t), r)
    ensures Skipped(t, rest[0])
  {
    assert rest[0] in rest;
    assert x == rest[0] || Less(KeyOf(rest[0]), KeyOf(x));
  }

  // ---- What a caller is promised, column by column ----

  /** The names a request may list. */
  predicate KnownNames(names: Option<set<string>>) {
    names.Some? ==> names.value <= {"audit", "state_machine", "advice_boundary"}
  }

  /** The rows a request lists, table by table: those of the tables it names, or of all three when it
      names none, that are of its matter and meet its filters. */
  predicate Listed(q: Query, names: Option<set<string>>, r: Row) {
    && (q.since.None? || q.since.value <= r.at)
    && (q.until.None? || r.at <= q.until.value)
    && match r
       case AuditRow(_, _, matter, action, invocation) =>
         && (names.None? || "audit" in names.value)
         && matter == q.matter
         && (q.action.None? || q.action.value == action)
         && (q.invocation.None? || Some(q.invocation.value) == invocation)
       case TransitionRow(_, _, owner, status) =>
         && (names.None? || "state_machine" in names.value)
         && q.matter.Some? && owner == q.matter
         && (q.action.None? || q.action.value == "state_machine.transition." + status)
         && q.invocation.None?
       case DecisionRow(_, _, gateMatter, status, outputId) =>
         && (names.None? || "advice_boundary" in names.value)
         && q.matter.Some? && gateMatter == q.matter
         && (q.action.None? || q.action.value == "advice_boundary.decision." + status)
         && (q.invocation.None? || q.invocation.value == outputId)
  }

  /** The order of the timeline: by time; at one time audit rows, then transitions, then decisions;
      within one table by id. */
  predicate InOrder(a: Row, b: Row) {
    || a.at < b.at
    || (a.at == b.at && a.AuditRow? && !b.AuditRow?)
    || (a.at == b.at && a.TransitionRow? && b.DecisionRow?)
    || (a.at == b.at && a.id < b.id && (a.AuditRow? <==> b.AuditRow?) && (a.DecisionRow? <==> b.DecisionRow?))
  }

  /** The rows beyond a cursor that names a row by its table, time and id. */
  predicate Beyond(source: string, at: int, id: nat, r: Row) {
    || r.at > at
    || (r.at == at && source == "audit" && (r.AuditRow? ==> r.id > id))
    || (r.at == at && source == "state_machine" && !r.AuditRow? && (r.TransitionRow? ==> r.id > id))
    || (r.at == at && source == "advice_boundary" && r.DecisionRow? && r.id > id)
  }

  // ---- reconstruct ----

  /** `ZonelessCursor` is the TypeError of comparing a timestamp without a zone with one that has
      one; the others are ValueErrors. */
  datatype Error = LimitOutOfRange | UnknownSource | BadCursor | UnknownCursorSource | ZonelessCursor

  datatype Page = Page(entries: seq<Row>, next: Option<Token>, estimate: nat)

  function AllSources(): set<Source> { {Audit, StateMachine, AdviceBoundary} }

  /** The sources a request names; `None` means all three. */
  function RequestedSources(names: Option<set<string>>): set<Source> {
    match names
    case None => AllSources()
    case Some(ns) => set n | n in ns && SourceNamed(n).Some? :: SourceNamed(n).value
  }

  predicate UnknownNames(names: Option<set<string>>) {
    names.Some? && exists n :: n in names.value && SourceNamed(n).None?
  }

  /** Every table is asked unless names are given, and then just the tables named. */
  lemma RequestedExactly(names: Option<set<string>>)
    ensures UnknownNames(names) <==> !KnownNames(names)
    ensures Audit in RequestedSources(names) <==> names.None? || "audit" in names.value
    ensures StateMachine in RequestedSources(names) <==> names.None? || "state_machine" in names.value
    ensures AdviceBoundary in RequestedSources(names) <==> names.None? || "advice_boundary" in names.value
  {
    if names.Some? {
      assert SourceNamed("audit") == Some(Audit) && SourceNamed("state_machine") == Some(StateMachine) &&
             SourceNamed("advice_boundary") == Some(AdviceBoundary);
      if UnknownNames(names) {
        var n :| n in names.value && SourceNamed(n).None?;
        assert n !in {"audit", "state_machine", "advice_boundary"};
      }
    }
  }

  /** The timeline holds exactly the rows the request lists, in the promised order. */
  lemma TimelineAsPromised(table: seq<Row>, q: Query, names: Option<set<string>>)
    requires DistinctKeys(table)
    ensures forall x :: x in Timeline(table, q, RequestedSources(names)) <==> x in table && Listed(q, names, x)
    ensures var t := Timeline(table, q, RequestedSources(names));
            forall i, j :: 0 <= i < j < |t| ==> InOrder(t[i], t[j])
  {
    RequestedExactly(names);
    RestCharacterised(table, q, RequestedSources(names), None);
    forall x
      ensures Selected(q, RequestedSources(names), x) <==> Listed(q, names, x)
    {
    }
  }

  /** What remains after a cursor is what the request lists beyond the row the cursor names. */
  lemma RestAsPromised(table: seq<Row>, q: Query, names: Option<set<string>>, t: Token)
    requires DistinctKeys(table)
    ensures CursorKey(t).Some? <==> t.Token? && KnownNames(Some({t.source}))
    ensures CursorKey(t).Some? ==>
              forall x :: x in Rest(table, q, RequestedSources(names), CursorKey(t)) <==>
                          x in table && Listed(q, names, x) && Beyond(t.source, t.at, t.id, x)
  {
    TimelineAsPromised(table, q, names);
    RestCharacterised(table, q, RequestedSources(names), None);
    if CursorKey(t).Some? {
      RestCharacterised(table, q, RequestedSources(names), CursorKey(t));
    }
  }

  lemma FirstPageAsPromised(page: Page, table: seq<Row>, q: Query, names: Option<set<string>>, limit: nat)
    requires DistinctKeys(table)
    requires IsPage(page, table, q, RequestedSources(names), None, limit)
    ensures page.next.None? ==> forall x :: x in page.entries <==> x in table && Listed(q, names, x)
    ensures page.next.Some? ==> |page.entries| == limit
    ensures forall x :: x in page.entries ==> x in table && Listed(q, names, x)
    ensures forall i, j :: 0 <= i < j < |page.entries| ==> InOrder(page.entries[i], page.entries[j])
  {
    TimelineAsPromised(table, q, names);
  }

  /** Whatever the first page leaves out comes after all it shows. */
  lemma FirstPageComesFirst(page: Page, table: seq<Row>, q: Query, names: Option<set<string>>, limit: nat, x: Row, y: Row)
    requires DistinctKeys(table)
    requires IsPage(page, table, q, RequestedSources(names), None, limit)
    requires x in page.entries && y !in page.entries
    requires y in table && Listed(q, names, y)
    ensures InOrder(x, y)
  {
    TimelineAsPromised(table, q, names);
    RestCharacterised(table, q, RequestedSources(names), None);
    var t := Timeline(table, q, RequestedSources(names));
    SplitSorted(t, limit);
  }

  function StartKey(cursor: Option<Token>): Option<Key> {
    if cursor.Some? then CursorKey(cursor.value) else None
  }

  /** The page cut from the rows that remain: the first `limit` of them, and a cursor
      naming the last row shown exactly when more rows follow. */
  ghost predicate IsPageOf(page: Page, rest: seq<Row>, limit: nat) {
    && page.entries == Take(limit, rest)
    && (page.next.Some? <==> |rest| > limit)
    && (page.next.Some? ==> page.entries != [] && CursorKey(page.next.value) == Some(LastKey(page.entries)))
    && (page.next.Some? ==> Usable(page.next.value))
    && (|rest| <= limit ==> page.estimate == |rest|)
    && (|rest| > limit ==> limit < page.estimate <= |rest|)
  }

  function LastKey(s: seq<Row>): Key
    requires s != []
  {
    KeyOf(s[|s| - 1])
  }

  ghost predicate IsPage(page: Page, table: seq<Row>, q: Query, sources: set<Source>, c: Option<Key>, limit: nat) {
    IsPageOf(page, Rest(table, q, sources, c), limit)
  }

  /** The merge loop: query every source with one row more than the limit, in any order. */
  method PullSources(table: seq<Row>, q: Query, sources: set<Source>, c: Option<Key>, limit: nat)
    returns (pulls: seq<Row>)
    requires DistinctKeys(table)
    ensures DistinctKeys(pulls)
    ensures Pulled(pulls, Rest(table, q, sources, c), sources, limit + 1)
  {
    ghost var full := Rest(table, q, sources, c);
    RestCharacterised(table, q, sources, c);
    pulls := [];
    var remaining := sources;
    while remaining != {}
      invariant remaining <= sources
      invariant DistinctKeys(pulls)
      invariant Pulled(pulls, full, sources - remaining, limit + 1)
      decreases remaining
    {
      var src :| src in remaining;
      ghost var done := sources - remaining;
      var rows := QuerySource(table, q, src, c, limit + 1);
      QuerySourceExact(table, q, sources, src, c, limit + 1);
      ExtendPulled(pulls, full, done, src, limit + 1, rows);
      pulls := pulls + rows;
      remaining := remaining - {src};
      assert sources - remaining == done + {src};
    }
    assert sources - remaining == sources;
  }

  /** The in-memory re-check of the cursor. */
  function Recheck(pulls: seq<Row>, cursor: Option<Token>): seq<Row> {
    if cursor.None? then pulls else Filter(pulls, r => Kept(cursor.value, r))
  }

  predicate DecodesIfGiven(cursor: Option<Token>) {
    cursor.Some? ==> CursorKey(cursor.value).Some?
  }

  /** No row that remains falls to the comparison of ids as text. */
  ghost predicate NoneSkipped(rest: seq<Row>, cursor: Option<Token>) {
    cursor.Some? ==> forall x :: x in rest ==> !Skipped(cursor.value, x)
  }

  /** What the SQL selected the re-check keeps, unless the cursor's spelling skips it. */
  lemma RecheckRemovesNothing(pulls: seq<Row>, table: seq<Row>, q: Query, sources: set<Source>, cursor: Option<Token>)
    requires DistinctKeys(table)
    requires DecodesIfGiven(cursor)
    requires forall x :: x in pulls ==> x in Rest(table, q, sources, StartKey(cursor))
    requires NoneSkipped(Rest(table, q, sources, StartKey(cursor)), cursor)
    ensures Recheck(pulls, cursor) == pulls
  {
    RestCharacterised(table, q, sources, StartKey(cursor));
    if cursor.Some? {
      FilterAll(pulls, r => Kept(cursor.value, r));
    }
  }

  /** The page is the right one exactly when the cursor's spelling skips none of the rows that remain. */
  method Reconstruct(table: seq<Row>, q: Query, names: Option<set<string>>, cursor: Option<Token>, limit: int)
    returns (result: Result<Page, Error>)
    requires DistinctKeys(table)
    ensures result == Err(LimitOutOfRange) <==> limit <= 0 || limit > 500
    ensures 0 < limit <= 500 ==> (result == Err(UnknownSource) <==> !KnownNames(names))
    ensures result.Ok? && cursor.None? && result.value.next.None? ==>
              forall x :: x in result.value.entries <==> x in table && Listed(q, names, x)
    ensures result.Ok? ==> |result.value.entries| <= limit
    ensures 0 < limit <= MAX_LIMIT && !UnknownNames(names) ==>
              (result == Err(BadCursor) <==> cursor == Some(Garbled))
    ensures 0 < limit <= MAX_LIMIT && !UnknownNames(names) && cursor != Some(Garbled) ==>
              (result == Err(UnknownCursorSource) <==> !DecodesIfGiven(cursor))
    ensures 0 < limit <= MAX_LIMIT && !UnknownNames(names) && DecodesIfGiven(cursor) ==>
              (result == Err(ZonelessCursor) <==> Zoneless(cursor) && Rest(table, q, RequestedSources(names), StartKey(cursor)) != [])
    ensures result.Ok? <==> Accepts(table, q, names, cursor, limit)
    ensures result.Ok? ==>
              (IsPage(result.value, table, q, RequestedSources(names), StartKey(cursor), limit) <==>
               NoneSkipped(Rest(table, q, RequestedSources(names), StartKey(cursor)), cursor))
    ensures 0 < limit <= MAX_LIMIT && !UnknownNames(names) && (cursor.Some? ==> Usable(cursor.value)) ==>
              result.Ok? && IsPage(result.value, table, q, RequestedSources(names), StartKey(cursor), limit)
  {
    if limit <= 0 || limit > MAX_LIMIT {
      return Err(LimitOutOfRange);
    }
    if names.Some? && exists n :: n in names.value && SourceNamed(n).None? {
      return Err(UnknownSource);
    }
    if cursor.Some? {
      if cursor.value.Garbled? {
        return Err(BadCursor);
      }
      if SourceNamed(cursor.value.source).None? {
        return Err(UnknownCursorSource);
      }
    }
    RequestedExactly(names);
    result := MergePage(table, q, RequestedSources(names), cursor, limit);
    if result.Ok? && cursor.None? {
      FirstPageAsPromised(result.value, table, q, names, limit);
    }
    UsableSkipsNothing(Rest(table, q, RequestedSources(names), StartKey(cursor)), cursor);
  }

  predicate Zoneless(cursor: Option<Token>) {
    cursor.Some? && cursor.value.Token? && !cursor.value.zoned
  }

  /** A request that is answered: its arguments are valid, and a cursor without a zone meets no row. */
  predicate Accepts(table: seq<Row>, q: Query, names: Option<set<string>>, cursor: Option<Token>, limit: int) {
    && 0 < limit <= MAX_LIMIT && !UnknownNames(names) && DecodesIfGiven(cursor)
    && (Zoneless(cursor) ==> Rest(table, q, RequestedSources(names), StartKey(cursor)) == [])
  }

  lemma UsableSkipsNothing(rest: seq<Row>, cursor: Option<Token>)
    ensures (cursor.Some? ==> Usable(cursor.value)) ==> NoneSkipped(rest, cursor)
  {
    if cursor.Some? && Usable(cursor.value) {
      SkipsNothingIff(cursor.value);
    }
  }

  function Cut(pulls: seq<Row>, limit: nat): Page
    requires limit > 0
  {
    if |pulls| > limit then Page(pulls[..limit], Some(EncodeCursor(pulls[limit - 1])), |pulls|)
    else Page(pulls, None, |pulls|)
  }

  /** Pull, sort, re-check, cut. Comparing any row with a cursor that has no zone raises. */
  method MergePage(table: seq<Row>, q: Query, sources: set<Source>, cursor: Option<Token>, limit: nat)
    returns (result: Result<Page, Error>)
    requires DistinctKeys(table)
    requires limit > 0 && DecodesIfGiven(cursor)
    ensures result.Err? <==> Zoneless(cursor) && Rest(table, q, sources, StartKey(cursor)) != []
    ensures result.Err? ==> result.error == ZonelessCursor
    ensures result.Ok? ==> |result.value.entries| <= limit
    ensures result.Ok? ==>
              (IsPage(result.value, table, q, sources, StartKey(cursor), limit) <==>
               NoneSkipped(Rest(table, q, sources, StartKey(cursor)), cursor))
  {
    var pulls := PullSources(table, q, sources, StartKey(cursor), limit);
    PulledNothingIff(pulls, table, q, sources, StartKey(cursor), limit);
    pulls := Sort(pulls);
    if Zoneless(cursor) && pulls != [] {
      return Err(ZonelessCursor);
    }
    CutOfPullsIsPage(pulls, table, q, sources, cursor, limit);
    result := Ok(Cut(Recheck(pulls, cursor), limit));
  }

  /** `pulls`, sorted, agrees with the timeline as far as one page and one row reach. */
  ghost predicate Merged(pulls: seq<Row>, full: seq<Row>, limit: nat) {
    && StrictlySorted(pulls)
    && (forall x :: x in pulls ==> x in full)
    && Take(limit + 1, pulls) == Take(limit + 1, full)
    && (|full| <= limit + 1 ==> pulls == full)
  }

  lemma PulledNothingIff(pulls: seq<Row>, table: seq<Row>, q: Query, sources: set<Source>, c: Option<Key>, limit: nat)
    requires DistinctKeys(table)
    requires DistinctKeys(pulls)
    requires Pulled(pulls, Rest(table, q, sources, c), sources, limit + 1)
    ensures Merged(Sort(pulls), Rest(table, q, sources, c), limit)
    ensures Sort(pulls) == [] <==> Rest(table, q, sources, c) == []
  {
    var full := Rest(table, q, sources, c);
    RestCharacterised(table, q, sources, c);
    MergeExact(pulls, full, sources, limit + 1);
    assert full != [] ==> Take(limit + 1, full) != [];
  }

  /** Cutting the merged rows gives the page, unless the re-check skips rows; then the first row
      that remains is missing from it. */
  lemma CutOfPullsIsPage(pulls: seq<Row>, table: seq<Row>, q: Query, sources: set<Source>, cursor: Option<Token>, limit: nat)
    requires DistinctKeys(table)
    requires limit > 0 && DecodesIfGiven(cursor)
    requires Merged(pulls, Rest(table, q, sources, StartKey(cursor)), limit)
    ensures IsPage(Cut(Recheck(pulls, cursor), limit), table, q, sources, StartKey(cursor), limit) <==>
            NoneSkipped(Rest(table, q, sources, StartKey(cursor)), cursor)
  {
    var full := Rest(table, q, sources, StartKey(cursor));
    RestCharacterised(table, q, sources, StartKey(cursor));
    if NoneSkipped(full, cursor) {
      RecheckRemovesNothing(pulls, table, q, sources, cursor);
      CutExact(pulls, full, limit);
    } else {
      var x :| x in full && Skipped(cursor.value, x);
      FirstIsSkipped(full, cursor.value, x);
      var page := Cut(Recheck(pulls, cursor), limit);
      assert forall r :: r in page.entries ==> r in Recheck(pulls, cursor);
      assert full[0] !in page.entries;
      assert Take(limit, full)[0] == full[0];
    }
  }

  lemma CutExact(pulls: seq<Row>, full: seq<Row>, limit: nat)
    requires limit > 0
    requires StrictlySorted(pulls) && StrictlySorted(full)
    requires forall x :: x in pulls ==> x in full
    requires Take(limit + 1, pulls) == Take(limit + 1, full)
    requires |full| <= limit + 1 ==> pulls == full
    ensures IsPageOf(Cut(pulls, limit), full, limit)
  {
    PulledCount(pulls, full, limit);
    if |pulls| > limit {
      CursorRoundTrip(pulls[limit - 1]);
    }
  }

  /** Pulling one more source keeps the pulled rows distinct and complete for the sources done. */
  lemma ExtendPulled(pulls: seq<Row>, full: seq<Row>, done: set<Source>, src: Source, n: nat, rows: seq<Row>)
    requires StrictlySorted(full)
    requires DistinctKeys(pulls) && Pulled(pulls, full, done, n)
    requires src !in done
    requires rows == Take(n, OfSource(full, src))
    ensures DistinctKeys(pulls + rows)
    ensures Pulled(pulls + rows, full, done + {src}, n)
  {
    FilterSorted(full, IsFrom(src));
    assert forall x :: x in rows ==> x in OfSource(full, src);
    assert forall x :: x in rows ==> SourceOf(x) == src;
    DifferentSources(pulls, rows, src);
    SortedIsDistinct(rows);
    DistinctConcat(pulls, rows);
  }

  lemma DifferentSources(a: seq<Row>, b: seq<Row>, src: Source)
    requires forall x :: x in a ==> SourceOf(x) != src
    requires forall x :: x in b ==> SourceOf(x) == src
    ensures forall x, y :: x in a && y in b ==> KeyOf(x) != KeyOf(y)
  {
  }

  lemma PulledCount(pulls: seq<Row>, full: seq<Row>, limit: nat)
    requires StrictlySorted(pulls) && StrictlySorted(full)
    requires forall x :: x in pulls ==> x in full
    requires Take(limit + 1, pulls) == Take(limit + 1, full)
    requires |full| <= limit + 1 ==> pulls == full
    ensures |pulls| > limit <==> |full| > limit
    ensures Take(limit, pulls) == Take(limit, full)
    ensures |pulls| <= |full|
  {
    if |pulls| > limit && |full| > limit {
      assert Take(limit, pulls) == Take(limit + 1, pulls)[..limit];
      assert Take(limit, full) == Take(limit + 1, full)[..limit];
    }
    SubsetNoLonger(pulls, full);
  }

  lemma SubsetNoLonger(a: seq<Row>, b: seq<Row>)
    requires StrictlySorted(a)
    requires forall x :: x in a ==> x in b
    ensures |a| <= |b|
  {
    SetOfSorted(a);
    SetSizeAtMost(b);
    assert (set x | x in a) <= (set x | x in b);
    Sets.SubsetSize((set x | x in a), (set x | x in b));
  }

  lemma {:induction false} SetOfSorted(s: seq<Row>)
    requires StrictlySorted(s)
    ensures |set x | x in s| == |s|
  {
    if s != [] {
      SetOfSorted(s[1..]);
      assert s[0] !in s[1..];
      assert (set x | x in s) == {s[0]} + (set x | x in s[1..]);
    }
  }

  lemma {:induction false} SetSizeAtMost(s: seq<Row>)
    ensures |set x | x in s| <= |s|
  {
    if s != [] {
      SetSizeAtMost(s[1..]);
      assert (set x | x in s) == {s[0]} + (set x | x in s[1..]);
    }
  }
}

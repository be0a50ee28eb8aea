/** The rows behind the reconstructed audit timeline, the global order on them,
    and the SQL operations (filter, ORDER BY, LIMIT) the timeline is built from. */
module TimelineRows {
  import opened Options

  datatype Source = Audit | StateMachine | AdviceBoundary

  /** The tie-breaker between rows of different tables with equal timestamps. */
  function SourceOrder(s: Source): nat {
    match s
    case Audit => 0
    case StateMachine => 1
    case AdviceBoundary => 2
  }

  /** One row of one of the three tables, restricted to the columns that selection
      and order depend on. `owner` is set when the instance is owned by a matter. */
  datatype Row =
    | AuditRow(id: nat, at: int, matter: Option<nat>, auditAction: string, invocation: Option<string>)
    | TransitionRow(id: nat, at: int, owner: Option<nat>, status: string)
    | DecisionRow(id: nat, at: int, gateMatter: Option<nat>, status: string, outputId: string)

  function SourceOf(r: Row): Source {
    match r
    case AuditRow(_, _, _, _, _) => Audit
    case TransitionRow(_, _, _, _) => StateMachine
    case DecisionRow(_, _, _, _, _) => AdviceBoundary
  }

  datatype Key = Key(at: int, order: nat, id: nat)

  function KeyOf(r: Row): Key {
    Key(r.at, SourceOrder(SourceOf(r)), r.id)
  }

  predicate Less(a: Key, b: Key) {
    a.at < b.at || (a.at == b.at && (a.order < b.order || (a.order == b.order && a.id < b.id)))
  }

  /** Primary keys are unique within a table, so no two rows share a global key. */
  ghost predicate DistinctKeys(s: seq<Row>) {
    forall i, j :: 0 <= i < j < |s| ==> KeyOf(s[i]) != KeyOf(s[j])
  }

  ghost predicate StrictlySorted(s: seq<Row>) {
    forall i, j :: 0 <= i < j < |s| ==> Less(KeyOf(s[i]), KeyOf(s[j]))
  }

  ghost predicate SameRows(a: seq<Row>, b: seq<Row>) {
    forall x :: x in a <==> x in b
  }

  function Take(n: nat, s: seq<Row>): seq<Row> {
    if |s| <= n then s else s[..n]
  }

  function Filter(s: seq<Row>, p: Row -> bool): (r: seq<Row>)
    ensures |r| <= |s|
    ensures forall x :: x in r <==> x in s && p(x)
  {
    if s == [] then []
    else if p(s[0]) then [s[0]] + Filter(s[1..], p)
    else Filter(s[1..], p)
  }

  function Insert(e: Row, s: seq<Row>): (r: seq<Row>)
    ensures |r| == |s| + 1
    ensures forall x :: x in r <==> x == e || x in s
  {
    if s == [] || Less(KeyOf(e), KeyOf(s[0])) then [e] + s
    else [s[0]] + Insert(e, s[1..])
  }

  /** Sorting by the global key: ORDER BY within one table, `list.sort` across them. */
  function Sort(s: seq<Row>): (r: seq<Row>)
    ensures |r| == |s|
    ensures SameRows(r, s)
  {
    if s == [] then [] else Insert(s[0], Sort(s[1..]))
  }

  // ---- Filter ----

  lemma {:induction false} FilterConcat(a: seq<Row>, b: seq<Row>, p: Row -> bool)
    ensures Filter(a + b, p) == Filter(a, p) + Filter(b, p)
  {
    if a == [] {
      assert a + b == b;
    } else {
      assert (a + b)[1..] == a[1..] + b;
      FilterConcat(a[1..], b, p);
    }
  }

  lemma {:induction false} FilterSorted(s: seq<Row>, p: Row -> bool)
    requires StrictlySorted(s)
    ensures StrictlySorted(Filter(s, p))
  {
    if s != [] {
      FilterSorted(s[1..], p);
      assert forall x :: x in s[1..] ==> Less(KeyOf(s[0]), KeyOf(x));
    }
  }

  lemma {:induction false} FilterDistinct(s: seq<Row>, p: Row -> bool)
    requires DistinctKeys(s)
    ensures DistinctKeys(Filter(s, p))
  {
    if s != [] {
      FilterDistinct(s[1..], p);
      assert forall x :: x in s[1..] ==> KeyOf(s[0]) != KeyOf(x);
    }
  }

  lemma {:induction false} FilterAll(s: seq<Row>, p: Row -> bool)
    requires forall x :: x in s ==> p(x)
    ensures Filter(s, p) == s
  {
    if s != [] {
      assert forall x :: x in s[1..] ==> x in s;
      FilterAll(s[1..], p);
    }
  }

  // ---- Sort ----

  lemma {:induction false} InsertSorted(e: Row, s: seq<Row>)
    requires StrictlySorted(s)
    requires forall x :: x in s ==> KeyOf(x) != KeyOf(e)
    ensures StrictlySorted(Insert(e, s))
  {
    if s == [] || Less(KeyOf(e), KeyOf(s[0])) {
    } else {
      assert forall x :: x in s[1..] ==> x in s && Less(KeyOf(s[0]), KeyOf(x));
      assert s[0] in s;
      InsertSorted(e, s[1..]);
    }
  }

  lemma {:induction false} SortSorted(s: seq<Row>)
    requires DistinctKeys(s)
    ensures StrictlySorted(Sort(s))
  {
    if s != [] {
      SortSorted(s[1..]);
      assert forall x :: x in s[1..] ==> KeyOf(s[0]) != KeyOf(x);
      InsertSorted(s[0], Sort(s[1..]));
    }
  }

  lemma SortedIsDistinct(s: seq<Row>)
    requires StrictlySorted(s)
    ensures DistinctKeys(s)
  {
  }

  /** A set of rows with distinct keys has exactly one sorted listing. */
  lemma {:induction false} SortedUnique(a: seq<Row>, b: seq<Row>)
    requires StrictlySorted(a) && StrictlySorted(b)
    requires SameRows(a, b)
    ensures a == b
  {
    assert a != [] ==> a[0] in b;
    assert b != [] ==> b[0] in a;
    if a != [] {
      assert a[0] == b[0];
      TailSameRows(a, b);
      TailSameRows(b, a);
      SortedUnique(a[1..], b[1..]);
      assert a == [a[0]] + a[1..];
      assert b == [b[0]] + b[1..];
    }
  }

  lemma TailSameRows(a: seq<Row>, b: seq<Row>)
    requires StrictlySorted(a) && StrictlySorted(b)
    requires SameRows(a, b)
    requires a != [] && b != [] && a[0] == b[0]
    ensures forall x :: x in a[1..] ==> x in b[1..]
  {
    forall x | x in a[1..]
      ensures x in b[1..]
    {
      assert Less(KeyOf(a[0]), KeyOf(x));
      assert x in a;
      assert x in b;
      var i :| 0 <= i < |b| && b[i] == x;
      assert i != 0;
      assert b[1..][i - 1] == x;
    }
  }

  // ---- Concatenation ----

  lemma SortedConcat(a: seq<Row>, b: seq<Row>)
    requires StrictlySorted(a) && StrictlySorted(b)
    requires forall x, y :: x in a && y in b ==> Less(KeyOf(x), KeyOf(y))
    ensures StrictlySorted(a + b)
  {
    var s := a + b;
    forall i, j | 0 <= i < j < |s|
      ensures Less(KeyOf(s[i]), KeyOf(s[j]))
    {
      if i < |a| <= j {
        assert s[i] == a[i] && s[j] == b[j - |a|];
      }
    }
  }

  lemma DistinctConcat(a: seq<Row>, b: seq<Row>)
    requires DistinctKeys(a) && DistinctKeys(b)
    requires forall x, y :: x in a && y in b ==> KeyOf(x) != KeyOf(y)
    ensures DistinctKeys(a + b)
  {
    var s := a + b;
    forall i, j | 0 <= i < j < |s|
      ensures KeyOf(s[i]) != KeyOf(s[j])
    {
      if i < |a| <= j {
        assert s[i] == a[i] && s[j] == b[j - |a|];
      }
    }
  }

  lemma SplitSorted(s: seq<Row>, k: nat)
    requires StrictlySorted(s)
    requires k <= |s|
    ensures StrictlySorted(s[..k]) && StrictlySorted(s[k..])
    ensures forall x, y :: x in s[..k] && y in s[k..] ==> Less(KeyOf(x), KeyOf(y))
    ensures forall x :: x in s <==> x in s[..k] || x in s[k..]
  {
    assert s == s[..k] + s[k..];
  }
}

/** How chain rows get written: the AFTER INSERT trigger under its per-scope advisory lock,
    run by any number of interleaved transactions, and the one-off backfill. */
module ChainProtocol {
  import opened Options
  import opened AuditChain

  // ---- The trigger ----

  /** ORDER BY scope_sequence DESC LIMIT 1. */
  function Head(c: seq<ChainRow>): (r: Option<ChainRow>)
    ensures r.None? <==> c == []
    ensures r.Some? ==> r.value in c && forall x :: x in c ==> x.sequence <= r.value.sequence
  {
    if c == [] then None
    else
      var rest := Head(c[..|c| - 1]);
      var x := c[|c| - 1];
      assert forall y :: y in c ==> y in c[..|c| - 1] || y == x;
      if rest.None? || rest.value.sequence <= x.sequence then Some(x) else rest
  }

  /** The chain row the trigger writes for a new entry, given the chain rows it can see. */
  function NewRow(hash: Hash, visible: seq<ChainRow>, e: AuditEntry): ChainRow {
    var sc := ScopeFor(e);
    var head := Head(OfScope(visible, sc));
    var previous := if head.None? then None else Some(head.value.chainHash);
    var sequence := (if head.None? then 0 else head.value.sequence) + 1;
    var entryHash := EntryHash(hash, e);
    var chainHash := LinkHash(hash, CHAIN_VERSION, sc.scopeType, sc.matterId, sequence, e.id, previous, entryHash);
    ChainRow(e.id, sc, sequence, previous, entryHash, chainHash, CHAIN_VERSION)
  }

  lemma {:induction false} OfScopeConcat(a: seq<ChainRow>, b: seq<ChainRow>, sc: Scope)
    ensures OfScope(a + b, sc) == OfScope(a, sc) + OfScope(b, sc)
  {
    if b == [] {
      assert a + b == a;
    } else {
      assert (a + b)[..|a + b| - 1] == a + b[..|b| - 1];
      OfScopeConcat(a, b[..|b| - 1], sc);
    }
  }

  lemma OfScopeAppend(a: seq<ChainRow>, r: ChainRow, sc: Scope)
    ensures r.scope == sc ==> OfScope(a + [r], sc) == OfScope(a, sc) + [r]
    ensures r.scope != sc ==> OfScope(a + [r], sc) == OfScope(a, sc)
  {
    assert (a + [r])[..|a|] == a;
  }

  lemma HeadOfLinked(c: seq<ChainRow>)
    requires Linked(c) && c != []
    ensures Head(c) == Some(c[|c| - 1])
  {
    assert LinkedAt(c, |c| - 1);
    assert c[|c| - 1] in c;
    forall i | 0 <= i < |c|
      ensures c[i].sequence == i + 1
    {
      assert LinkedAt(c, i);
    }
  }

  /** A triggered row describes its entry and extends its scope's links by one. */
  lemma NewRowLinks(hash: Hash, visible: seq<ChainRow>, e: AuditEntry)
    requires AllLinked(visible)
    ensures Describes(hash, e, NewRow(hash, visible, e))
    ensures AllLinked(visible + [NewRow(hash, visible, e)])
    ensures NewRow(hash, visible, e).entryId == e.id && NewRow(hash, visible, e).version == 1
    ensures NewRow(hash, visible, e).scope ==
            if e.matterId.None? then Scope("system", None) else Scope("matter", e.matterId)
  {
    var r := NewRow(hash, visible, e);
    var next := visible + [r];
    var c := OfScope(visible, r.scope);
    assert Linked(c);
    if c != [] {
      HeadOfLinked(c);
      assert LinkedAt(c, |c| - 1);
    }
    LinkedStep(c, r);
    forall sc
      ensures Linked(OfScope(next, sc))
    {
      OfScopeAppend(visible, r, sc);
      assert Linked(OfScope(visible, sc));
    }
  }

  // ---- Interleaved transactions ----

  /** An open transaction: what it inserted so far and the advisory locks it holds. */
  datatype Txn = Txn(entries: seq<AuditEntry>, rows: seq<ChainRow>, locks: set<int>)

  /** Committed tables, and the open transactions by id. */
  datatype State = State(entries: seq<AuditEntry>, chain: seq<ChainRow>, open: map<nat, Txn>)

  datatype Step = Begin(t: nat) | Insert(t: nat, entry: AuditEntry) | Commit(t: nat) | Rollback(t: nat)

  /** The lock key of a scope; different scopes may share one. */
  type LockKey = Scope -> int

  predicate Fresh(s: State, id: string) {
    && (forall e :: e in s.entries ==> e.id != id)
    && (forall t, e :: t in s.open && e in s.open[t].entries ==> e.id != id)
  }

  /** An insert waits until no other transaction holds its scope's lock; locks are held to the
      transaction's end. Entry ids are random UUIDs, never reused. */
  ghost predicate Enabled(lockKey: LockKey, s: State, step: Step) {
    match step
    case Begin(t) => t !in s.open
    case Insert(t, e) =>
      && t in s.open && Fresh(s, e.id)
      && forall u :: u in s.open && u != t ==> lockKey(ScopeFor(e)) !in s.open[u].locks
    case Commit(t) => t in s.open
    case Rollback(t) => t in s.open
  }

  /** The head is read after the lock is taken, from the committed rows and the transaction's own. */
  function Next(hash: Hash, lockKey: LockKey, s: State, step: Step): State
    requires !step.Begin? ==> step.t in s.open
  {
    match step
    case Begin(t) => s.(open := s.open[t := Txn([], [], {})])
    case Insert(t, e) =>
      var txn := s.open[t];
      var row := NewRow(hash, s.chain + txn.rows, e);
      s.(open := s.open[t := Txn(txn.entries + [e], txn.rows + [row], txn.locks + {lockKey(ScopeFor(e))})])
    case Commit(t) =>
      State(s.entries + s.open[t].entries, s.chain + s.open[t].rows, s.open - {t})
    case Rollback(t) => s.(open := s.open - {t})
  }

  /** Entry `i` is described by row `i`. */
  ghost predicate Aligned(hash: Hash, entries: seq<AuditEntry>, rows: seq<ChainRow>) {
    |entries| == |rows| && forall i :: 0 <= i < |rows| ==> Describes(hash, entries[i], rows[i])
  }

  ghost predicate DisjointIds(a: seq<AuditEntry>, b: seq<AuditEntry>) {
    forall x, y :: x in a && y in b ==> x.id != y.id
  }

  ghost predicate Locked(lockKey: LockKey, txn: Txn) {
    forall r :: r in txn.rows ==> lockKey(r.scope) in txn.locks
  }

  ghost predicate TxnOk(hash: Hash, lockKey: LockKey, s: State, txn: Txn) {
    && Aligned(hash, txn.entries, txn.rows)
    && DistinctIds(txn.entries)
    && DisjointIds(s.entries, txn.entries)
    && Locked(lockKey, txn)
    && AllLinked(s.chain + txn.rows)
  }

  ghost predicate Apart(a: Txn, b: Txn) {
    a.locks !! b.locks && DisjointIds(a.entries, b.entries)
  }

  ghost predicate CommittedOk(hash: Hash, s: State) {
    Aligned(hash, s.entries, s.chain) && DistinctIds(s.entries) && AllLinked(s.chain)
  }

  ghost predicate Inv(hash: Hash, lockKey: LockKey, s: State) {
    && CommittedOk(hash, s)
    && (forall t :: t in s.open ==> TxnOk(hash, lockKey, s, s.open[t]))
    && (forall t, u :: t in s.open && u in s.open && t != u ==> Apart(s.open[t], s.open[u]))
  }

  lemma InsertKeepsTxn(hash: Hash, lockKey: LockKey, s: State, t: nat, e: AuditEntry)
    requires Inv(hash, lockKey, s)
    requires Enabled(lockKey, s, Insert(t, e))
    ensures TxnOk(hash, lockKey, s, Next(hash, lockKey, s, Insert(t, e)).open[t])
  {
    var txn := s.open[t];
    assert TxnOk(hash, lockKey, s, txn);
    assert forall x :: x in txn.entries ==> x.id != e.id;
    assert forall x :: x in s.entries ==> x.id != e.id;
    ExtendedTxnOk(hash, lockKey, s, txn, e);
  }

  lemma ExtendedTxnOk(hash: Hash, lockKey: LockKey, s: State, txn: Txn, e: AuditEntry)
    requires TxnOk(hash, lockKey, s, txn)
    requires forall x :: x in txn.entries ==> x.id != e.id
    requires forall x :: x in s.entries ==> x.id != e.id
    ensures TxnOk(hash, lockKey, s, Txn(txn.entries + [e], txn.rows + [NewRow(hash, s.chain + txn.rows, e)],
                                        txn.locks + {lockKey(ScopeFor(e))}))
  {
    var row := NewRow(hash, s.chain + txn.rows, e);
    NewRowLinks(hash, s.chain + txn.rows, e);
    assert s.chain + (txn.rows + [row]) == s.chain + txn.rows + [row];
    AlignedAppend(hash, txn.entries, txn.rows, e, row);
    LockedAppend(lockKey, txn, e, row);
  }

  lemma AlignedAppend(hash: Hash, entries: seq<AuditEntry>, rows: seq<ChainRow>, e: AuditEntry, row: ChainRow)
    requires Aligned(hash, entries, rows) && DistinctIds(entries)
    requires Describes(hash, e, row)
    requires forall x :: x in entries ==> x.id != e.id
    ensures Aligned(hash, entries + [e], rows + [row]) && DistinctIds(entries + [e])
  {
  }

  lemma LockedAppend(lockKey: LockKey, txn: Txn, e: AuditEntry, row: ChainRow)
    requires Locked(lockKey, txn)
    requires row.scope == ScopeFor(e)
    ensures Locked(lockKey, Txn(txn.entries + [e], txn.rows + [row], txn.locks + {lockKey(ScopeFor(e))}))
  {
  }

  lemma InsertKeepsApart(hash: Hash, lockKey: LockKey, s: State, t: nat, e: AuditEntry, u: nat)
    requires Inv(hash, lockKey, s)
    requires Enabled(lockKey, s, Insert(t, e))
    requires u in s.open && u != t
    ensures Apart(Next(hash, lockKey, s, Insert(t, e)).open[t], s.open[u])
    ensures Apart(s.open[u], Next(hash, lockKey, s, Insert(t, e)).open[t])
  {
    assert Apart(s.open[t], s.open[u]);
  }

  /** Rows of transactions that wrote to different scopes link up in either order. */
  lemma LinkedMerge(chain: seq<ChainRow>, a: seq<ChainRow>, b: seq<ChainRow>)
    requires AllLinked(chain + a) && AllLinked(chain + b)
    requires forall x, y :: x in a && y in b ==> x.scope != y.scope
    ensures AllLinked(chain + a + b)
  {
    var rows := chain + a + b;
    forall sc
      ensures Linked(OfScope(rows, sc))
    {
      MergeOfScope(chain, a, b, sc);
      assert Linked(OfScope(chain + a, sc)) && Linked(OfScope(chain + b, sc));
    }
  }

  lemma MergeOfScope(chain: seq<ChainRow>, a: seq<ChainRow>, b: seq<ChainRow>, sc: Scope)
    requires forall x, y :: x in a && y in b ==> x.scope != y.scope
    ensures OfScope(chain + a + b, sc) == OfScope(chain + a, sc) || OfScope(chain + a + b, sc) == OfScope(chain + b, sc)
  {
    OfScopeConcat(chain + a, b, sc);
    OfScopeConcat(chain, a, sc);
    OfScopeConcat(chain, b, sc);
    if OfScope(a, sc) != [] {
      assert OfScope(a, sc)[0] in OfScope(a, sc);
      OfScopeNone(b, sc);
    }
  }

  lemma {:induction false} OfScopeNone(rows: seq<ChainRow>, sc: Scope)
    requires forall x :: x in rows ==> x.scope != sc
    ensures OfScope(rows, sc) == []
  {
    if rows != [] {
      OfScopeNone(rows[..|rows| - 1], sc);
    }
  }

  /** Transactions holding disjoint locks have written to disjoint scopes. */
  lemma OtherScopes(lockKey: LockKey, a: Txn, b: Txn)
    requires Locked(lockKey, a) && Locked(lockKey, b) && a.locks !! b.locks
    ensures forall x, y :: x in a.rows && y in b.rows ==> x.scope != y.scope
  {
  }

  /** Another transaction's commit does not disturb this one: a scope both wrote to would
      have put one lock in both hands. */
  lemma CommitKeepsOther(hash: Hash, lockKey: LockKey, s: State, t: nat, u: nat)
    requires Inv(hash, lockKey, s)
    requires t in s.open && u in s.open && u != t
    ensures TxnOk(hash, lockKey, Next(hash, lockKey, s, Commit(t)), s.open[u])
  {
    var a, b := s.open[t], s.open[u];
    assert Apart(a, b);
    assert TxnOk(hash, lockKey, s, a) && TxnOk(hash, lockKey, s, b);
    OtherScopes(lockKey, a, b);
    LinkedMerge(s.chain, a.rows, b.rows);
  }

  lemma CommitKeepsCommitted(hash: Hash, lockKey: LockKey, s: State, t: nat)
    requires Inv(hash, lockKey, s)
    requires t in s.open
    ensures CommittedOk(hash, Next(hash, lockKey, s, Commit(t)))
  {
    assert TxnOk(hash, lockKey, s, s.open[t]);
  }

  lemma BeginKeepsInv(hash: Hash, lockKey: LockKey, s: State, t: nat)
    requires Inv(hash, lockKey, s)
    requires t !in s.open
    ensures Inv(hash, lockKey, Next(hash, lockKey, s, Begin(t)))
  {
    var s' := Next(hash, lockKey, s, Begin(t));
    assert s.chain + [] == s.chain;
    assert TxnOk(hash, lockKey, s', s'.open[t]);
    forall u | u in s.open
      ensures TxnOk(hash, lockKey, s', s'.open[u])
    {
      assert TxnOk(hash, lockKey, s, s.open[u]);
    }
  }

  lemma InsertKeepsOther(hash: Hash, lockKey: LockKey, s: State, t: nat, e: AuditEntry, u: nat)
    requires Inv(hash, lockKey, s)
    requires t in s.open && u in s.open && u != t
    ensures TxnOk(hash, lockKey, Next(hash, lockKey, s, Insert(t, e)), s.open[u])
  {
    assert TxnOk(hash, lockKey, s, s.open[u]);
  }

  lemma InsertKeepsInv(hash: Hash, lockKey: LockKey, s: State, t: nat, e: AuditEntry)
    requires Inv(hash, lockKey, s)
    requires Enabled(lockKey, s, Insert(t, e))
    ensures Inv(hash, lockKey, Next(hash, lockKey, s, Insert(t, e)))
  {
    var s' := Next(hash, lockKey, s, Insert(t, e));
    InsertKeepsTxn(hash, lockKey, s, t, e);
    forall u | u in s.open && u != t
      ensures Apart(s'.open[t], s'.open[u]) && Apart(s'.open[u], s'.open[t])
      ensures TxnOk(hash, lockKey, s', s'.open[u])
    {
      InsertKeepsApart(hash, lockKey, s, t, e, u);
      InsertKeepsOther(hash, lockKey, s, t, e, u);
    }
  }

  lemma CommitKeepsInv(hash: Hash, lockKey: LockKey, s: State, t: nat)
    requires Inv(hash, lockKey, s)
    requires t in s.open
    ensures Inv(hash, lockKey, Next(hash, lockKey, s, Commit(t)))
  {
    var s' := Next(hash, lockKey, s, Commit(t));
    CommitKeepsCommitted(hash, lockKey, s, t);
    forall u | u in s'.open
      ensures TxnOk(hash, lockKey, s', s'.open[u])
    {
      CommitKeepsOther(hash, lockKey, s, t, u);
    }
  }

  lemma RollbackKeepsInv(hash: Hash, lockKey: LockKey, s: State, t: nat)
    requires Inv(hash, lockKey, s)
    requires t in s.open
    ensures Inv(hash, lockKey, Next(hash, lockKey, s, Rollback(t)))
  {
    var s' := Next(hash, lockKey, s, Rollback(t));
    forall u | u in s'.open
      ensures TxnOk(hash, lockKey, s', s'.open[u])
    {
      assert TxnOk(hash, lockKey, s, s.open[u]);
    }
  }

  lemma StepKeepsInv(hash: Hash, lockKey: LockKey, s: State, step: Step)
    requires Inv(hash, lockKey, s)
    requires Enabled(lockKey, s, step)
    ensures Inv(hash, lockKey, Next(hash, lockKey, s, step))
  {
    match step
    case Begin(t) => BeginKeepsInv(hash, lockKey, s, t);
    case Insert(t, e) => InsertKeepsInv(hash, lockKey, s, t, e);
    case Commit(t) => CommitKeepsInv(hash, lockKey, s, t);
    case Rollback(t) => RollbackKeepsInv(hash, lockKey, s, t);
  }

  /** `s` is reached from `start` by `steps`, each taken when it was enabled. */
  ghost predicate Reaches(hash: Hash, lockKey: LockKey, start: State, steps: seq<Step>, s: State)
    decreases |steps|
  {
    if steps == [] then s == start
    else
      Enabled(lockKey, start, steps[0]) && Reaches(hash, lockKey, Next(hash, lockKey, start, steps[0]), steps[1..], s)
  }

  lemma {:induction false} RunKeepsInv(hash: Hash, lockKey: LockKey, start: State, steps: seq<Step>, s: State)
    requires Inv(hash, lockKey, start)
    requires Reaches(hash, lockKey, start, steps, s)
    ensures Inv(hash, lockKey, s)
    decreases |steps|
  {
    if steps != [] {
      StepKeepsInv(hash, lockKey, start, steps[0]);
      RunKeepsInv(hash, lockKey, Next(hash, lockKey, start, steps[0]), steps[1..], s);
    }
  }

  // ---- What a run publishes ----

  /** What each open transaction has inserted. */
  function Pending(open: map<nat, Txn>): map<nat, seq<AuditEntry>> {
    map t | t in open :: open[t].entries
  }

  /** The entries a run adds to the committed table, read off its steps alone: those of the transactions
      that commit, commit by commit; a rollback leaves no trace. `pending` is what the transactions
      open at the start have inserted. */
  function Published(pending: map<nat, seq<AuditEntry>>, steps: seq<Step>): seq<AuditEntry>
    decreases |steps|
  {
    if steps == [] then []
    else
      match steps[0]
      case Begin(t) => Published(pending[t := []], steps[1..])
      case Insert(t, e) => Published(pending[t := (if t in pending then pending[t] else []) + [e]], steps[1..])
      case Commit(t) => (if t in pending then pending[t] else []) + Published(pending - {t}, steps[1..])
      case Rollback(t) => Published(pending - {t}, steps[1..])
  }

  /** One step's effect on what is pending, and what it publishes at once. */
  lemma StepPublishes(hash: Hash, lockKey: LockKey, s: State, step: Step, rest: seq<Step>)
    requires Enabled(lockKey, s, step)
    ensures s.entries + Published(Pending(s.open), [step] + rest) ==
            Next(hash, lockKey, s, step).entries + Published(Pending(Next(hash, lockKey, s, step).open), rest)
  {
    var s', pending := Next(hash, lockKey, s, step), Pending(s.open);
    assert ([step] + rest)[1..] == rest;
    match step
    case Begin(t) => assert Pending(s'.open) == pending[t := []];
    case Insert(t, e) => assert Pending(s'.open) == pending[t := pending[t] + [e]];
    case Commit(t) =>
      assert Pending(s'.open) == pending - {t};
      assert s.entries + (pending[t] + Published(pending - {t}, rest)) == s.entries + pending[t] + Published(pending - {t}, rest);
    case Rollback(t) => assert Pending(s'.open) == pending - {t};
  }

  /** The committed table is what was there, then what the run published. */
  lemma {:induction false} RunPublishes(hash: Hash, lockKey: LockKey, start: State, steps: seq<Step>, s: State)
    requires Reaches(hash, lockKey, start, steps, s)
    ensures s.entries == start.entries + Published(Pending(start.open), steps)
    decreases |steps|
  {
    if steps == [] {
      assert start.entries + [] == start.entries;
    } else {
      StepPublishes(hash, lockKey, start, steps[0], steps[1..]);
      assert [steps[0]] + steps[1..] == steps;
      RunPublishes(hash, lockKey, Next(hash, lockKey, start, steps[0]), steps[1..], s);
    }
  }

  // ---- The verifier's view of the committed chain ----

  /** `rows` answers the verifier's query: the chosen chain rows, in sequence order per scope. */
  ghost predicate Answers(rows: seq<ChainRow>, chain: seq<ChainRow>, matter: Option<string>) {
    && multiset(rows) == multiset(RowsOf(chain, matter))
    && OrderedPerScope(rows)
  }

  ghost predicate OrderedPerScope(rows: seq<ChainRow>) {
    forall i, j :: 0 <= i < j < |rows| && rows[i].scope == rows[j].scope ==> rows[i].sequence <= rows[j].sequence
  }

  ghost predicate Nondecreasing(c: seq<ChainRow>) {
    forall i, j :: 0 <= i < j < |c| ==> c[i].sequence <= c[j].sequence
  }

  lemma {:induction false} OfScopeOrdered(rows: seq<ChainRow>, sc: Scope)
    requires OrderedPerScope(rows)
    ensures Nondecreasing(OfScope(rows, sc))
  {
    if rows != [] {
      var front, last := rows[..|rows| - 1], rows[|rows| - 1];
      OfScopeOrdered(front, sc);
      assert forall x :: x in front && x.scope == last.scope ==> x.sequence <= last.sequence;
    }
  }

  lemma {:induction false} OfScopeMultiset(rows: seq<ChainRow>, sc: Scope, x: ChainRow)
    ensures multiset(OfScope(rows, sc))[x] == if x.scope == sc then multiset(rows)[x] else 0
  {
    if rows != [] {
      var front := rows[..|rows| - 1];
      OfScopeMultiset(front, sc, x);
      assert rows == front + [rows[|rows| - 1]];
    }
  }

  lemma SameLast(c: seq<ChainRow>, d: seq<ChainRow>)
    requires Linked(c) && Nondecreasing(d)
    requires multiset(c) == multiset(d)
    requires |c| == |d| > 0
    ensures c[|c| - 1] == d[|d| - 1]
  {
    var n := |c| - 1;
    assert d[n] in multiset(d) && c[n] in multiset(c);
    assert d[n] in c && c[n] in d;
    var i :| 0 <= i < |c| && c[i] == d[n];
    var j :| 0 <= j < |d| && d[j] == c[n];
    assert LinkedAt(c, i) && LinkedAt(c, n);
  }

  lemma DropLast(c: seq<ChainRow>)
    requires c != []
    ensures multiset(c[..|c| - 1]) == multiset(c) - multiset{c[|c| - 1]}
  {
    assert c == c[..|c| - 1] + [c[|c| - 1]];
  }

  lemma LinkedPrefix(c: seq<ChainRow>, n: nat)
    requires Linked(c) && n <= |c|
    ensures Linked(c[..n])
  {
    forall j | 0 <= j < n
      ensures LinkedAt(c[..n], j)
    {
      assert LinkedAt(c, j);
    }
  }

  function Front(c: seq<ChainRow>): (r: seq<ChainRow>)
    requires c != []
    ensures |r| == |c| - 1
    ensures c == r + [c[|c| - 1]]
  {
    c[..|c| - 1]
  }

  lemma FrontsMatch(c: seq<ChainRow>, d: seq<ChainRow>)
    requires Linked(c) && Nondecreasing(d)
    requires multiset(c) == multiset(d)
    requires |c| == |d| > 0
    ensures c[|c| - 1] == d[|d| - 1]
    ensures Linked(Front(c)) && Nondecreasing(Front(d)) && multiset(Front(c)) == multiset(Front(d))
  {
    SameLast(c, d);
    DropLast(c);
    DropLast(d);
    LinkedPrefix(c, |c| - 1);
  }

  /** The linked listing of a scope is the only one in sequence order. */
  lemma {:induction false} LinkedUnique(c: seq<ChainRow>, d: seq<ChainRow>)
    requires Linked(c)
    requires Nondecreasing(d)
    requires multiset(c) == multiset(d)
    ensures c == d
    decreases |c|
  {
    assert |multiset(c)| == |c| && |multiset(d)| == |d|;
    if c != [] {
      FrontsMatch(c, d);
      LinkedUnique(Front(c), Front(d));
    }
  }

  lemma {:induction false} OfScopeOfRowsOf(chain: seq<ChainRow>, matter: Option<string>, sc: Scope)
    ensures matter.None? || sc.matterId == matter ==> OfScope(RowsOf(chain, matter), sc) == OfScope(chain, sc)
    ensures matter.Some? && sc.matterId != matter ==> OfScope(RowsOf(chain, matter), sc) == []
  {
    if chain != [] {
      var front, last := chain[..|chain| - 1], chain[|chain| - 1];
      OfScopeOfRowsOf(front, matter, sc);
      OfScopeAppend(RowsOf(front, matter), last, sc);
    }
  }

  lemma AnswerIsLinked(rows: seq<ChainRow>, chain: seq<ChainRow>, matter: Option<string>)
    requires AllLinked(chain)
    requires Answers(rows, chain, matter)
    ensures AllLinked(rows)
  {
    forall sc
      ensures Linked(OfScope(rows, sc))
    {
      var chosen := RowsOf(chain, matter);
      OfScopeOfRowsOf(chain, matter, sc);
      assert Linked(OfScope(chain, sc));
      forall x
        ensures multiset(OfScope(rows, sc))[x] == multiset(OfScope(chosen, sc))[x]
      {
        OfScopeMultiset(rows, sc, x);
        OfScopeMultiset(chosen, sc, x);
      }
      assert multiset(OfScope(rows, sc)) == multiset(OfScope(chosen, sc));
      OfScopeOrdered(rows, sc);
      LinkedUnique(OfScope(chosen, sc), OfScope(rows, sc));
    }
  }

  lemma {:induction false} AlignedCounts(hash: Hash, entries: seq<AuditEntry>, chain: seq<ChainRow>, matter: Option<string>)
    requires Aligned(hash, entries, chain)
    ensures |EntriesOf(entries, matter)| == |RowsOf(chain, matter)|
  {
    if chain != [] {
      var n := |chain| - 1;
      assert Describes(hash, entries[n], chain[n]);
      AlignedCounts(hash, entries[..n], chain[..n], matter);
    }
  }

  lemma AlignedIsBacked(hash: Hash, entries: seq<AuditEntry>, chain: seq<ChainRow>, rows: seq<ChainRow>)
    requires Aligned(hash, entries, chain) && DistinctIds(entries)
    requires forall r :: r in rows ==> r in chain
    ensures AllBacked(hash, entries, rows)
  {
    forall r | r in rows
      ensures Backed(hash, entries, r)
    {
      var i :| 0 <= i < |chain| && chain[i] == r;
      assert Describes(hash, entries[i], chain[i]);
      FindFinds(entries, i);
    }
  }

  lemma CommittedIsSound(hash: Hash, s: State, rows: seq<ChainRow>, matter: Option<string>)
    requires CommittedOk(hash, s)
    requires Answers(rows, s.chain, matter)
    ensures RowsSound(hash, s.entries, rows)
  {
    AnswerIsLinked(rows, s.chain, matter);
    forall r | r in rows
      ensures r in s.chain
    {
      assert r in multiset(rows);
      assert r in RowsOf(s.chain, matter);
    }
    AlignedIsBacked(hash, s.entries, s.chain, rows);
  }

  lemma CommittedIsAccepted(hash: Hash, s: State, rows: seq<ChainRow>, matter: Option<string>)
    requires CommittedOk(hash, s)
    requires Answers(rows, s.chain, matter)
    ensures Accepted(hash, s.entries, s.chain, s.entries, rows, matter)
  {
    AlignedCounts(hash, s.entries, s.chain, matter);
    CommittedIsSound(hash, s, rows, matter);
  }

  // ---- Reading while others commit ----

  /** What was committed stays, in place. */
  ghost predicate Extends(s: State, t: State) {
    s.entries <= t.entries
  }

  lemma {:induction false} RunExtends(hash: Hash, lockKey: LockKey, s: State, steps: seq<Step>, t: State)
    requires Reaches(hash, lockKey, s, steps, t)
    ensures Extends(s, t)
    decreases |steps|
  {
    if steps != [] {
      RunExtends(hash, lockKey, Next(hash, lockKey, s, steps[0]), steps[1..], t);
    }
  }

  /** An entry in range that `t` has and `s` has not. */
  predicate IsNew(s: State, t: State, matter: Option<string>, e: AuditEntry) {
    e in t.entries && e !in s.entries && (matter.Some? ==> e.matterId == matter)
  }

  ghost predicate CommittedBetween(s: State, t: State, matter: Option<string>) {
    exists e :: IsNew(s, t, matter, e)
  }

  lemma {:induction false} EntriesOfConcat(a: seq<AuditEntry>, b: seq<AuditEntry>, matter: Option<string>)
    ensures EntriesOf(a + b, matter) == EntriesOf(a, matter) + EntriesOf(b, matter)
  {
    if b == [] {
      assert a + b == a;
    } else {
      assert (a + b)[..|a + b| - 1] == a + b[..|b| - 1];
      EntriesOfConcat(a, b[..|b| - 1], matter);
    }
  }

  lemma NewHasOwnId(s: State, t: State, e: AuditEntry)
    requires Extends(s, t) && DistinctIds(t.entries)
    requires e in t.entries && e !in s.entries
    ensures forall x :: x in s.entries ==> x.id != e.id
  {
    var j :| 0 <= j < |t.entries| && t.entries[j] == e;
    forall x | x in s.entries
      ensures x.id != e.id
    {
      var i :| 0 <= i < |s.entries| && s.entries[i] == x;
      assert t.entries[i] == x;
    }
  }

  /** The new entries in range are those of the part of the table that `s` does not have. */
  lemma NewIff(s: State, t: State, matter: Option<string>, e: AuditEntry)
    requires Extends(s, t) && DistinctIds(t.entries)
    ensures IsNew(s, t, matter, e) <==> e in EntriesOf(t.entries[|s.entries|..], matter)
  {
    var n := |s.entries|;
    assert t.entries == s.entries + t.entries[n..];
    if e in t.entries[n..] {
      var k :| n <= k < |t.entries| && t.entries[k] == e;
      assert e !in s.entries;
    }
  }

  /** The number of entries in range grows exactly when one was committed. */
  lemma CountGrowsIff(s: State, t: State, matter: Option<string>)
    requires Extends(s, t) && DistinctIds(t.entries)
    ensures |EntriesOf(s.entries, matter)| == |EntriesOf(t.entries, matter)| <==> !CommittedBetween(s, t, matter)
  {
    var more := t.entries[|s.entries|..];
    assert t.entries == s.entries + more;
    EntriesOfConcat(s.entries, more, matter);
    forall e
      ensures IsNew(s, t, matter, e) <==> e in EntriesOf(more, matter)
    {
      NewIff(s, t, matter, e);
    }
    assert EntriesOf(more, matter) != [] ==> EntriesOf(more, matter)[0] in EntriesOf(more, matter);
  }

  /** Whatever the interleaving of inserts, commits and rollbacks, the committed chain is linked in
      every scope, and the verifier, over all scopes or for one matter, accepts it exactly when no
      entry in range was committed between its count of the entries and its count of the rows; what is
      committed before it reads the rows does not matter. */
  lemma EveryRunVerifies(hash: Hash, lockKey: LockKey, start: State, before: seq<Step>, s: State, between: seq<Step>,
                         t: State, later: seq<Step>, u: State, rows: seq<ChainRow>, matter: Option<string>)
    requires Inv(hash, lockKey, start)
    requires Reaches(hash, lockKey, start, before, s) && Reaches(hash, lockKey, s, between, t)
    requires Reaches(hash, lockKey, t, later, u)
    requires Answers(rows, u.chain, matter)
    ensures AllLinked(u.chain) && RowsSound(hash, u.entries, rows)
    ensures Accepted(hash, s.entries, t.chain, u.entries, rows, matter) <==> !CommittedBetween(s, t, matter)
  {
    RunKeepsInv(hash, lockKey, start, before, s);
    RunKeepsInv(hash, lockKey, s, between, t);
    RunKeepsInv(hash, lockKey, t, later, u);
    RunExtends(hash, lockKey, s, between, t);
    CommittedIsSound(hash, u, rows, matter);
    AlignedCounts(hash, t.entries, t.chain, matter);
    CountGrowsIff(s, t, matter);
  }

  // ---- The tables before concurrency: backfill and single inserts ----

  class AuditTables {
    const hash: Hash
    var entries: seq<AuditEntry>
    var chain: seq<ChainRow>

    ghost predicate Valid()
      reads this
    {
      CommittedOk(hash, State(entries, chain, map[]))
    }

    /** The tables as the migration finds them: entries, and an empty chain. */
    constructor (hash: Hash, existing: seq<AuditEntry>)
      ensures existing == [] ==> Valid()
      ensures this.hash == hash && entries == existing && chain == []
    {
      this.hash := hash;
      entries, chain := existing, [];
    }

    /** An insert into `audit_entries` fires the trigger in the same statement. */
    method InsertEntry(e: AuditEntry)
      requires Valid()
      requires forall x :: x in entries ==> x.id != e.id
      modifies this
      ensures Valid()
      ensures entries == old(entries) + [e]
      ensures chain == old(chain) + [NewRow(hash, old(chain), e)]
    {
      NewRowLinks(hash, chain, e);
      var row := NewRow(hash, chain, e);
      entries := entries + [e];
      chain := chain + [row];
    }

    /** Gives the entries that predate the chain their rows, in the order the query lists them. A table
        has no order of its own; afterwards its entries are listed as the chain lists them. */
    method Backfill(listed: seq<AuditEntry>)
      requires chain == [] && DistinctIds(listed)
      requires multiset(listed) == multiset(entries)
      modifies this
      ensures Valid()
      ensures multiset(entries) == old(multiset(entries)) && entries == listed
    {
      for i := 0 to |listed|
        invariant Aligned(hash, listed[..i], chain) && AllLinked(chain)
      {
        NewRowLinks(hash, chain, listed[i]);
        AlignedAppend(hash, listed[..i], chain, listed[i], NewRow(hash, chain, listed[i]));
        assert listed[..i] + [listed[i]] == listed[..i + 1];
        chain := chain + [NewRow(hash, chain, listed[i])];
      }
      assert listed[..|listed|] == listed;
      entries := listed;
    }
  }

  /** Backfilled tables with no transaction open are a start from which every run verifies. */
  lemma QuietTablesStart(hash: Hash, lockKey: LockKey, entries: seq<AuditEntry>, chain: seq<ChainRow>)
    requires CommittedOk(hash, State(entries, chain, map[]))
    ensures Inv(hash, lockKey, State(entries, chain, map[]))
  {
  }
}

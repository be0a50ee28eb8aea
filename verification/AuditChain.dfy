/** Audit entries, the hash-chain rows over them, and the in-database verifier. */
module AuditChain {
  import opened Options
  import opened Canonical

  const CHAIN_VERSION := 1
  const SCOPE_MATTER := "matter"
  const SCOPE_SYSTEM := "system"

  /** SHA-256 over text, rendered in hex; nothing about it is assumed here. */
  type Hash = string -> string

  /** The text of a non-null JSONB column is never empty. */
  type JsonText = s: string | s != "" witness "{}"

  /** A row of `audit_entries`. Ids and the UTC timestamp are held as their canonical text. */
  datatype AuditEntry = AuditEntry(
    id: string, timestamp: string, actorId: Option<string>, matterId: Option<string>,
    action: string, moduleName: Option<string>, resourceType: Option<string>, resourceId: Option<string>,
    modelUsed: Option<string>, promptHash: Option<string>, responseHash: Option<string>,
    tokenCount: Option<int>, latencyMs: Option<int>, tokensIn: Option<int>, tokensOut: Option<int>,
    costMicros: Option<int>, currency: Option<string>, provider: Option<string>, modelId: Option<string>,
    payloadText: JsonText)

  datatype Scope = Scope(scopeType: string, matterId: Option<string>)

  /** A row of `audit_chain`. */
  datatype ChainRow = ChainRow(entryId: string, scope: Scope, sequence: int, previous: Option<string>,
                               entryHash: string, chainHash: string, version: int)

  function NumberText(n: Option<int>): Option<string> {
    match n
    case None => None
    case Some(i) => Some(IntText(i))
  }

  /** `payload_text or "{}"`. */
  function OrEmptyObject(s: string): JsonText {
    if s == "" then "{}" else s
  }

  const FIELD_COUNT := 20

  /** The twenty hashed fields, in hash order. */
  function CanonicalFields(e: AuditEntry): (r: seq<Option<string>>)
    ensures |r| == FIELD_COUNT
    ensures r[0] == Some(e.id) && r[3] == e.matterId
  {
    [Some(e.id), Some(e.timestamp), e.actorId, e.matterId,
     Some(e.action), e.moduleName, e.resourceType, e.resourceId,
     e.modelUsed, e.promptHash, e.responseHash,
     NumberText(e.tokenCount), NumberText(e.latencyMs), NumberText(e.tokensIn), NumberText(e.tokensOut),
     NumberText(e.costMicros), e.currency, e.provider, e.modelId,
     Some(e.payloadText)]
  }

  /** The text an entry's hash is computed over. */
  function HashedText(e: AuditEntry): string {
    Text(ENTRY_PREFIX, CanonicalFields(e))
  }

  function EntryHash(hash: Hash, e: AuditEntry): string {
    hash(HashedText(e))
  }

  lemma NumberTextInjective(a: Option<int>, b: Option<int>)
    requires NumberText(a) == NumberText(b)
    ensures a == b
  {
    if a.Some? && b.Some? {
      IntTextInjective(a.value, b.value);
    }
  }

  /** No column is left out of the hashed fields: they determine the entry. */
  lemma CanonicalFieldsInjective(a: AuditEntry, b: AuditEntry)
    requires CanonicalFields(a) == CanonicalFields(b)
    ensures a == b
  {
    var f, g := CanonicalFields(a), CanonicalFields(b);
    assert forall i :: 0 <= i < FIELD_COUNT ==> f[i] == g[i];
    assert f[1] == g[1] && f[2] == g[2] && f[4] == g[4] && f[5] == g[5] && f[6] == g[6] && f[7] == g[7];
    assert f[8] == g[8] && f[9] == g[9] && f[10] == g[10] && f[16] == g[16] && f[17] == g[17] && f[18] == g[18];
    assert f[11] == g[11] && f[12] == g[12] && f[13] == g[13] && f[14] == g[14] && f[15] == g[15] && f[19] == g[19];
    NumberTextInjective(a.tokenCount, b.tokenCount);
    NumberTextInjective(a.latencyMs, b.latencyMs);
    NumberTextInjective(a.tokensIn, b.tokensIn);
    NumberTextInjective(a.tokensOut, b.tokensOut);
    NumberTextInjective(a.costMicros, b.costMicros);
  }

  /** Different entries are hashed over different texts. */
  lemma HashedTextInjective(a: AuditEntry, b: AuditEntry)
    requires HashedText(a) == HashedText(b)
    ensures a == b
  {
    TextInjective(ENTRY_PREFIX, CanonicalFields(a), CanonicalFields(b));
    CanonicalFieldsInjective(a, b);
  }

  /** What the two kinds of hashed text begin with. */
  lemma TextsBegin(e: AuditEntry, values: seq<Option<string>>)
    ensures "audit-chain-entry-v1" <= HashedText(e)
    ensures "audit-chain-link-v1" <= Text(LINK_PREFIX, values)
  {
    TextIsLines(ENTRY_PREFIX, CanonicalFields(e));
    TextIsLines(LINK_PREFIX, values);
  }

  ghost predicate CollisionFree(hash: Hash, texts: set<string>) {
    forall a, b :: a in texts && b in texts && hash(a) == hash(b) ==> a == b
  }

  function LinkFields(version: int, scopeType: string, matterId: Option<string>, sequence: int, entryId: string,
                      previous: Option<string>, entryHash: string): seq<Option<string>>
  {
    [Some(IntText(version)), Some(scopeType), matterId, Some(IntText(sequence)), Some(entryId), previous,
     Some(entryHash)]
  }

  function LinkHash(hash: Hash, version: int, scopeType: string, matterId: Option<string>, sequence: int,
                    entryId: string, previous: Option<string>, entryHash: string): string
  {
    hash(Text(LINK_PREFIX, LinkFields(version, scopeType, matterId, sequence, entryId, previous, entryHash)))
  }

  function RowLinkHash(hash: Hash, r: ChainRow): string {
    LinkHash(hash, r.version, r.scope.scopeType, r.scope.matterId, r.sequence, r.entryId, r.previous, r.entryHash)
  }

  function ScopeFor(e: AuditEntry): Scope {
    if e.matterId.None? then Scope(SCOPE_SYSTEM, None) else Scope(SCOPE_MATTER, e.matterId)
  }

  // ---- What a correct chain is ----

  /** The row describes its entry: same id, same scope, both hashes recompute, known version. */
  predicate Describes(hash: Hash, e: AuditEntry, r: ChainRow) {
    && r.version == CHAIN_VERSION
    && r.entryId == e.id
    && r.scope == ScopeFor(e)
    && r.entryHash == EntryHash(hash, e)
    && r.chainHash == RowLinkHash(hash, r)
  }

  function OfScope(rows: seq<ChainRow>, sc: Scope): (r: seq<ChainRow>)
    ensures forall x :: x in r <==> x in rows && x.scope == sc
  {
    if rows == [] then []
    else if rows[|rows| - 1].scope == sc then OfScope(rows[..|rows| - 1], sc) + [rows[|rows| - 1]]
    else OfScope(rows[..|rows| - 1], sc)
  }

  /** Row `i` of one scope's rows carries sequence `i + 1` and the hash of the row before it. */
  ghost predicate LinkedAt(c: seq<ChainRow>, i: nat)
    requires i < |c|
  {
    && c[i].sequence == i + 1
    && c[i].previous == (if i == 0 then None else Some(c[i - 1].chainHash))
  }

  ghost predicate Linked(c: seq<ChainRow>) {
    forall i :: 0 <= i < |c| ==> LinkedAt(c, i)
  }

  function Find(entries: seq<AuditEntry>, id: string): (r: Option<AuditEntry>)
    ensures r.Some? ==> r.value in entries && r.value.id == id
    ensures r.None? ==> forall e :: e in entries ==> e.id != id
  {
    if entries == [] then None
    else if entries[0].id == id then Some(entries[0])
    else Find(entries[1..], id)
  }

  ghost predicate DistinctIds(entries: seq<AuditEntry>) {
    forall i, j :: 0 <= i < j < |entries| ==> entries[i].id != entries[j].id
  }

  lemma FindFinds(entries: seq<AuditEntry>, i: nat)
    requires DistinctIds(entries)
    requires i < |entries|
    ensures Find(entries, entries[i].id) == Some(entries[i])
  {
    var r := Find(entries, entries[i].id);
    assert entries[i] in entries;
    var j :| 0 <= j < |entries| && entries[j] == r.value;
  }

  /** The row's entry exists and the row describes it. */
  predicate Backed(hash: Hash, entries: seq<AuditEntry>, r: ChainRow) {
    var e := Find(entries, r.entryId);
    e.Some? && Describes(hash, e.value, r)
  }

  function EntriesOf(entries: seq<AuditEntry>, matter: Option<string>): (r: seq<AuditEntry>)
    ensures forall e :: e in r <==> e in entries && (matter.Some? ==> e.matterId == matter)
  {
    if entries == [] then []
    else if matter.None? || entries[|entries| - 1].matterId == matter then
      EntriesOf(entries[..|entries| - 1], matter) + [entries[|entries| - 1]]
    else EntriesOf(entries[..|entries| - 1], matter)
  }

  function RowsOf(chain: seq<ChainRow>, matter: Option<string>): (r: seq<ChainRow>)
    ensures forall x :: x in r <==> x in chain && (matter.Some? ==> x.scope.matterId == matter)
  {
    if chain == [] then []
    else if matter.None? || chain[|chain| - 1].scope.matterId == matter then
      RowsOf(chain[..|chain| - 1], matter) + [chain[|chain| - 1]]
    else RowsOf(chain[..|chain| - 1], matter)
  }

  /** The rows as the verifier reads them are sound: each backed by its entry, and within
      every scope linked from sequence 1 on. */
  ghost predicate RowsSound(hash: Hash, entries: seq<AuditEntry>, rows: seq<ChainRow>) {
    AllBacked(hash, entries, rows) && AllLinked(rows)
  }

  ghost predicate AllBacked(hash: Hash, entries: seq<AuditEntry>, rows: seq<ChainRow>) {
    forall r :: r in rows ==> Backed(hash, entries, r)
  }

  ghost predicate AllLinked(rows: seq<ChainRow>) {
    forall sc :: Linked(OfScope(rows, sc))
  }

  /** What the verifier certifies: as many rows as entries in range, and all of the rows sound. It
      counts entries, counts rows and reads the rows with their entries in three statements, each of
      which sees what is committed by then. */
  ghost predicate Accepted(hash: Hash, counted: seq<AuditEntry>, chain: seq<ChainRow>,
                           entries: seq<AuditEntry>, rows: seq<ChainRow>, matter: Option<string>)
  {
    && |EntriesOf(counted, matter)| == |RowsOf(chain, matter)|
    && RowsSound(hash, entries, rows)
  }

  // ---- Tampering with stored entries ----

  function HashedTexts(entries: seq<AuditEntry>): set<string> {
    set e | e in entries :: HashedText(e)
  }

  /** One row cannot describe two different entries. */
  lemma OneRowOneEntry(hash: Hash, a: seq<AuditEntry>, b: seq<AuditEntry>, r: ChainRow)
    requires Backed(hash, a, r) && Backed(hash, b, r)
    requires CollisionFree(hash, HashedTexts(a) + HashedTexts(b))
    ensures Find(a, r.entryId) == Find(b, r.entryId)
  {
    var x, y := Find(a, r.entryId).value, Find(b, r.entryId).value;
    assert HashedText(x) in HashedTexts(a) && HashedText(y) in HashedTexts(b);
    HashedTextInjective(x, y);
  }

  /** Two entry tables accepted against the same rows hold the same entry, in every column, under each
      id the rows name, unless the hash collides on their texts. */
  lemma AcceptedPinsEntries(hash: Hash, countedA: seq<AuditEntry>, a: seq<AuditEntry>, countedB: seq<AuditEntry>,
                            b: seq<AuditEntry>, chain: seq<ChainRow>, rows: seq<ChainRow>, matter: Option<string>, r: ChainRow)
    requires Accepted(hash, countedA, chain, a, rows, matter) && Accepted(hash, countedB, chain, b, rows, matter)
    requires CollisionFree(hash, HashedTexts(a) + HashedTexts(b))
    requires r in rows
    ensures Find(a, r.entryId).Some? && Find(a, r.entryId) == Find(b, r.entryId)
  {
    OneRowOneEntry(hash, a, b, r);
  }

  /** So an edit of any column of an entry that a row names is found, as is its removal. */
  lemma TamperingIsFound(hash: Hash, counted: seq<AuditEntry>, a: seq<AuditEntry>, countedB: seq<AuditEntry>,
                         b: seq<AuditEntry>, chain: seq<ChainRow>, rows: seq<ChainRow>, matter: Option<string>, r: ChainRow)
    requires Accepted(hash, counted, chain, a, rows, matter)
    requires CollisionFree(hash, HashedTexts(a) + HashedTexts(b))
    requires r in rows && Find(a, r.entryId) != Find(b, r.entryId)
    ensures !Accepted(hash, countedB, chain, b, rows, matter)
  {
    if Backed(hash, b, r) {
      assert Backed(hash, a, r);
      OneRowOneEntry(hash, a, b, r);
      assert false;
    }
  }

  // ---- verify_audit_chain ----

  datatype Code = UnsupportedVersion | SequenceGap | PreviousHashMismatch | MissingEntry | ScopeMismatch
                | EntryHashMismatch | ChainHashMismatch

  datatype Issue = CountMismatch(entryCount: nat, chainCount: nat) | RowIssue(code: Code, row: ChainRow)

  datatype Verification = Verification(ok: bool, entryCount: nat, chainCount: nat, scopesVerified: nat,
                                       issues: seq<Issue>)

  /** The issues one row raises, given the previous row of its scope. */
  function LinkIssues(previous: Option<ChainRow>, r: ChainRow): seq<Issue> {
    var expected := if previous.None? then 1 else previous.value.sequence + 1;
    var expectedPrevious := if previous.None? then None else Some(previous.value.chainHash);
    (if r.version != CHAIN_VERSION then [RowIssue(UnsupportedVersion, r)] else []) +
    (if r.sequence != expected then [RowIssue(SequenceGap, r)] else []) +
    (if r.previous != expectedPrevious then [RowIssue(PreviousHashMismatch, r)] else [])
  }

  /** A missing entry is one issue and ends the checks on the row. */
  function EntryIssues(hash: Hash, entry: Option<AuditEntry>, r: ChainRow): seq<Issue> {
    match entry
    case None => [RowIssue(MissingEntry, r)]
    case Some(e) =>
      var canonical := e.(payloadText := OrEmptyObject(e.payloadText));
      (if r.scope != ScopeFor(e) then [RowIssue(ScopeMismatch, r)] else []) +
      (if r.entryHash != EntryHash(hash, canonical) then [RowIssue(EntryHashMismatch, r)] else []) +
      (if r.chainHash != RowLinkHash(hash, r) then [RowIssue(ChainHashMismatch, r)] else [])
  }

  /** Whether an issue of this code is due on row `r`, whose scope's last row is `previous`. */
  predicate Due(hash: Hash, previous: Option<ChainRow>, entry: Option<AuditEntry>, r: ChainRow, code: Code) {
    match code
    case UnsupportedVersion => r.version != CHAIN_VERSION
    case SequenceGap => r.sequence != (if previous.None? then 1 else previous.value.sequence + 1)
    case PreviousHashMismatch => r.previous != (if previous.None? then None else Some(previous.value.chainHash))
    case MissingEntry => entry.None?
    case ScopeMismatch => entry.Some? && r.scope != ScopeFor(entry.value)
    case EntryHashMismatch => entry.Some? && r.entryHash != EntryHash(hash, entry.value)
    case ChainHashMismatch => entry.Some? && r.chainHash != RowLinkHash(hash, r)
  }

  predicate IsLinkCode(code: Code) {
    code == UnsupportedVersion || code == SequenceGap || code == PreviousHashMismatch
  }

  lemma LinkIssuesNameFaults(hash: Hash, previous: Option<ChainRow>, entry: Option<AuditEntry>, r: ChainRow, x: Issue)
    ensures x in LinkIssues(previous, r) <==>
            x.RowIssue? && x.row == r && IsLinkCode(x.code) && Due(hash, previous, entry, r, x.code)
  {
  }

  lemma EntryIssuesNameFaults(hash: Hash, previous: Option<ChainRow>, entry: Option<AuditEntry>, r: ChainRow, x: Issue)
    ensures x in EntryIssues(hash, entry, r) <==>
            x.RowIssue? && x.row == r && !IsLinkCode(x.code) && Due(hash, previous, entry, r, x.code)
  {
    assert entry.Some? ==> entry.value.(payloadText := OrEmptyObject(entry.value.payloadText)) == entry.value;
  }

  /** A row's issues carry exactly the codes due on it, and name the row. */
  lemma IssuesNameFaults(hash: Hash, previous: Option<ChainRow>, entry: Option<AuditEntry>, r: ChainRow, x: Issue)
    ensures x in LinkIssues(previous, r) + EntryIssues(hash, entry, r) <==>
            x.RowIssue? && x.row == r && Due(hash, previous, entry, r, x.code)
  {
    LinkIssuesNameFaults(hash, previous, entry, r, x);
    EntryIssuesNameFaults(hash, previous, entry, r, x);
    var links, others := LinkIssues(previous, r), EntryIssues(hash, entry, r);
    assert x in links + others <==> x in links || x in others;
  }

  lemma NoEntryIssues(hash: Hash, entry: Option<AuditEntry>, r: ChainRow)
    requires entry.Some? ==> entry.value.id == r.entryId
    requires r.version == CHAIN_VERSION
    ensures EntryIssues(hash, entry, r) == [] <==> entry.Some? && Describes(hash, entry.value, r)
  {
  }

  function LastOf(c: seq<ChainRow>): Option<ChainRow> {
    if c == [] then None else Some(c[|c| - 1])
  }

  /** The issues of row `i`, its predecessor being the last row of its scope read before it. */
  function IssuesAt(hash: Hash, entries: seq<AuditEntry>, rows: seq<ChainRow>, i: nat): seq<Issue>
    requires i < |rows|
  {
    LinkIssues(LastOf(OfScope(rows[..i], rows[i].scope)), rows[i]) +
    EntryIssues(hash, Find(entries, rows[i].entryId), rows[i])
  }

  function RowIssues(hash: Hash, entries: seq<AuditEntry>, rows: seq<ChainRow>, n: nat): seq<Issue>
    requires n <= |rows|
  {
    if n == 0 then [] else RowIssues(hash, entries, rows, n - 1) + IssuesAt(hash, entries, rows, n - 1)
  }

  lemma OfScopeStep(rows: seq<ChainRow>, i: nat, sc: Scope)
    requires i < |rows|
    ensures rows[i].scope == sc ==> OfScope(rows[..i + 1], sc) == OfScope(rows[..i], sc) + [rows[i]]
    ensures rows[i].scope != sc ==> OfScope(rows[..i + 1], sc) == OfScope(rows[..i], sc)
  {
    assert rows[..i + 1][..i] == rows[..i];
  }

  lemma LinkedStep(c: seq<ChainRow>, r: ChainRow)
    ensures Linked(c + [r]) <==> Linked(c) && LinkedAt(c + [r], |c|)
  {
    var d := c + [r];
    if Linked(d) {
      forall i | 0 <= i < |c|
        ensures LinkedAt(c, i)
      {
        assert LinkedAt(d, i);
      }
    }
    if Linked(c) && LinkedAt(d, |c|) {
      forall i | 0 <= i < |d|
        ensures LinkedAt(d, i)
      {
        if i < |c| {
          assert LinkedAt(c, i);
        }
      }
    }
  }

  /** `previous_by_scope` holds the last row read of every scope read so far. */
  ghost predicate Tracks(previous: map<Scope, ChainRow>, rows: seq<ChainRow>) {
    forall sc :: TracksScope(previous, rows, sc)
  }

  ghost predicate TracksScope(previous: map<Scope, ChainRow>, rows: seq<ChainRow>, sc: Scope) {
    LastRead(previous, sc) == LastOf(OfScope(rows, sc))
  }

  function LastRead(previous: map<Scope, ChainRow>, sc: Scope): Option<ChainRow> {
    if sc in previous then Some(previous[sc]) else None
  }

  lemma TracksStep(previous: map<Scope, ChainRow>, rows: seq<ChainRow>, i: nat)
    requires i < |rows|
    requires Tracks(previous, rows[..i])
    ensures Tracks(previous[rows[i].scope := rows[i]], rows[..i + 1])
  {
    var next, previous' := rows[..i + 1], previous[rows[i].scope := rows[i]];
    forall sc
      ensures TracksScope(previous', next, sc)
    {
      OfScopeStep(rows, i, sc);
      assert TracksScope(previous, rows[..i], sc);
    }
  }

  lemma AllLinkedStep(rows: seq<ChainRow>, i: nat)
    requires i < |rows|
    ensures var c := OfScope(rows[..i], rows[i].scope);
            AllLinked(rows[..i + 1]) <==> AllLinked(rows[..i]) && LinkedAt(c + [rows[i]], |c|)
  {
    var r, next := rows[i], rows[..i + 1];
    var c := OfScope(rows[..i], r.scope);
    OfScopeStep(rows, i, r.scope);
    LinkedStep(c, r);
    if AllLinked(next) {
      forall sc
        ensures Linked(OfScope(rows[..i], sc))
      {
        OfScopeStep(rows, i, sc);
        assert Linked(OfScope(next, sc));
      }
      assert Linked(OfScope(next, r.scope));
    }
    if AllLinked(rows[..i]) && LinkedAt(c + [r], |c|) {
      forall sc
        ensures Linked(OfScope(next, sc))
      {
        OfScopeStep(rows, i, sc);
        assert Linked(OfScope(rows[..i], sc));
      }
    }
  }

  /** Against the last row of a linked scope, the link checks test exactly the next link. */
  lemma LinkIssuesExact(c: seq<ChainRow>, r: ChainRow)
    requires Linked(c)
    ensures LinkIssues(LastOf(c), r) == [] <==> r.version == CHAIN_VERSION && LinkedAt(c + [r], |c|)
  {
    if c != [] {
      assert LinkedAt(c, |c| - 1);
    }
  }

  /** Reading one more row keeps the rows sound exactly when that row raises no issue. */
  lemma RowsSoundStep(hash: Hash, entries: seq<AuditEntry>, rows: seq<ChainRow>, i: nat)
    requires i < |rows|
    ensures RowsSound(hash, entries, rows[..i + 1]) <==>
            RowsSound(hash, entries, rows[..i]) && IssuesAt(hash, entries, rows, i) == []
  {
    var r := rows[i];
    AllLinkedStep(rows, i);
    assert rows[..i + 1] == rows[..i] + [r];
    assert AllBacked(hash, entries, rows[..i + 1]) <==> AllBacked(hash, entries, rows[..i]) && Backed(hash, entries, r);
    if AllLinked(rows[..i]) {
      assert Linked(OfScope(rows[..i], r.scope));
      LinkIssuesExact(OfScope(rows[..i], r.scope), r);
      if r.version == CHAIN_VERSION {
        NoEntryIssues(hash, Find(entries, r.entryId), r);
      }
    }
  }

  /** No row raises an issue exactly when all rows are sound. */
  lemma {:induction false} NoIssuesIffSound(hash: Hash, entries: seq<AuditEntry>, rows: seq<ChainRow>, n: nat)
    requires n <= |rows|
    ensures RowIssues(hash, entries, rows, n) == [] <==> RowsSound(hash, entries, rows[..n])
  {
    if n > 0 {
      NoIssuesIffSound(hash, entries, rows, n - 1);
      RowsSoundStep(hash, entries, rows, n - 1);
    }
  }

  function CountIssues(entryCount: nat, chainCount: nat): seq<Issue> {
    if entryCount != chainCount then [CountMismatch(entryCount, chainCount)] else []
  }

  lemma ScopesStep(rows: seq<ChainRow>, i: nat)
    requires i < |rows|
    ensures (set r | r in rows[..i + 1] :: r.scope) == (set r | r in rows[..i] :: r.scope) + {rows[i].scope}
  {
    assert rows[..i + 1] == rows[..i] + [rows[i]];
  }

  /** One pass of the loop: the issues of a row, against the last row read of its scope. */
  method CheckRow(hash: Hash, entries: seq<AuditEntry>, ghost rows: seq<ChainRow>, ghost i: nat, r: ChainRow,
                  previous: map<Scope, ChainRow>) returns (issues: seq<Issue>)
    requires i < |rows| && r == rows[i]
    requires Tracks(previous, rows[..i])
    ensures issues == IssuesAt(hash, entries, rows, i)
  {
    assert TracksScope(previous, rows[..i], r.scope);
    issues := LinkIssues(LastRead(previous, r.scope), r) + EntryIssues(hash, Find(entries, r.entryId), r);
  }

  /** The loop over the rows, with its map from scope to last row read. */
  method CheckRows(hash: Hash, entries: seq<AuditEntry>, rows: seq<ChainRow>) returns (issues: seq<Issue>, scopes: nat)
    ensures issues == RowIssues(hash, entries, rows, |rows|)
    ensures scopes == |set r | r in rows :: r.scope|
  {
    issues := [];
    var seen: set<Scope> := {};
    var previous: map<Scope, ChainRow> := map[];
    for i := 0 to |rows|
      invariant seen == set r | r in rows[..i] :: r.scope
      invariant Tracks(previous, rows[..i])
      invariant issues == RowIssues(hash, entries, rows, i)
    {
      var rowIssues := CheckRow(hash, entries, rows, i, rows[i], previous);
      issues := issues + rowIssues;
      ScopesStep(rows, i);
      seen := seen + {rows[i].scope};
      TracksStep(previous, rows, i);
      previous := previous[rows[i].scope := rows[i]];
    }
    assert rows[..|rows|] == rows;
    scopes := |seen|;
  }

  /** The verifier over the rows its query returned: it lists every row's issues in order, and
      none at all exactly when the counts agree and the rows are sound. */
  method VerifyAuditChain(hash: Hash, counted: seq<AuditEntry>, chain: seq<ChainRow>,
                          entries: seq<AuditEntry>, rows: seq<ChainRow>, matter: Option<string>)
    returns (v: Verification)
    ensures v.ok <==> v.issues == []
    ensures v.ok <==> Accepted(hash, counted, chain, entries, rows, matter)
    ensures v.entryCount == |EntriesOf(counted, matter)| && v.chainCount == |RowsOf(chain, matter)|
    ensures v.issues == CountIssues(v.entryCount, v.chainCount) + RowIssues(hash, entries, rows, |rows|)
    ensures v.scopesVerified == |set r | r in rows :: r.scope|
  {
    var entryCount, chainCount := |EntriesOf(counted, matter)|, |RowsOf(chain, matter)|;
    var rowIssues, scopes := CheckRows(hash, entries, rows);
    var issues := CountIssues(entryCount, chainCount) + rowIssues;
    assert rows[..|rows|] == rows;
    NoIssuesIffSound(hash, entries, rows, |rows|);
    v := Verification(issues == [], entryCount, chainCount, scopes, issues);
  }
}

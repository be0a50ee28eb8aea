/** The exported chain, the verifier that travels with it, what passing that verifier proves,
    and its agreement with the in-database verifier. */
module ChainExport {
  import opened Options
  import opened Canonical
  import opened AuditChain
  import opened ChainProtocol
  import Sets

  const FORMAT := "legalise-audit-chain-export-v1"

  type FieldValues = s: seq<Option<string>> | |s| == FIELD_COUNT
    witness seq(FIELD_COUNT, i => None)

  const ID := 0
  const MATTER_ID := 3

  /** One element of `entries` in audit_chain.json; an absent key reads as `None`. */
  datatype ExportedEntry = ExportedEntry(fields: FieldValues, scopeType: string, sequence: int, version: int,
                                         previous: Option<string>, entryHash: Option<string>,
                                         chainHash: Option<string>)

  datatype FileHead = FileHead(chainHash: Option<string>, entryCount: int)

  datatype File = File(format: string, entries: seq<ExportedEntry>, head: Option<FileHead>)

  /** audit.json beside the chain file: not there, not readable, or its row ids. */
  datatype AuditJson = Absent | Unreadable | AuditRows(ids: seq<string>)

  /** `str(value)` of an optional text. */
  function Str(v: Option<string>): string {
    if v.None? then "None" else v.value
  }

  function EntryText(x: ExportedEntry): string {
    Text(ENTRY_PREFIX, x.fields)
  }

  function LinkText(hash: Hash, x: ExportedEntry): string {
    Text(LINK_PREFIX, LinkFields(x.version, x.scopeType, x.fields[MATTER_ID], x.sequence, Str(x.fields[ID]),
                                 x.previous, hash(EntryText(x))))
  }

  // ---- The offline verifier ----

  datatype Problem =
    | UnsupportedFormat | HeadWithoutEntries | EntriesWithoutHead
    | WrongSequence(at: nat) | BrokenLink(at: nat) | EntryAltered(at: nat) | ChainHashWrong(at: nat)
    | HeadHashMismatch | HeadCountMismatch
    | AuditUnreadable | MissingFromChain(ids: set<string>) | MissingFromAudit(ids: set<string>)

  function PreviousHash(entries: seq<ExportedEntry>, i: nat): Option<string>
    requires i <= |entries|
  {
    if i == 0 then None else entries[i - 1].chainHash
  }

  /** What is wrong with entry `p.at`, if `p` is a complaint about one entry. */
  predicate EntryFault(hash: Hash, entries: seq<ExportedEntry>, p: Problem) {
    match p
    case WrongSequence(i) => i < |entries| && entries[i].sequence != i + 1
    case BrokenLink(i) => i < |entries| && entries[i].previous != PreviousHash(entries, i)
    case EntryAltered(i) => i < |entries| && entries[i].entryHash != Some(hash(EntryText(entries[i])))
    case ChainHashWrong(i) => i < |entries| && entries[i].chainHash != Some(hash(LinkText(hash, entries[i])))
    case _ => false
  }

  ghost predicate EntryOk(hash: Hash, entries: seq<ExportedEntry>, i: nat)
    requires i < |entries|
  {
    && entries[i].sequence == i + 1
    && entries[i].previous == PreviousHash(entries, i)
    && entries[i].entryHash == Some(hash(EntryText(entries[i])))
    && entries[i].chainHash == Some(hash(LinkText(hash, entries[i])))
  }

  ghost predicate AllOk(hash: Hash, entries: seq<ExportedEntry>) {
    forall i :: 0 <= i < |entries| ==> EntryOk(hash, entries, i)
  }

  function ChainIds(entries: seq<ExportedEntry>): set<string> {
    set x | x in entries :: Str(x.fields[ID])
  }

  function IdSet(ids: seq<string>): set<string> {
    set x | x in ids
  }

  ghost predicate AuditAgrees(entries: seq<ExportedEntry>, audit: AuditJson) {
    match audit
    case Absent => true
    case Unreadable => false
    case AuditRows(ids) => IdSet(ids) == ChainIds(entries)
  }

  /** What a passing file satisfies. An empty chain is not compared with audit.json. */
  ghost predicate Passes(hash: Hash, file: File, audit: AuditJson) {
    && file.format == FORMAT
    && (file.entries == [] ==> file.head.None?)
    && (file.entries != [] ==>
          && file.head.Some?
          && AllOk(hash, file.entries)
          && file.head.value.chainHash == PreviousHash(file.entries, |file.entries|)
          && file.head.value.entryCount == |file.entries|
          && AuditAgrees(file.entries, audit))
  }

  /** The complaints about the entry at position `i`, given the chain hash before it. */
  function EntryProblems(hash: Hash, x: ExportedEntry, i: nat, last: Option<string>): seq<Problem> {
    var computedEntry := hash(EntryText(x));
    (if x.sequence != i + 1 then [WrongSequence(i)] else []) +
    (if x.previous != last then [BrokenLink(i)] else []) +
    (if x.entryHash != Some(computedEntry) then [EntryAltered(i)] else []) +
    (if x.chainHash != Some(hash(LinkText(hash, x))) then [ChainHashWrong(i)] else [])
  }

  lemma EntryProblemsExact(hash: Hash, entries: seq<ExportedEntry>, i: nat)
    requires i < |entries|
    ensures forall p :: p in EntryProblems(hash, entries[i], i, PreviousHash(entries, i)) <==>
                        EntryFault(hash, entries, p) && p.at == i
  {
  }

  /** The loop over the entries: the complaints are exactly the faulty entries, each named. */
  method VerifyEntries(hash: Hash, entries: seq<ExportedEntry>) returns (problems: seq<Problem>, last: Option<string>)
    ensures forall p :: p in problems <==> EntryFault(hash, entries, p)
    ensures last == PreviousHash(entries, |entries|)
  {
    problems, last := [], None;
    for i := 0 to |entries|
      invariant last == PreviousHash(entries, i)
      invariant forall p :: p in problems <==> EntryFault(hash, entries, p) && p.at < i
    {
      problems := problems + EntryProblems(hash, entries[i], i, last);
      EntryProblemsExact(hash, entries, i);
      last := entries[i].chainHash;
    }
  }

  lemma NoFaultsIffOk(hash: Hash, entries: seq<ExportedEntry>)
    ensures (forall p :: !EntryFault(hash, entries, p)) <==> AllOk(hash, entries)
  {
    if forall p :: !EntryFault(hash, entries, p) {
      forall i | 0 <= i < |entries|
        ensures EntryOk(hash, entries, i)
      {
        assert !EntryFault(hash, entries, WrongSequence(i)) && !EntryFault(hash, entries, BrokenLink(i));
        assert !EntryFault(hash, entries, EntryAltered(i)) && !EntryFault(hash, entries, ChainHashWrong(i));
      }
    }
    if AllOk(hash, entries) {
      forall p
        ensures !EntryFault(hash, entries, p)
      {
        if (p.WrongSequence? || p.BrokenLink? || p.EntryAltered? || p.ChainHashWrong?) && p.at < |entries| {
          assert EntryOk(hash, entries, p.at);
        }
      }
    }
  }

  /** The two id lists agree when each element's id is listed, a missing one as the text `None`, and
      nothing else is. */
  lemma AuditAgreesListed(entries: seq<ExportedEntry>, ids: seq<string>)
    ensures AuditAgrees(entries, AuditRows(ids)) <==>
            && (forall x :: x in entries ==> (if x.fields[0].None? then "None" else x.fields[0].value) in ids)
            && forall id :: id in ids ==>
                            exists x :: x in entries && (x.fields[0] == Some(id) || (x.fields[0] == None && id == "None"))
  {
    if AuditAgrees(entries, AuditRows(ids)) {
      forall x | x in entries
        ensures (if x.fields[0].None? then "None" else x.fields[0].value) in ids
      {
        assert Str(x.fields[ID]) in ChainIds(entries);
        assert Str(x.fields[ID]) in IdSet(ids);
      }
      forall id | id in ids
        ensures exists x :: x in entries && (x.fields[0] == Some(id) || (x.fields[0] == None && id == "None"))
      {
        assert id in IdSet(ids);
        var x :| x in entries && Str(x.fields[ID]) == id;
      }
    }
  }

  method CrossCheck(entries: seq<ExportedEntry>, audit: AuditJson) returns (problems: seq<Problem>)
    ensures problems == [] <==> AuditAgrees(entries, audit)
  {
    problems := [];
    match audit
    case Absent =>
    case Unreadable => problems := [AuditUnreadable];
    case AuditRows(ids) =>
      var chainIds, auditIds := ChainIds(entries), IdSet(ids);
      if auditIds != chainIds {
        var missing, extra := auditIds - chainIds, chainIds - auditIds;
        assert missing == {} && extra == {} ==> auditIds == chainIds;
        if missing != {} {
          problems := problems + [MissingFromChain(missing)];
        }
        if extra != {} {
          problems := problems + [MissingFromAudit(extra)];
        }
      }
  }

  /** `verify_chain.py`: no problem is reported exactly when the file passes, and a file with
      entries and a head gets a complaint about an entry exactly when that entry is faulty. */
  method VerifyFile(hash: Hash, file: File, audit: AuditJson) returns (problems: seq<Problem>)
    ensures problems == [] <==> Passes(hash, file, audit)
    ensures file.format == FORMAT && file.entries != [] && file.head.Some? ==>
              forall p :: EntryFault(hash, file.entries, p) ==> p in problems
  {
    if file.format != FORMAT {
      return [UnsupportedFormat];
    }
    if file.entries == [] {
      problems := if file.head.Some? then [HeadWithoutEntries] else [];
      return;
    }
    if file.head.None? {
      return [EntriesWithoutHead];
    }
    var last;
    problems, last := VerifyEntries(hash, file.entries);
    NoFaultsIffOk(hash, file.entries);
    assert problems == [] <==> forall p :: !EntryFault(hash, file.entries, p) by {
      assert problems != [] ==> problems[0] in problems;
    }
    if file.head.value.chainHash != last {
      problems := problems + [HeadHashMismatch];
    }
    if file.head.value.entryCount != |file.entries| {
      problems := problems + [HeadCountMismatch];
    }
    var cross := CrossCheck(file.entries, audit);
    problems := problems + cross;
  }

  // ---- Tamper evidence ----

  /** Every text the verifier hashes for one file. */
  ghost function FileTexts(hash: Hash, entries: seq<ExportedEntry>): set<string> {
    (set x | x in entries :: EntryText(x)) + (set x | x in entries :: LinkText(hash, x))
  }

  /** One link hash pins down the whole entry it was computed from. */
  lemma SameLinkSameEntry(hash: Hash, x: ExportedEntry, y: ExportedEntry)
    requires CollisionFree(hash, {EntryText(x), EntryText(y), LinkText(hash, x), LinkText(hash, y)})
    requires hash(LinkText(hash, x)) == hash(LinkText(hash, y))
    ensures x.fields == y.fields && x.scopeType == y.scopeType && x.sequence == y.sequence
    ensures x.version == y.version && x.previous == y.previous
  {
    var a := LinkFields(x.version, x.scopeType, x.fields[MATTER_ID], x.sequence, Str(x.fields[ID]), x.previous,
                        hash(EntryText(x)));
    var b := LinkFields(y.version, y.scopeType, y.fields[MATTER_ID], y.sequence, Str(y.fields[ID]), y.previous,
                        hash(EntryText(y)));
    TextInjective(LINK_PREFIX, a, b);
    assert a[0] == b[0] && a[1] == b[1] && a[3] == b[3] && a[5] == b[5] && a[6] == b[6];
    IntTextInjective(x.version, y.version);
    IntTextInjective(x.sequence, y.sequence);
    TextInjective(ENTRY_PREFIX, x.fields, y.fields);
  }

  lemma SmallerCollisionFree(hash: Hash, a: seq<ExportedEntry>, b: seq<ExportedEntry>, i: nat, j: nat)
    requires CollisionFree(hash, FileTexts(hash, a) + FileTexts(hash, b))
    requires i < |a| && j < |b|
    ensures CollisionFree(hash, {EntryText(a[i]), EntryText(b[j]), LinkText(hash, a[i]), LinkText(hash, b[j])})
  {
    assert a[i] in a && b[j] in b;
  }

  /** A link hash shared at one position of two sound chains is shared at the one before. */
  lemma AgreeStep(hash: Hash, a: seq<ExportedEntry>, b: seq<ExportedEntry>, i: nat)
    requires CollisionFree(hash, FileTexts(hash, a) + FileTexts(hash, b))
    requires i < |a| && i < |b|
    requires EntryOk(hash, a, i) && EntryOk(hash, b, i)
    requires a[i].chainHash == b[i].chainHash
    ensures a[i] == b[i]
    ensures i > 0 ==> a[i - 1].chainHash == b[i - 1].chainHash
  {
    SmallerCollisionFree(hash, a, b, i, i);
    SameLinkSameEntry(hash, a[i], b[i]);
  }

  /** A link hash shared at position `i` makes the entries there one, and is shared one step back. */
  ghost predicate AgreesAt(a: seq<ExportedEntry>, b: seq<ExportedEntry>, i: nat)
    requires i < |a| && i < |b|
  {
    a[i].chainHash == b[i].chainHash ==> a[i] == b[i] && (i > 0 ==> a[i - 1].chainHash == b[i - 1].chainHash)
  }

  lemma SoundChainsAgreeAt(hash: Hash, a: seq<ExportedEntry>, b: seq<ExportedEntry>, i: nat)
    requires CollisionFree(hash, FileTexts(hash, a) + FileTexts(hash, b))
    requires i < |a| && i < |b|
    requires AllOk(hash, a) && AllOk(hash, b)
    ensures AgreesAt(a, b, i)
  {
    if a[i].chainHash == b[i].chainHash {
      assert EntryOk(hash, a, i) && EntryOk(hash, b, i);
      AgreeStep(hash, a, b, i);
    }
  }

  /** From a shared link hash at position `i`, agreement runs back to the first entry. */
  lemma {:induction false} AgreeBack(a: seq<ExportedEntry>, b: seq<ExportedEntry>, i: nat)
    requires i < |a| && i < |b|
    requires forall k :: 0 <= k <= i ==> AgreesAt(a, b, k)
    requires a[i].chainHash == b[i].chainHash
    ensures forall k :: 0 <= k <= i ==> a[k] == b[k]
  {
    assert AgreesAt(a, b, i);
    if i > 0 {
      AgreeBack(a, b, i - 1);
    }
  }

  /** The link text carries the sequence, so chains ending in one hash have one length. */
  lemma SameLength(hash: Hash, a: seq<ExportedEntry>, b: seq<ExportedEntry>)
    requires a != [] && b != []
    requires AllOk(hash, a) && AllOk(hash, b)
    requires a[|a| - 1].chainHash == b[|b| - 1].chainHash
    requires CollisionFree(hash, FileTexts(hash, a) + FileTexts(hash, b))
    ensures |a| == |b|
  {
    var m, n := |a| - 1, |b| - 1;
    assert EntryOk(hash, a, m) && EntryOk(hash, b, n);
    SmallerCollisionFree(hash, a, b, m, n);
    SameLinkSameEntry(hash, a[m], b[n]);
  }

  lemma SameChain(hash: Hash, a: seq<ExportedEntry>, b: seq<ExportedEntry>)
    requires a != [] && b != []
    requires AllOk(hash, a) && AllOk(hash, b)
    requires a[|a| - 1].chainHash == b[|b| - 1].chainHash
    requires CollisionFree(hash, FileTexts(hash, a) + FileTexts(hash, b))
    ensures a == b
  {
    SameLength(hash, a, b);
    forall k | 0 <= k < |a|
      ensures AgreesAt(a, b, k)
    {
      SoundChainsAgreeAt(hash, a, b, k);
    }
    AgreeBack(a, b, |a| - 1);
  }

  /** Two non-empty files that both pass and state one head hash are the same chain, entry for
      entry, unless the hash collides on texts hashed for these very files. No entry can have
      been edited, dropped, added or moved without changing the head. */
  lemma HeadPinsChain(hash: Hash, f: File, g: File, auditF: AuditJson, auditG: AuditJson)
    requires f.entries != [] && g.entries != []
    requires Passes(hash, f, auditF) && Passes(hash, g, auditG)
    requires f.head.value.chainHash == g.head.value.chainHash
    requires CollisionFree(hash, FileTexts(hash, f.entries) + FileTexts(hash, g.entries))
    ensures f.entries == g.entries
  {
    SameChain(hash, f.entries, g.entries);
  }

  // ---- The export ----

  function ExportEntry(e: AuditEntry, r: ChainRow): ExportedEntry {
    ExportedEntry(CanonicalFields(e.(payloadText := OrEmptyObject(e.payloadText))), r.scope.scopeType, r.sequence,
                  r.version, r.previous, Some(r.entryHash), Some(r.chainHash))
  }

  /** The rows an inner join with the entries keeps, in order. */
  function Joined(entries: seq<AuditEntry>, rows: seq<ChainRow>): seq<ExportedEntry> {
    if rows == [] then []
    else
      var front := Joined(entries, rows[..|rows| - 1]);
      match Find(entries, rows[|rows| - 1].entryId)
      case None => front
      case Some(e) => front + [ExportEntry(e, rows[|rows| - 1])]
  }

  function HeadOf(entries: seq<ExportedEntry>): Option<FileHead> {
    if entries == [] then None
    else Some(FileHead(entries[|entries| - 1].chainHash, |entries|))
  }

  function ChainFileOf(entries: seq<AuditEntry>, rows: seq<ChainRow>): File {
    File(FORMAT, Joined(entries, rows), HeadOf(Joined(entries, rows)))
  }

  /** Builds audit_chain.json from the chain rows of one matter in sequence order. */
  method BuildChainFile(entries: seq<AuditEntry>, rows: seq<ChainRow>) returns (file: File)
    ensures file == ChainFileOf(entries, rows)
    ensures file.format == "legalise-audit-chain-export-v1"
    ensures file.entries != [] ==>
              && file.head.Some? && file.head.value.entryCount == |file.entries|
              && file.head.value.chainHash == file.entries[|file.entries| - 1].chainHash
  {
    var out: seq<ExportedEntry> := [];
    for i := 0 to |rows|
      invariant out == Joined(entries, rows[..i])
    {
      var found := Find(entries, rows[i].entryId);
      if found.Some? {
        out := out + [ExportEntry(found.value, rows[i])];
      }
      assert rows[..i + 1][..i] == rows[..i];
    }
    assert rows[..|rows|] == rows;
    file := File(FORMAT, out, HeadOf(out));
  }

  /** One exported element fixes the stored row and the stored entry it was written from. */
  lemma ExportPinsRow(hash: Hash, e: AuditEntry, r: ChainRow, f: AuditEntry, q: ChainRow)
    requires Describes(hash, e, r) && Describes(hash, f, q)
    requires ExportEntry(e, r) == ExportEntry(f, q)
    ensures e == f && r == q
  {
    assert e.(payloadText := OrEmptyObject(e.payloadText)) == e && f.(payloadText := OrEmptyObject(f.payloadText)) == f;
    CanonicalFieldsInjective(e, f);
  }

  // ---- Agreement of the two verifiers ----

  ghost predicate JoinedAt(entries: seq<AuditEntry>, rows: seq<ChainRow>, i: nat)
    requires i < |rows|
  {
    && i < |Joined(entries, rows)|
    && Find(entries, rows[i].entryId).Some?
    && Joined(entries, rows)[i] == ExportEntry(Find(entries, rows[i].entryId).value, rows[i])
  }

  lemma JoinedStep(entries: seq<AuditEntry>, front: seq<ChainRow>, last: ChainRow)
    requires Find(entries, last.entryId).Some?
    ensures Joined(entries, front + [last]) == Joined(entries, front) + [ExportEntry(Find(entries, last.entryId).value, last)]
  {
    assert (front + [last])[..|front|] == front;
  }

  lemma JoinedAppend(entries: seq<AuditEntry>, front: seq<ChainRow>, last: ChainRow)
    requires Find(entries, last.entryId).Some?
    requires |Joined(entries, front)| == |front|
    requires forall i :: 0 <= i < |front| ==> JoinedAt(entries, front, i)
    ensures |Joined(entries, front + [last])| == |front| + 1
    ensures forall i :: 0 <= i < |front| + 1 ==> JoinedAt(entries, front + [last], i)
  {
    JoinedStep(entries, front, last);
    forall i | 0 <= i < |front| + 1
      ensures JoinedAt(entries, front + [last], i)
    {
      if i < |front| {
        assert JoinedAt(entries, front, i);
      }
    }
  }

  lemma {:induction false} JoinedAll(hash: Hash, entries: seq<AuditEntry>, rows: seq<ChainRow>)
    requires AllBacked(hash, entries, rows)
    ensures |Joined(entries, rows)| == |rows|
    ensures forall i :: 0 <= i < |rows| ==> JoinedAt(entries, rows, i)
  {
    if rows != [] {
      var front, last := rows[..|rows| - 1], rows[|rows| - 1];
      assert rows == front + [last];
      assert Backed(hash, entries, last);
      JoinedAll(hash, entries, front);
      JoinedAppend(entries, front, last);
    }
  }

  /** A linked, backed scope exports to entries the offline verifier accepts one by one. */
  lemma ExportedEntriesOk(hash: Hash, entries: seq<AuditEntry>, rows: seq<ChainRow>)
    requires AllBacked(hash, entries, rows) && Linked(rows)
    ensures var out := Joined(entries, rows);
            AllOk(hash, out)
  {
    JoinedAll(hash, entries, rows);
    var out := Joined(entries, rows);
    forall i | 0 <= i < |out|
      ensures EntryOk(hash, out, i)
    {
      assert rows[i] in rows;
      assert Backed(hash, entries, rows[i]);
      assert JoinedAt(entries, rows, i) && LinkedAt(rows, i);
      assert i > 0 ==> JoinedAt(entries, rows, i - 1);
    }
  }

  /** All rows kept for a matter lie in that matter's scope once each is backed by its entry. */
  lemma OneScope(hash: Hash, entries: seq<AuditEntry>, rows: seq<ChainRow>, matter: string)
    requires AllBacked(hash, entries, rows)
    requires forall r :: r in rows ==> r.scope.matterId == Some(matter)
    ensures forall r :: r in rows ==> r.scope == Scope(SCOPE_MATTER, Some(matter))
  {
    forall r | r in rows
      ensures r.scope == Scope(SCOPE_MATTER, Some(matter))
    {
      assert Backed(hash, entries, r);
    }
  }

  lemma {:induction false} OfScopeAll(rows: seq<ChainRow>, sc: Scope)
    requires forall r :: r in rows ==> r.scope == sc
    ensures OfScope(rows, sc) == rows
  {
    if rows != [] {
      var front, last := rows[..|rows| - 1], rows[|rows| - 1];
      assert rows == front + [last];
      OfScopeAll(front, sc);
    }
  }

  /** The law on the database itself: two databases in which a matter's rows are linked and backed, and
      end in one chain hash, hold the same rows and, in every column, the same entries behind them. */
  lemma HeadPinsDatabase(hash: Hash, a: seq<AuditEntry>, rowsA: seq<ChainRow>, b: seq<AuditEntry>, rowsB: seq<ChainRow>)
    requires AllBacked(hash, a, rowsA) && Linked(rowsA) && AllBacked(hash, b, rowsB) && Linked(rowsB)
    requires rowsA != [] && rowsB != []
    requires rowsA[|rowsA| - 1].chainHash == rowsB[|rowsB| - 1].chainHash
    requires CollisionFree(hash, FileTexts(hash, Joined(a, rowsA)) + FileTexts(hash, Joined(b, rowsB)))
    ensures rowsA == rowsB
    ensures forall r :: r in rowsA ==> Find(a, r.entryId) == Find(b, r.entryId)
  {
    ExportedEntriesOk(hash, a, rowsA);
    ExportedEntriesOk(hash, b, rowsB);
    JoinedAll(hash, a, rowsA);
    JoinedAll(hash, b, rowsB);
    assert JoinedAt(a, rowsA, |rowsA| - 1) && JoinedAt(b, rowsB, |rowsB| - 1);
    SameChain(hash, Joined(a, rowsA), Joined(b, rowsB));
    forall i | 0 <= i < |rowsA|
      ensures rowsA[i] == rowsB[i] && Find(a, rowsA[i].entryId) == Find(b, rowsA[i].entryId)
    {
      SameJoinedSameRow(hash, a, rowsA, b, rowsB, i);
    }
  }

  lemma SameJoinedSameRow(hash: Hash, a: seq<AuditEntry>, rowsA: seq<ChainRow>, b: seq<AuditEntry>, rowsB: seq<ChainRow>, i: nat)
    requires AllBacked(hash, a, rowsA) && AllBacked(hash, b, rowsB)
    requires i < |rowsA| && i < |rowsB|
    requires JoinedAt(a, rowsA, i) && JoinedAt(b, rowsB, i)
    requires Joined(a, rowsA)[i] == Joined(b, rowsB)[i]
    ensures rowsA[i] == rowsB[i] && Find(a, rowsA[i].entryId) == Find(b, rowsA[i].entryId)
  {
    assert Backed(hash, a, rowsA[i]) && Backed(hash, b, rowsB[i]);
    ExportPinsRow(hash, Find(a, rowsA[i].entryId).value, rowsA[i], Find(b, rowsB[i].entryId).value, rowsB[i]);
  }

  ghost predicate UniqueEntryIds(chain: seq<ChainRow>) {
    forall i, j :: 0 <= i < j < |chain| ==> chain[i].entryId != chain[j].entryId
  }

  function RowIds(rows: seq<ChainRow>): set<string> {
    set r | r in rows :: r.entryId
  }

  lemma {:induction false} RowIdCount(chain: seq<ChainRow>, matter: Option<string>)
    requires UniqueEntryIds(chain)
    ensures |RowIds(RowsOf(chain, matter))| == |RowsOf(chain, matter)|
  {
    if chain != [] {
      var front, last := chain[..|chain| - 1], chain[|chain| - 1];
      RowIdCount(front, matter);
      var kept := RowsOf(front, matter);
      assert last.entryId !in RowIds(kept);
      if matter.None? || last.scope.matterId == matter {
        assert RowIds(kept + [last]) == RowIds(kept) + {last.entryId};
      }
    }
  }

  function EntryIds(entries: seq<AuditEntry>): set<string> {
    set e | e in entries :: e.id
  }

  lemma {:induction false} EntryIdCount(entries: seq<AuditEntry>)
    ensures |EntryIds(entries)| <= |entries|
  {
    if entries != [] {
      var front := entries[..|entries| - 1];
      EntryIdCount(front);
      assert EntryIds(entries) == EntryIds(front) + {entries[|entries| - 1].id};
    }
  }

  /** Equal counts and unique ids leave no room: the chain names every entry of the matter. */
  lemma ChainNamesEveryEntry(hash: Hash, entries: seq<AuditEntry>, chain: seq<ChainRow>, matter: string)
    requires UniqueEntryIds(chain)
    requires AllBacked(hash, entries, RowsOf(chain, Some(matter)))
    requires |EntriesOf(entries, Some(matter))| == |RowsOf(chain, Some(matter))|
    ensures RowIds(RowsOf(chain, Some(matter))) == EntryIds(EntriesOf(entries, Some(matter)))
  {
    var rows, mine := RowsOf(chain, Some(matter)), EntriesOf(entries, Some(matter));
    RowIdCount(chain, Some(matter));
    EntryIdCount(mine);
    forall id | id in RowIds(rows)
      ensures id in EntryIds(mine)
    {
      var r :| r in rows && r.entryId == id;
      assert Backed(hash, entries, r);
      assert Find(entries, id).value in mine;
    }
    Sets.SubsetSize(RowIds(rows), EntryIds(mine));
  }

  lemma ExportedIds(hash: Hash, entries: seq<AuditEntry>, rows: seq<ChainRow>)
    requires AllBacked(hash, entries, rows)
    ensures ChainIds(Joined(entries, rows)) == RowIds(rows)
  {
    JoinedAll(hash, entries, rows);
    var out := Joined(entries, rows);
    forall id
      ensures id in ChainIds(out) <==> id in RowIds(rows)
    {
      if id in ChainIds(out) {
        var x :| x in out && Str(x.fields[ID]) == id;
        var i :| 0 <= i < |out| && out[i] == x;
        assert JoinedAt(entries, rows, i);
        assert rows[i] in rows;
      }
      if id in RowIds(rows) {
        var r :| r in rows && r.entryId == id;
        var i :| 0 <= i < |rows| && rows[i] == r;
        assert JoinedAt(entries, rows, i);
        assert out[i] in out;
      }
    }
  }

  /** `read` is the matter's rows as the database verifier read them, `rows` as the export did. */
  lemma ExportRowsAreLinked(hash: Hash, entries: seq<AuditEntry>, chain: seq<ChainRow>, read: seq<ChainRow>,
                            rows: seq<ChainRow>, matter: string)
    requires Answers(read, chain, Some(matter))
    requires RowsSound(hash, entries, read)
    requires multiset(rows) == multiset(RowsOf(chain, Some(matter))) && Nondecreasing(rows)
    ensures AllBacked(hash, entries, rows) && Linked(rows)
    ensures forall r :: r in rows <==> r in RowsOf(chain, Some(matter))
  {
    var chosen, sc := RowsOf(chain, Some(matter)), Scope(SCOPE_MATTER, Some(matter));
    assert forall r :: r in rows <==> r in multiset(rows);
    assert forall r :: r in chosen <==> r in multiset(chosen);
    assert forall r :: r in read <==> r in multiset(read);
    OneScope(hash, entries, read, matter);
    OfScopeAll(read, sc);
    assert Linked(OfScope(read, sc));
    LinkedUnique(read, rows);
  }

  lemma ExportedIdsMatch(hash: Hash, entries: seq<AuditEntry>, chain: seq<ChainRow>, rows: seq<ChainRow>, matter: string)
    requires UniqueEntryIds(chain)
    requires AllBacked(hash, entries, rows)
    requires forall r :: r in rows <==> r in RowsOf(chain, Some(matter))
    requires |EntriesOf(entries, Some(matter))| == |RowsOf(chain, Some(matter))|
    ensures ChainIds(Joined(entries, rows)) == EntryIds(EntriesOf(entries, Some(matter)))
  {
    ChainNamesEveryEntry(hash, entries, chain, matter);
    ExportedIds(hash, entries, rows);
    assert RowIds(rows) == RowIds(RowsOf(chain, Some(matter)));
  }

  /** Whenever the database verifier accepts a matter that has entries, the export built from
      the same snapshot passes the offline verifier, audit.json included. */
  lemma VerifiersAgree(hash: Hash, entries: seq<AuditEntry>, chain: seq<ChainRow>, read: seq<ChainRow>,
                       rows: seq<ChainRow>, ids: seq<string>, matter: string)
    requires Accepted(hash, entries, chain, entries, read, Some(matter))
    requires Answers(read, chain, Some(matter))
    requires UniqueEntryIds(chain)
    requires multiset(rows) == multiset(RowsOf(chain, Some(matter))) && Nondecreasing(rows)
    requires IdSet(ids) == EntryIds(EntriesOf(entries, Some(matter)))
    requires RowsOf(chain, Some(matter)) != []
    ensures Passes(hash, ChainFileOf(entries, rows), AuditRows(ids))
    ensures ChainFileOf(entries, rows).entries != []
  {
    ExportRowsAreLinked(hash, entries, chain, read, rows, matter);
    ExportedEntriesOk(hash, entries, rows);
    JoinedAll(hash, entries, rows);
    assert RowsOf(chain, Some(matter))[0] in rows;
    ExportedIdsMatch(hash, entries, chain, rows, matter);
    FileOfOkEntriesPasses(hash, Joined(entries, rows), ids);
  }

  lemma FileOfOkEntriesPasses(hash: Hash, out: seq<ExportedEntry>, ids: seq<string>)
    requires out != [] && AllOk(hash, out)
    requires IdSet(ids) == ChainIds(out)
    ensures Passes(hash, File(FORMAT, out, HeadOf(out)), AuditRows(ids))
  {
  }

  lemma AlignedHasUniqueIds(hash: Hash, entries: seq<AuditEntry>, chain: seq<ChainRow>)
    requires Aligned(hash, entries, chain) && DistinctIds(entries)
    ensures UniqueEntryIds(chain)
  {
    forall i, j | 0 <= i < j < |chain|
      ensures chain[i].entryId != chain[j].entryId
    {
      assert Describes(hash, entries[i], chain[i]) && Describes(hash, entries[j], chain[j]);
    }
  }

  /** The ids in audit.json, read before an entry of the matter was committed, lack that entry's id. */
  lemma NewEntryIsMissing(s: State, t: State, matter: string, e: AuditEntry)
    requires Extends(s, t) && DistinctIds(t.entries)
    requires IsNew(s, t, Some(matter), e)
    ensures e.id in EntryIds(EntriesOf(t.entries, Some(matter)))
    ensures e.id !in EntryIds(EntriesOf(s.entries, Some(matter)))
  {
    assert e in EntriesOf(t.entries, Some(matter));
    NewHasOwnId(s, t, e);
  }

  lemma NothingNewSameIds(s: State, t: State, matter: string)
    requires Extends(s, t) && !CommittedBetween(s, t, Some(matter))
    ensures EntryIds(EntriesOf(s.entries, Some(matter))) == EntryIds(EntriesOf(t.entries, Some(matter)))
  {
    forall e
      ensures e in EntriesOf(t.entries, Some(matter)) <==> e in EntriesOf(s.entries, Some(matter))
    {
      assert !IsNew(s, t, Some(matter), e);
    }
  }

  /** End to end: the export reads the matter's entries and, in a later statement, its chain rows. On
      a matter that has entries its file passes the offline verifier exactly when no entry of the
      matter was committed in between. */
  lemma EveryRunExports(hash: Hash, lockKey: LockKey, start: State, before: seq<Step>, s: State, between: seq<Step>,
                        t: State, read: seq<ChainRow>, rows: seq<ChainRow>, ids: seq<string>, matter: string)
    requires Inv(hash, lockKey, start)
    requires Reaches(hash, lockKey, start, before, s) && Reaches(hash, lockKey, s, between, t)
    requires Answers(read, t.chain, Some(matter))
    requires multiset(rows) == multiset(RowsOf(t.chain, Some(matter))) && Nondecreasing(rows)
    requires IdSet(ids) == EntryIds(EntriesOf(s.entries, Some(matter)))
    requires EntriesOf(t.entries, Some(matter)) != []
    ensures Passes(hash, ChainFileOf(t.entries, rows), AuditRows(ids)) <==> !CommittedBetween(s, t, Some(matter))
  {
    RunKeepsInv(hash, lockKey, start, before, s);
    RunKeepsInv(hash, lockKey, s, between, t);
    RunExtends(hash, lockKey, s, between, t);
    if CommittedBetween(s, t, Some(matter)) {
      var e :| IsNew(s, t, Some(matter), e);
      NewEntryIsMissing(s, t, matter, e);
    } else {
      NothingNewSameIds(s, t, matter);
    }
    SnapshotExports(hash, t, read, rows, ids, matter);
  }

  /** On one state the file passes exactly when audit.json lists the matter's entries. */
  lemma SnapshotExports(hash: Hash, t: State, read: seq<ChainRow>, rows: seq<ChainRow>, ids: seq<string>, matter: string)
    requires CommittedOk(hash, t)
    requires Answers(read, t.chain, Some(matter))
    requires multiset(rows) == multiset(RowsOf(t.chain, Some(matter))) && Nondecreasing(rows)
    requires EntriesOf(t.entries, Some(matter)) != []
    ensures Passes(hash, ChainFileOf(t.entries, rows), AuditRows(ids)) <==>
            IdSet(ids) == EntryIds(EntriesOf(t.entries, Some(matter)))
  {
    CommittedIsAccepted(hash, t, read, Some(matter));
    AlignedHasUniqueIds(hash, t.entries, t.chain);
    if IdSet(ids) == EntryIds(EntriesOf(t.entries, Some(matter))) {
      VerifiersAgree(hash, t.entries, t.chain, read, rows, ids, matter);
    } else {
      ExportRowsAreLinked(hash, t.entries, t.chain, read, rows, matter);
      ExportedIdsMatch(hash, t.entries, t.chain, rows, matter);
    }
  }
}
